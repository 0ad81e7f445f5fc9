/** Battery modes in numbers: what each command sends, what it leaves in force and
    what a report adds, with the property names and the values written out
    (internal/evcc/evcc.go, internal/coordinator/evcc.go). */
module EvccInForce {
  import opened Sequences
  import opened Numbers
  import opened Evcc
  import opened EvccUnit
  import opened EvccHistory
  import opened EvccPlane

  // ---------------------------------------------------------------- what is asked for

  /** What `hold` asks of a unit. */
  ghost predicate HoldAsks(key: string, n: int) {
    || (key == "smartMode" && n == 1)
    || (key == "outputLimit" && n == 0)
  }

  /** What `charge` asks of a unit that reports these properties: its input limit is the
      unit's own charge limit where that is positive, else the configured one. */
  ghost predicate ChargeAsks(props: Props, chargeW: int, key: string, n: int) {
    || (key == "smartMode" && n == 1)
    || (key == "acMode" && n == 1)
    || (key == "outputLimit" && n == 0)
    || (key == "inputLimit" && Number(props, "chargeMaxLimit").Some?
        && Number(props, "chargeMaxLimit").value > 0.0 && n == Round(Number(props, "chargeMaxLimit").value))
    || (key == "inputLimit" && !(Number(props, "chargeMaxLimit").Some? && Number(props, "chargeMaxLimit").value > 0.0)
        && n == chargeW)
  }

  lemma {:induction false} TargetsAsk(props: Props, chargeW: int, key: string, n: int)
    ensures key in Target(Hold, props, chargeW) && Target(Hold, props, chargeW)[key] == n <==> HoldAsks(key, n)
    ensures key in Target(Charge, props, chargeW) && Target(Charge, props, chargeW)[key] == n <==>
            ChargeAsks(props, chargeW, key, n)
  {
    hide Number, Round;
  }

  /** What a hold or charge sends, taken or not: of what it asks for exactly what the unit
      does not report already, and nothing at all when nothing is left. */
  lemma {:induction false} OnlyWhatDiffersIsSent(
      s: State, mode: Mode, at: int, chargeW: int, accepted: bool, key: string, n: int)
    requires mode != Normal && s.props != map[]
    ensures var write := Commanded(s, mode, at, chargeW, accepted).write;
      && (write.Some? && key in write.value && write.value[key] == n <==>
          && (if mode == Hold then HoldAsks(key, n) else ChargeAsks(s.props, chargeW, key, n))
          && Number(s.props, key) != Some(n as real))
      && (write.Some? ==> write.value != map[])
  {
    TargetsAsk(s.props, chargeW, key, n);
    var want := Target(mode, s.props, chargeW);
    var diff := DiffOf(want, s.props);
    assert key in diff && diff[key] == n <==> key in want && want[key] == n && Number(s.props, key) != Some(n as real);
    hide Target, HoldAsks, ChargeAsks, Number, SnapshotOf, Written, DiffOf;
    assert key in diff ==> diff != map[];
  }

  /** What a successful hold or charge leaves in force, from any state. */
  lemma {:induction false} AskedIsInForce(
      s: State, mode: Mode, at: int, chargeW: int, accepted: bool, key: string, n: int)
    requires mode != Normal && Commanded(s, mode, at, chargeW, accepted).error.None?
    ensures var after := Commanded(s, mode, at, chargeW, accepted).state;
      && after.mode == mode
      && ((if mode == Hold then HoldAsks(key, n) else ChargeAsks(s.props, chargeW, key, n)) ==>
          Number(after.props, key) == Some(n as real))
  {
    DiffApplies(Target(mode, s.props, chargeW), s.props);
    TargetsAsk(s.props, chargeW, key, n);
    hide Target, HoldAsks, ChargeAsks, Number, SnapshotOf, Written, DiffOf;
  }

  ghost predicate Same(before: Props, after: Props, key: string) {
    (key in before <==> key in after) && (key in before ==> after[key] == before[key])
  }

  lemma {:induction false} OthersStay(s: State, mode: Mode, at: int, chargeW: int, accepted: bool, key: string)
    requires mode != Normal && Commanded(s, mode, at, chargeW, accepted).error.None?
    requires key !in {"smartMode", "outputLimit"} && (mode == Charge ==> key !in {"acMode", "inputLimit"})
    ensures Same(s.props, Commanded(s, mode, at, chargeW, accepted).state.props, key)
  {
    DiffApplies(Target(mode, s.props, chargeW), s.props);
    if key in Target(mode, s.props, chargeW) {
      TargetsAsk(s.props, chargeW, key, Target(mode, s.props, chargeW)[key]);
    }
    hide Target, Number, SnapshotOf, Written, DiffOf;
  }

  // -------------------------------------------------------------------- in every run

  /** A charge that succeeds, after any history: smartMode 1, acMode 1, outputLimit 0, and
      the input limit the unit's rounded charge limit where that is reported and
      positive, else the configured watts. All other properties are as before. */
  lemma {:induction false} ChargeInForce(events: seq<Event>, at: int, accepted: bool, chargeW: int)
    requires Succeeds(Run(events, chargeW), Command(Charge, at, accepted), chargeW)
    ensures var before, after := Run(events, chargeW), Run(events + [Command(Charge, at, accepted)], chargeW);
      && after.mode == Charge && after.lastCmd == at
      && Number(after.props, "smartMode") == Some(1.0)
      && Number(after.props, "acMode") == Some(1.0)
      && Number(after.props, "outputLimit") == Some(0.0)
      && (var limit := Number(before.props, "chargeMaxLimit");
          Number(after.props, "inputLimit") ==
          Some(if limit.Some? && limit.value > 0.0 then Round(limit.value) as real else chargeW as real))
      && (forall k :: k !in {"smartMode", "acMode", "outputLimit", "inputLimit"} ==>
          Same(before.props, after.props, k))
  {
    var s := Run(events, chargeW);
    var limit := Number(s.props, "chargeMaxLimit");
    AskedIsInForce(s, Charge, at, chargeW, accepted, "smartMode", 1);
    AskedIsInForce(s, Charge, at, chargeW, accepted, "acMode", 1);
    AskedIsInForce(s, Charge, at, chargeW, accepted, "outputLimit", 0);
    AskedIsInForce(s, Charge, at, chargeW, accepted, "inputLimit",
                   if limit.Some? && limit.value > 0.0 then Round(limit.value) else chargeW);
    forall k | k !in {"smartMode", "acMode", "outputLimit", "inputLimit"}
      ensures Same(s.props, Commanded(s, Charge, at, chargeW, accepted).state.props, k)
    {
      OthersStay(s, Charge, at, chargeW, accepted, k);
    }
    CommandOutcome(s, Charge, at, chargeW, accepted);
    hide Commanded, Number, Round, Same;
    assert (events + [Command(Charge, at, accepted)])[..|events|] == events;
  }

  /** A hold that succeeds: smartMode 1, outputLimit 0, and all other properties, acMode
      and inputLimit among them, as before. */
  lemma {:induction false} HoldInForce(events: seq<Event>, at: int, accepted: bool, chargeW: int)
    requires Succeeds(Run(events, chargeW), Command(Hold, at, accepted), chargeW)
    ensures var before, after := Run(events, chargeW), Run(events + [Command(Hold, at, accepted)], chargeW);
      && after.mode == Hold && after.lastCmd == at
      && Number(after.props, "smartMode") == Some(1.0)
      && Number(after.props, "outputLimit") == Some(0.0)
      && (forall k :: k !in {"smartMode", "outputLimit"} ==> Same(before.props, after.props, k))
  {
    var s := Run(events, chargeW);
    AskedIsInForce(s, Hold, at, chargeW, accepted, "smartMode", 1);
    AskedIsInForce(s, Hold, at, chargeW, accepted, "outputLimit", 0);
    forall k | k !in {"smartMode", "outputLimit"}
      ensures Same(s.props, Commanded(s, Hold, at, chargeW, accepted).state.props, k)
    {
      OthersStay(s, Hold, at, chargeW, accepted, k);
    }
    CommandOutcome(s, Hold, at, chargeW, accepted);
    hide Commanded, Number, Same;
    assert (events + [Command(Hold, at, accepted)])[..|events|] == events;
  }

  /** When a command fails, and what it leaves then: a hold or charge before any report,
      which is not even sent, and a write the unit refuses. Properties and mode stay, and
      only a first refused attempt saves. The time is that of the command in every case. */
  lemma {:induction false} CommandOutcome(s: State, mode: Mode, at: int, chargeW: int, accepted: bool)
    ensures var o := Commanded(s, mode, at, chargeW, accepted);
      && o.state.lastCmd == at
      && (o.error == Some(NoReport) <==> mode != Normal && s.props == map[])
      && (o.error == Some(NoReport) ==> o.write.None? && o.state.saved == s.saved)
      && (o.error == Some(WriteFailed) <==> o.write.Some? && !accepted)
      && (o.error.Some? ==> o.state.props == s.props && o.state.mode == s.mode)
      && (o.error.Some? && (mode == Normal || s.saved.Some?) ==> o.state.saved == s.saved)
      && (o.error.None? ==> o.state.mode == mode)
  {
    hide DiffOf, Written, Target, SnapshotOf;
  }

  /** What a snapshot holds: these four properties where they are numbers, rounded. */
  lemma {:induction false} SnapshotSpelled(props: Props, key: string, n: int)
    ensures key in SnapshotOf(props) && SnapshotOf(props)[key] == n <==>
            && key in {"acMode", "inputLimit", "outputLimit", "smartMode"}
            && Number(props, key).Some? && n == Round(Number(props, key).value)
  {
    assert CONTROLLED[0] == "acMode" && CONTROLLED[1] == "inputLimit";
    assert CONTROLLED[2] == "outputLimit" && CONTROLLED[3] == "smartMode";
    hide Number, Round;
  }

  /** A unit nobody has heard of is in normal with nothing known or saved. */
  lemma {:induction false} NothingAtFirst(chargeW: int)
    ensures Run([], chargeW) == State(map[], Normal, None, 0)
  {
  }

  /** A report brings what it carries and leaves the rest as known; mode, saved settings
      and the time of the last command stay. */
  lemma {:induction false} ReportAdds(events: seq<Event>, report: Props, chargeW: int, key: string)
    ensures var before, after := Run(events, chargeW), Run(events + [Report(report)], chargeW);
      && (key in report ==> key in after.props && after.props[key] == report[key])
      && (key !in report ==> Same(before.props, after.props, key))
      && after.mode == before.mode && after.saved == before.saved && after.lastCmd == before.lastCmd
  {
    assert (events + [Report(report)])[..|events|] == events;
  }

  // ---------------------------------------------------------------- numbers and values

  /** A number as it is, a text as the number it reads as, and nothing else. */
  lemma {:induction false} NumberSpelled(props: Props, key: string, r: real)
    ensures Number(props, key) == Some(r) <==>
            && key in props
            && (props[key] == Num(r) || exists text :: props[key] == Text(text, Some(r)))
  {
    if key in props && props[key].Text? && props[key].reading == Some(r) {
      assert props[key] == Text(props[key].text, Some(r));
    }
  }

  /** The values of the profile: the battery's power is what the packs put out less what
      goes into them, positive while discharging; each value only when its inputs are
      there. */
  lemma {:induction false} DerivedSpelled(props: Props, v: Value)
    ensures v in Derive(props) <==>
            || (Number(props, "packInputPower").Some? && Number(props, "outputPackPower").Some?
                && v == Value("battery", "power",
                              Number(props, "packInputPower").value - Number(props, "outputPackPower").value))
            || (Number(props, "electricLevel").Some?
                && v == Value("battery", "soc", Number(props, "electricLevel").value))
            || (Number(props, "solarInputPower").Some?
                && v == Value("pv", "power", Number(props, "solarInputPower").value))
    ensures forall i, j :: 0 <= i < j < |Derive(props)| ==> Derive(props)[i] != Derive(props)[j]
  {
    hide Number;
  }

  // ------------------------------------------------------------------------ staleness

  /** How long a command keeps its mode alive: whatever the command came to, the unit is
      overdue from the timeout after it on, out of normal only; reports do not count. */
  lemma {:induction false} OverdueFrom(
      events: seq<Event>, command: Event, reports: seq<Event>, chargeW: int, now: int, timeout: int)
    requires command.Command? && forall i :: 0 <= i < |reports| ==> reports[i].Report?
    ensures var s := Run(events + [command] + reports, chargeW);
      && s.lastCmd == command.at
      && s.mode == Run(events + [command], chargeW).mode
      && (Stale(s, now, timeout) <==> (s.mode == Hold || s.mode == Charge) && now >= command.at + timeout)
  {
    var all := events + [command] + reports;
    if reports == [] {
      assert all == events + [command] && all[..|events|] == events;
      CommandOutcome(Run(events, chargeW), command.mode, command.at, chargeW, command.accepted);
      hide Commanded;
    } else {
      var n := |reports| - 1;
      assert all[..|all| - 1] == events + [command] + reports[..n] && all[|all| - 1] == reports[n];
      OverdueFrom(events, command, reports[..n], chargeW, now, timeout);
      hide Commanded;
    }
  }

  // ------------------------------------------------------------------------- rounding

  /** Halves go away from zero, and the sign does not matter otherwise. */
  lemma {:induction false} RoundsHalvesAway(n: int, r: real)
    requires n >= 0
    ensures Round(n as real + 0.5) == n + 1
    ensures Round(-(n as real) - 0.5) == -n - 1
    ensures Round(-r) == -Round(r)
    ensures n as real <= r < n as real + 0.5 ==> Round(r) == n
    ensures n as real + 0.5 <= r < n as real + 1.0 ==> Round(r) == n + 1
  {
    assert (n as real + 0.5 + 0.5).Floor == n + 1;
  }
}
