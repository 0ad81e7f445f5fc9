/** The pure half of the evcc profile (internal/evcc/evcc.go): what a battery
    mode asks of a unit, what is saved before it, and what has to be written. */
module Evcc {
  import opened Sequences
  import opened Numbers

  /** A property value as a report carries it: a number, a string together with
      the number ParseFloat reads in it, or anything else. */
  datatype Any = Num(value: real) | Text(text: string, reading: Option<real>) | Else

  type Props = map<string, Any>
  type Settings = map<string, int>

  const PACK_INPUT := "packInputPower"
  const OUTPUT_PACK := "outputPackPower"
  const LEVEL := "electricLevel"
  const SOLAR_INPUT := "solarInputPower"
  const CHARGE_LIMIT := "chargeMaxLimit"
  const AC_MODE := "acMode"
  const INPUT_LIMIT := "inputLimit"
  const OUTPUT_LIMIT := "outputLimit"
  const SMART_MODE := "smartMode"

  /** The properties a battery mode may write. */
  const CONTROLLED: seq<string> := [AC_MODE, INPUT_LIMIT, OUTPUT_LIMIT, SMART_MODE]

  datatype Mode = Normal | Hold | Charge

  function ToFloat(v: Any): Option<real> {
    match v
    case Num(value) => Some(value)
    case Text(_, reading) => reading
    case Else => None
  }

  function Number(props: Props, key: string): Option<real> {
    if key in props then ToFloat(props[key]) else None
  }

  /** The settings a mode asks for; `normal` has none of its own. */
  function Target(mode: Mode, props: Props, chargeW: int): Settings {
    match mode
    case Hold => map[SMART_MODE := 1, OUTPUT_LIMIT := 0]
    case Charge =>
      var limit := Number(props, CHARGE_LIMIT);
      map[SMART_MODE := 1, AC_MODE := 1, OUTPUT_LIMIT := 0,
          INPUT_LIMIT := if limit.Some? && limit.value > 0.0 then Round(limit.value) else chargeW]
    case Normal => map[]
  }

  /** The controlled properties as props reports them, rounded. */
  ghost function SnapshotOf(props: Props): Settings {
    map k | k in CONTROLLED && Number(props, k).Some? :: Round(Number(props, k).value)
  }

  method Snapshot(props: Props) returns (out: Settings)
    ensures out == SnapshotOf(props)
  {
    out := map[];
    for i := 0 to |CONTROLLED|
      invariant out == map k | k in CONTROLLED[..i] && Number(props, k).Some? :: Round(Number(props, k).value)
    {
      var k := CONTROLLED[i];
      var v := Number(props, k);
      assert CONTROLLED[..i + 1] == CONTROLLED[..i] + [k];
      if v.Some? {
        out := out[k := Round(v.value)];
      }
    }
  }

  /** The entry is there already, as the wanted number. */
  predicate Reports(props: Props, key: string, wanted: int) {
    Number(props, key) == Some(wanted as real)
  }

  /** The wanted entries that props does not report yet. */
  ghost function DiffOf(want: Settings, props: Props): Settings {
    map k | k in want && !Reports(props, k, want[k]) :: want[k]
  }

  /** Diff: nil when nothing differs. */
  method Diff(want: Settings, props: Props) returns (out: Option<Settings>)
    ensures out == if DiffOf(want, props) == map[] then None else Some(DiffOf(want, props))
  {
    out := None;
    var todo := want.Keys;
    while todo != {}
      invariant todo <= want.Keys
      invariant (if out.Some? then out.value else map[]) ==
                map k | k in want && k !in todo && !Reports(props, k, want[k]) :: want[k]
      invariant out.Some? ==> out.value != map[]
      decreases todo
    {
      var k :| k in todo;
      todo := todo - {k};
      if Reports(props, k, want[k]) {
        continue;
      }
      if out.None? {
        out := Some(map[]);
      }
      out := Some(out.value[k := want[k]]);
      assert k in out.value;
    }
    if out.Some? {
      assert out.value == DiffOf(want, props);
    }
  }

  /** A write, merged into what the unit reported. */
  function Written(props: Props, write: Settings): Props {
    props + map k | k in write :: Num(write[k] as real)
  }

  /** Writing the difference makes the unit agree with all that was wanted and
      leaves everything else alone; it holds exactly the entries that differed. */
  lemma {:induction false} DiffApplies(want: Settings, props: Props)
    ensures var after := Written(props, DiffOf(want, props));
      && (forall k :: k in want ==> Reports(after, k, want[k]))
      && (forall k :: k !in want ==> (k in after <==> k in props) && (k in props ==> after[k] == props[k]))
      && (forall k :: k in DiffOf(want, props) <==> k in want && Number(props, k) != Some(want[k] as real))
      && DiffOf(want, after) == map[]
  {
  }

  datatype Value = Value(role: string, key: string, value: real)

  /** The profile values present: each only when all its inputs are. */
  function Derive(props: Props): seq<Value> {
    var discharge, charge := Number(props, PACK_INPUT), Number(props, OUTPUT_PACK);
    var level, solar := Number(props, LEVEL), Number(props, SOLAR_INPUT);
    (if discharge.Some? && charge.Some? then [Value("battery", "power", discharge.value - charge.value)] else [])
    + (if level.Some? then [Value("battery", "soc", level.value)] else [])
    + (if solar.Some? then [Value("pv", "power", solar.value)] else [])
  }

  /** A write of controlled properties moves neither the derived values nor what
      a mode asks for. */
  lemma {:induction false} ControlledWritesAreInvisible(props: Props, write: Settings, mode: Mode, chargeW: int)
    requires forall k :: k in write ==> k in CONTROLLED
    ensures Derive(Written(props, write)) == Derive(props)
    ensures Target(mode, Written(props, write), chargeW) == Target(mode, props, chargeW)
  {
    forall k | k in {PACK_INPUT, OUTPUT_PACK, LEVEL, SOLAR_INPUT, CHARGE_LIMIT}
      ensures Number(Written(props, write), k) == Number(props, k)
    {
      assert k !in CONTROLLED;
    }
  }
}
