/** Rounding, and decimal integers as strconv reads and writes them. */
module Numbers {
  import opened Sequences

  /** math.Round: half away from zero. */
  function Round(r: real): int {
    if r >= 0.0 then (r + 0.5).Floor else -(-r + 0.5).Floor
  }

  predicate Integral(r: real) {
    r.Floor as real == r
  }

  lemma {:induction false} RoundOfInt(n: int)
    ensures Round(n as real) == n
  {
    if n >= 0 {
      assert (n as real + 0.5).Floor == n;
    } else {
      assert (-(n as real) + 0.5).Floor == -n;
    }
  }

  /** Rounding changes nothing exactly when there is nothing to round. */
  lemma {:induction false} RoundExact(r: real)
    ensures Round(r) as real == r <==> Integral(r)
  {
    if Integral(r) {
      RoundOfInt(r.Floor);
    }
  }

  lemma RoundMonotone(r: real, s: real)
    requires r <= s
    ensures Round(r) <= Round(s)
  {
  }

  /** Rounding goes to the nearest integer. */
  lemma RoundNear(r: real)
    ensures -0.5 <= Round(r) as real - r <= 0.5
  {
  }

  const MIN_INT64 := -0x8000_0000_0000_0000
  const MAX_INT64 := 0x7fff_ffff_ffff_ffff
  const MIN_INT32 := -0x8000_0000
  const MAX_INT32 := 0x7fff_ffff

  // ------------------------------------------------------------ decimal integers

  function DigitChar(d: nat): char
    requires d < 10
  {
    ['0', '1', '2', '3', '4', '5', '6', '7', '8', '9'][d]
  }

  function DigitValue(c: char): Option<nat> {
    if '0' <= c <= '9' then Some((c as int - '0' as int) as nat) else None
  }

  function Digits(n: nat): string {
    if n < 10 then [DigitChar(n)] else Digits(n / 10) + [DigitChar(n % 10)]
  }

  /** strconv.Itoa. */
  function Itoa(n: int): string {
    if n < 0 then "-" + Digits(-n) else Digits(n)
  }

  /** The number a non-empty string of digits spells. */
  function Magnitude(s: string): Option<nat> {
    if s == "" then None
    else
      var d := DigitValue(s[|s| - 1]);
      if d == None then None
      else if |s| == 1 then d
      else
        var front := Magnitude(s[..|s| - 1]);
        if front == None then None else Some(front.value * 10 + d.value)
  }

  /** strconv.Atoi: an optional sign, digits, within 64 bits. */
  function Atoi(s: string): (r: Option<int>)
    ensures r.Some? ==> MIN_INT64 <= r.value <= MAX_INT64
  {
    var signed := s != "" && (s[0] == '-' || s[0] == '+');
    var m := Magnitude(if signed then s[1..] else s);
    if m == None then None
    else
      var n := Signed(signed && s[0] == '-', m.value);
      if MIN_INT64 <= n <= MAX_INT64 then Some(n) else None
  }

  function Signed(negative: bool, n: int): int {
    if negative then -n else n
  }

  lemma {:induction false} MagnitudeOfDigits(n: nat)
    ensures Magnitude(Digits(n)) == Some(n)
    ensures Digits(n) != "" && '0' <= Digits(n)[0] <= '9'
  {
    if n >= 10 {
      MagnitudeOfDigits(n / 10);
      assert Digits(n)[..|Digits(n)| - 1] == Digits(n / 10);
    }
  }

  lemma {:induction false} AtoiSigned(s: string, negative: bool)
    requires s != "" && s[0] != '-' && s[0] != '+' && Magnitude(s).Some?
    requires MIN_INT64 <= Signed(negative, Magnitude(s).value) <= MAX_INT64
    ensures Atoi(if negative then "-" + s else s) == Some(Signed(negative, Magnitude(s).value))
  {
    hide Magnitude;
    assert ("-" + s)[1..] == s;
  }

  /** What Itoa writes, Atoi reads. */
  lemma {:induction false} AtoiOfItoa(n: int)
    requires MIN_INT64 <= n <= MAX_INT64
    ensures Atoi(Itoa(n)) == Some(n)
  {
    MagnitudeOfDigits(if n < 0 then -n else n);
    hide Magnitude, Digits;
    AtoiSigned(Digits(if n < 0 then -n else n), n < 0);
    hide Atoi;
  }
}
