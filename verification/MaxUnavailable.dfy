/**
 Resolving a policy's maxUnavailable, an integer or a string, to a number of nodes.
 */
module MaxUnavailable {
  import opened Conditions

  // IntVal is 32 bits wide.
  datatype IntOrString = Int(value: int) | Str(text: string)

  const INT32_MAX: int := 0x7fff_ffff
  const INT64_MAX: int := 0x7fff_ffff_ffff_ffff

  // ---------- strconv.Atoi ----------

  predicate IsDigit(c: char) {
    '0' <= c <= '9'
  }

  predicate IsDecimal(s: string) {
    s != [] && forall i | 0 <= i < |s| :: IsDigit(s[i])
  }

  function DigitOf(c: char): (d: nat)
    requires IsDigit(c)
    ensures d <= 9 && (d == 0 <==> c == '0')
  {
    c as int - '0' as int
  }

  function Value(s: string): (v: nat)
    requires forall i | 0 <= i < |s| :: IsDigit(s[i])
  {
    if s == [] then 0 else 10 * Value(s[..|s| - 1]) + DigitOf(s[|s| - 1])
  }

  function Atoi(s: string): Option<int> {
    var signed := s != [] && (s[0] == '-' || s[0] == '+');
    var digits := if signed then s[1..] else s;
    if !IsDecimal(digits) then None
    else
      var v: int := if signed && s[0] == '-' then 0 - Value(digits) else Value(digits);
      if -INT64_MAX - 1 <= v <= INT64_MAX then Some(v) else None
  }

  // The conversion to 32 bits keeps the low bits.
  function ToInt32(v: int): (r: int)
    ensures -INT32_MAX - 1 <= r <= INT32_MAX
    ensures -INT32_MAX - 1 <= v <= INT32_MAX ==> r == v
    ensures (v - r) % 0x1_0000_0000 == 0
  {
    (v + 0x8000_0000) % 0x1_0000_0000 - 0x8000_0000
  }

  // ---------- scaling ----------

  function CeilDiv(a: int, b: int): (q: int)
    requires b > 0
    ensures (q - 1) * b < a <= q * b
  {
    CeilBounds(a, b);
    -((-a) / b)
  }

  lemma CeilBounds(a: int, b: int)
    requires b > 0
    ensures var q := -((-a) / b); (q - 1) * b < a <= q * b
  {
    var d := (-a) / b;
    assert -a == d * b + (-a) % b;
    assert (-d - 1) * b == -(d * b) - b && (-d) * b == -(d * b);
  }

  predicate EndsWithPercent(s: string) {
    s != [] && s[|s| - 1] == '%'
  }

  // GetScaledValueFromIntOrPercent, rounding up; None is its error.
  function ScaledValue(x: IntOrString, total: nat): Option<int> {
    match x
    case Int(v) => Some(v)
    case Str(s) =>
      if !EndsWithPercent(s) then None
      else
        var v := Atoi(s[..|s| - 1]);
        if v.None? then None else Some(CeilDiv(v.value * total, 100))
  }

  function ScaledDefault(matchingNodes: nat): int {
    CeilDiv(50 * matchingNodes, 100)
  }

  datatype Error = NoError | InvalidMaxUnavailable | NotScalable

  // The number of nodes and the error, both of which callers look at.
  function ScaledMaxUnavailable(matchingNodes: nat, x: IntOrString): (r: (int, Error)) {
    if x.Str? && !EndsWithPercent(x.text) then
      var v := Atoi(x.text);
      if v.None? then (ScaledDefault(matchingNodes), InvalidMaxUnavailable)
      else AtLeastOne(matchingNodes, Int(ToInt32(v.value)))
    else AtLeastOne(matchingNodes, x)
  }

  function AtLeastOne(matchingNodes: nat, x: IntOrString): (r: (int, Error)) {
    var m := ScaledValue(x, matchingNodes);
    if m.None? then (ScaledDefault(matchingNodes), NotScalable)
    else if matchingNodes > 0 && m.value < 1 then (m.value, InvalidMaxUnavailable)
    else (m.value, NoError)
  }

  // ---------- what the CRD admits ----------

  // [1-9][0-9]*
  predicate IsPositiveDecimal(s: string) {
    IsDecimal(s) && s[0] != '0'
  }

  // ([1-9]|[1-9][0-9]|100)%
  predicate IsPercent(s: string) {
    EndsWithPercent(s)
    && var p := s[..|s| - 1];
       (|p| == 1 && '1' <= p[0] <= '9') || (|p| == 2 && '1' <= p[0] <= '9' && IsDigit(p[1])) || p == "100"
  }

  predicate Admitted(x: IntOrString) {
    match x
    case Int(v) => 0 < v <= INT32_MAX
    case Str(s) => IsPositiveDecimal(s) || IsPercent(s)
  }

  lemma {:induction false} PositiveDecimalIsPositive(s: string)
    requires IsPositiveDecimal(s)
    ensures Value(s) >= 1
    decreases |s|
  {
    if |s| > 1 {
      assert s[..|s| - 1][0] == s[0];
      PositiveDecimalIsPositive(s[..|s| - 1]);
    } else {
      assert s[..0] == [];
    }
  }

  lemma PercentValue(s: string)
    requires IsPercent(s)
    ensures var p := s[..|s| - 1];
            IsDecimal(p) && p[0] != '-' && p[0] != '+' && 1 <= Value(p) <= 100 && Atoi(p) == Some(Value(p))
  {
    var p := s[..|s| - 1];
    assert p[..0] == [];
    assert Value(p[..0]) == 0;
    if |p| >= 2 {
      assert p[..1][..0] == [];
      assert Value(p[..1]) == DigitOf(p[0]);
    }
    if p == "100" {
      assert p[..2] == "10" && p[..2][..1] == p[..1];
      assert Value(p[..2]) == 10;
    }
  }

  /**
   With nodes to match, every admitted value resolves without error to at least one node --
   except that a bare number beyond 32 bits is first cut down to 32 bits.
   */
  lemma AdmittedResolves(n: nat, x: IntOrString)
    requires n > 0 && Admitted(x)
    ensures x.Int? || IsPercent(x.text) ==>
              ScaledMaxUnavailable(n, x).1 == NoError && ScaledMaxUnavailable(n, x).0 >= 1
    ensures x.Str? && IsPositiveDecimal(x.text) ==>
              var k := Value(x.text);
              (ScaledMaxUnavailable(n, x) == ScaledMaxUnavailable(n, Int(k)) <==> k <= INT32_MAX)
    ensures x.Str? && IsPositiveDecimal(x.text) ==>
              var k := Value(x.text);
              (ScaledMaxUnavailable(n, x).1 == NoError <==> k <= INT64_MAX && ToInt32(k) >= 1)
  {
    if x.Int? {
    } else if IsPercent(x.text) {
      PercentValue(x.text);
      PercentResolves(n, x.text);
      assert !IsPositiveDecimal(x.text) by { assert x.text[|x.text| - 1] == '%'; }
    } else {
      PositiveDecimalIsPositive(x.text);
      BareNumberResolves(n, x.text);
      assert !IsPercent(x.text) by { assert IsDigit(x.text[|x.text| - 1]); }
    }
  }

  lemma PercentResolves(n: nat, s: string)
    requires n > 0 && IsPercent(s)
    ensures var p := Value(s[..|s| - 1]);
            && ScaledMaxUnavailable(n, Str(s)) == (CeilDiv(p * n, 100), NoError)
            && 1 <= CeilDiv(p * n, 100) <= n
  {
    PercentValue(s);
    ShareBounds(Value(s[..|s| - 1]), n);
  }

  lemma ShareBounds(p: nat, n: nat)
    requires 1 <= p <= 100 && n > 0
    ensures 1 <= CeilDiv(p * n, 100) <= n
  {
    var x := p * n;
    assert 1 <= x <= 100 * n by {
      MulMonotone(1, p, n);
      MulMonotone(p, 100, n);
    }
    var q := CeilDiv(x, 100);
    assert (q - 1) * 100 < x <= q * 100;
  }

  lemma MulMonotone(a: nat, b: nat, c: nat)
    requires a <= b
    ensures a * c <= b * c
  {
  }

  // A larger share, or more nodes, never resolves to fewer.
  lemma PercentMonotone(n: nat, n': nat, s: string, s': string)
    requires 0 < n <= n' && IsPercent(s) && IsPercent(s') && Value(s[..|s| - 1]) <= Value(s'[..|s'| - 1])
    ensures ScaledMaxUnavailable(n, Str(s)).0 <= ScaledMaxUnavailable(n', Str(s')).0
  {
    PercentResolves(n, s);
    PercentResolves(n', s');
    ShareMonotone(Value(s[..|s| - 1]), Value(s'[..|s'| - 1]), n, n');
  }

  lemma ShareMonotone(p: nat, p': nat, n: nat, n': nat)
    requires p <= p' && n <= n'
    ensures CeilDiv(p * n, 100) <= CeilDiv(p' * n', 100)
  {
    MulMonotone(p, p', n);
    MulMonotone(n, n', p');
    CeilMonotone(p * n, p' * n');
  }

  lemma CeilMonotone(a: int, a': int)
    requires a <= a'
    ensures CeilDiv(a, 100) <= CeilDiv(a', 100)
  {
  }

  // A string that is no number falls back to half the nodes, rounded up, and still reports an error.
  lemma NoNumberMeansHalf(n: nat, s: string)
    requires if EndsWithPercent(s) then Atoi(s[..|s| - 1]).None? else Atoi(s).None?
    ensures var r := ScaledMaxUnavailable(n, Str(s));
            && (2 * r.0 == n || 2 * r.0 == n + 1)
            && r.1 == if EndsWithPercent(s) then NotScalable else InvalidMaxUnavailable
  {
    var q := ScaledDefault(n);
    assert (q - 1) * 100 < 50 * n <= q * 100;
  }

  // A value below one is handed on as it is, and is an error exactly if there are nodes to match.
  lemma BelowOneIsInvalid(n: nat, v: int)
    requires -INT32_MAX - 1 <= v < 1
    ensures ScaledMaxUnavailable(n, Int(v)) == (v, if n > 0 then InvalidMaxUnavailable else NoError)
  {
  }

  // "0%" and every negative percentage are refused when there are nodes to match.
  lemma NoShareIsInvalid(n: nat, s: string)
    requires n > 0 && EndsWithPercent(s) && Atoi(s[..|s| - 1]).Some? && Atoi(s[..|s| - 1]).value <= 0
    ensures var r := ScaledMaxUnavailable(n, Str(s)); r.0 <= 0 && r.1 == InvalidMaxUnavailable
  {
    var v := Atoi(s[..|s| - 1]).value;
    assert v * n <= 0;
    var q := CeilDiv(v * n, 100);
    assert (q - 1) * 100 < v * n;
  }

  // ---------- numbers written out ----------

  function DigitChar(d: nat): (c: char)
    requires d <= 9
    ensures IsDigit(c) && DigitOf(c) == d
  {
    '0' + d as char
  }

  function Itoa(k: nat): (s: string)
    ensures IsDecimal(s)
  {
    if k < 10 then [DigitChar(k)] else Itoa(k / 10) + [DigitChar(k % 10)]
  }

  lemma ValueSnoc(s: string, c: char)
    requires (forall i | 0 <= i < |s| :: IsDigit(s[i])) && IsDigit(c)
    ensures Value(s + [c]) == 10 * Value(s) + DigitOf(c)
  {
    assert (s + [c])[..|s|] == s;
  }

  lemma {:induction false} ValueOfItoa(k: nat)
    ensures Value(Itoa(k)) == k
    ensures k > 0 ==> Itoa(k)[0] != '0'
    decreases k
  {
    if k < 10 {
      ValueSnoc([], DigitChar(k));
      assert [] + [DigitChar(k)] == [DigitChar(k)];
    } else {
      ValueOfItoa(k / 10);
      ValueSnoc(Itoa(k / 10), DigitChar(k % 10));
    }
  }

  // Reading a number back, with or without a sign.
  lemma AtoiReadsBack(k: nat)
    requires k <= INT64_MAX
    ensures Atoi(Itoa(k)) == Some(k) && Atoi("+" + Itoa(k)) == Some(k)
    ensures Atoi("-" + Itoa(k)).Some? && Atoi("-" + Itoa(k)).value + k == 0
  {
    ValueOfItoa(k);
    assert IsDigit(Itoa(k)[0]);
    assert ("+" + Itoa(k))[1..] == Itoa(k) && ("-" + Itoa(k))[1..] == Itoa(k);
  }

  lemma BareNumberResolves(n: nat, s: string)
    requires n > 0 && IsPositiveDecimal(s)
    ensures ScaledMaxUnavailable(n, Str(s)) ==
            if Value(s) > INT64_MAX then (ScaledDefault(n), InvalidMaxUnavailable)
            else AtLeastOne(n, Int(ToInt32(Value(s))))
  {
    assert IsDigit(s[|s| - 1]) && IsDigit(s[0]);
  }

  // The string "k" means k nodes exactly up to 2^31-1; "2147483648" is admitted and then refused.
  lemma BareNumberMeansItself(n: nat, k: nat)
    requires n > 0 && k > 0
    ensures Admitted(Str(Itoa(k)))
    ensures ScaledMaxUnavailable(n, Str(Itoa(k))) == (k, NoError) <==> k <= INT32_MAX
    ensures k == 2147483648 ==> ScaledMaxUnavailable(n, Str(Itoa(k))).1 == InvalidMaxUnavailable
  {
    ValueOfItoa(k);
    BareNumberResolves(n, Itoa(k));
    assert ToInt32(k) == k ==> k <= INT32_MAX;
  }
}
