/**
 * The few Python string operations the oversampling rules are written in:
 * `partition` and `rpartition` on a one-character separator, `split`,
 * `str(n)` for a natural number and `float(s)` restricted to plain decimals.
 */
module PyStr {
  import opened Wrappers

  /** The triple returned by `str.partition` / `str.rpartition`; `found` says whether the separator occurred. */
  datatype Parts = Parts(before: string, found: bool, after: string)

  /** Index of the first occurrence of `c` in `s`. */
  function IndexOf(s: string, c: char): (r: Option<nat>)
    ensures r.Some? ==> r.value < |s| && s[r.value] == c && c !in s[..r.value]
    ensures r.None? ==> c !in s
  {
    if s == [] then None
    else if s[0] == c then Some(0)
    else
      match IndexOf(s[1..], c)
      case None => None
      case Some(i) =>
        assert s[..i + 1] == [s[0]] + s[1..][..i];
        Some(i + 1)
  }

  /** Index of the last occurrence of `c` in `s`. */
  function LastIndexOf(s: string, c: char): (r: Option<nat>)
    ensures r.Some? ==> r.value < |s| && s[r.value] == c && c !in s[r.value + 1..]
    ensures r.None? ==> c !in s
  {
    if s == [] then None
    else if s[|s| - 1] == c then Some(|s| - 1)
    else
      var r := LastIndexOf(s[..|s| - 1], c);
      if r.Some? then
        assert s[r.value + 1..] == s[..|s| - 1][r.value + 1..] + [s[|s| - 1]];
        r
      else
        assert s == s[..|s| - 1] + [s[|s| - 1]];
        r
  }

  /** `s.partition(c)`: splits at the first `c`. */
  function Partition(s: string, c: char): (p: Parts)
    ensures p.found ==> s == p.before + [c] + p.after && c !in p.before
    ensures !p.found ==> p.before == s && p.after == [] && c !in s
  {
    match IndexOf(s, c)
    case Some(i) =>
      assert s == s[..i] + [c] + s[i + 1..];
      Parts(s[..i], true, s[i + 1..])
    case None => Parts(s, false, [])
  }

  /** `s.rpartition(c)`: splits at the last `c`; with no `c` everything lands in `after`. */
  function RPartition(s: string, c: char): (p: Parts)
    ensures p.found ==> s == p.before + [c] + p.after && c !in p.after
    ensures !p.found ==> p.before == [] && p.after == s && c !in s
  {
    match LastIndexOf(s, c)
    case Some(i) =>
      assert s == s[..i] + [c] + s[i + 1..];
      Parts(s[..i], true, s[i + 1..])
    case None => Parts([], false, s)
  }

  /** `c.join(parts)`. */
  function Join(parts: seq<string>, c: char): string
    requires |parts| >= 1
  {
    if |parts| == 1 then parts[0] else parts[0] + [c] + Join(parts[1..], c)
  }

  /** `s.split(c)`: the pieces between the separators, never an empty list. */
  function Split(s: string, c: char): (r: seq<string>)
    ensures |r| >= 1
    ensures Join(r, c) == s
    ensures forall i :: 0 <= i < |r| ==> c !in r[i]
    decreases |s|
  {
    var p := Partition(s, c);
    if !p.found then [s] else [p.before] + Split(p.after, c)
  }

  predicate IsDigit(ch: char)
  {
    '0' <= ch <= '9'
  }

  predicate AllDigits(s: string)
  {
    forall i :: 0 <= i < |s| ==> IsDigit(s[i])
  }

  function DigitChar(d: nat): (ch: char)
    requires d < 10
    ensures IsDigit(ch) && ch as int - '0' as int == d
  {
    ('0' as int + d) as char
  }

  /** The number a string of decimal digits denotes ("" denotes 0). */
  function DigitsValue(s: string): nat
    requires AllDigits(s)
  {
    if s == [] then 0 else DigitsValue(s[..|s| - 1]) * 10 + (s[|s| - 1] as int - '0' as int)
  }

  /** The value of the digits `s` written after a decimal point: s / 10^|s|. */
  function FractionValue(s: string): (r: real)
    requires AllDigits(s)
    ensures 0.0 <= r
  {
    DigitsValue(s) as real / Pow10(|s|) as real
  }

  /** `str(n)` for a natural number: its decimal digits, no leading zero. */
  function NatToString(n: nat): (s: string)
    ensures |s| >= 1 && AllDigits(s)
    ensures DigitsValue(s) == n
    ensures |s| > 1 ==> s[0] != '0'
  {
    if n < 10 then [DigitChar(n)]
    else
      var prefix := NatToString(n / 10);
      var s := prefix + [DigitChar(n % 10)];
      assert s[..|s| - 1] == prefix;
      s
  }

  function Pow10(k: nat): (r: nat)
    ensures r >= 1
  {
    if k == 0 then 1 else 10 * Pow10(k - 1)
  }

  /**
   * The shape of the tokens accepted below: non-empty, not a lone point, made of
   * digits and at most one point.
   */
  predicate DecimalShape(t: string)
  {
    && |t| >= 1 && t != "."
    && (forall i :: 0 <= i < |t| ==> IsDigit(t[i]) || t[i] == '.')
    && multiset(t)['.'] <= 1
  }

  /**
   * `float(t)` for tokens of the form digits[.digits] (either side may be empty,
   * not both); anything else is rejected, as Python rejects it with ValueError.
   */
  function ParseDecimal(t: string): (r: Option<real>)
    ensures r.Some? <==> DecimalShape(t)
    ensures r.Some? ==> r.value >= 0.0
  {
    var p := Partition(t, '.');
    DecimalShapeParts(t);
    if !AllDigits(p.before) || !AllDigits(p.after) || (p.before == [] && p.after == []) then None
    else Some(DigitsValue(p.before) as real + FractionValue(p.after))
  }

  /** A token has the decimal shape exactly when the parts around its first point are digits, not both empty. */
  lemma DecimalShapeParts(t: string)
    ensures var p := Partition(t, '.');
            DecimalShape(t) <==> AllDigits(p.before) && AllDigits(p.after) && !(p.before == [] && p.after == [])
  {
    var p := Partition(t, '.');
    if p.found {
      if AllDigits(p.before) && AllDigits(p.after) && !(p.before == [] && p.after == []) {
        ShapeOfParts(p.before, p.after);
      }
      if DecimalShape(t) {
        PartsOfShape(p.before, p.after);
      }
    } else {
      assert multiset(t)['.'] == 0;
    }
  }

  lemma ShapeOfParts(x: string, y: string)
    requires AllDigits(x) && AllDigits(y) && !(x == [] && y == [])
    ensures DecimalShape(x + ['.'] + y)
  {
    var t := x + ['.'] + y;
    DigitsHaveNoPoint(x);
    DigitsHaveNoPoint(y);
    assert multiset(t) == multiset(x) + multiset(['.']) + multiset(y);
    forall i | 0 <= i < |t| ensures IsDigit(t[i]) || t[i] == '.' {
      if i < |x| { assert t[i] == x[i]; }
      else if i > |x| { assert t[i] == y[i - |x| - 1]; }
    }
  }

  lemma PartsOfShape(x: string, y: string)
    requires '.' !in x && DecimalShape(x + ['.'] + y)
    ensures AllDigits(x) && AllDigits(y) && !(x == [] && y == [])
  {
    var t := x + ['.'] + y;
    assert multiset(t) == multiset(x) + multiset(['.']) + multiset(y);
    assert multiset(y)['.'] == 0;
    forall i | 0 <= i < |x| ensures IsDigit(x[i]) {
      assert t[i] == x[i];
    }
    forall i | 0 <= i < |y| ensures IsDigit(y[i]) {
      assert t[|x| + 1 + i] == y[i];
      assert y[i] in multiset(y);
    }
    assert x == [] && y == [] ==> t == ".";
  }

  /** A run of digits holds no point. */
  lemma DigitsHaveNoPoint(a: string)
    requires AllDigits(a)
    ensures '.' !in a
  {
    forall i | 0 <= i < |a| ensures a[i] != '.' {
      assert IsDigit(a[i]);
    }
  }

  /** `partition` cuts at the separator that has none before it. */
  lemma PartitionAt(x: string, c: char, y: string)
    requires c !in x
    ensures Partition(x + [c] + y, c) == Parts(x, true, y)
  {
    var s := x + [c] + y;
    assert s[|x|] == c;
    var i := IndexOf(s, c).value;
    if i != |x| {
      assert false;
    }
    assert s[..|x|] == x && s[|x| + 1..] == y;
  }

  /** A run of digits parses to the number it denotes. */
  lemma ParseDigits(a: string)
    requires |a| >= 1 && AllDigits(a)
    ensures ParseDecimal(a) == Some(DigitsValue(a) as real)
  {
    DigitsHaveNoPoint(a);
    ParseParts(a, a, false, []);
    assert FractionValue([]) == 0.0;
  }

  /** `a.b` with digit runs `a` and `b`, not both empty, parses to a + b / 10^|b|. */
  lemma ParseDigitsPoint(a: string, b: string)
    requires AllDigits(a) && AllDigits(b) && (a != [] || b != [])
    ensures ParseDecimal(a + ['.'] + b) == Some(DigitsValue(a) as real + FractionValue(b))
  {
    DigitsHaveNoPoint(a);
    PartitionAt(a, '.', b);
    ParseParts(a + ['.'] + b, a, true, b);
  }

  /** A token split at its first point (if any) into digit runs `a` and `b` parses to a + b / 10^|b|. */
  lemma ParseParts(t: string, a: string, found: bool, b: string)
    requires Partition(t, '.') == Parts(a, found, b)
    requires AllDigits(a) && AllDigits(b) && (a != [] || b != [])
    ensures ParseDecimal(t) == Some(DigitsValue(a) as real + FractionValue(b))
  {
  }

  /** `float(str(n)) == n`: a number written out by `str` parses back to itself. */
  lemma {:induction false} ParseNatToString(n: nat)
    ensures ParseDecimal(NatToString(n)) == Some(n as real)
  {
    ParseDigits(NatToString(n));
  }

  /** `str` is injective on natural numbers. */
  lemma NatToStringInjective(a: nat, b: nat)
    requires a != b
    ensures NatToString(a) != NatToString(b)
  {
  }
}
