// Java platform behaviour that the preference and log code relies on:
// Integer.parseInt / Long.parseLong, Integer.toString, 32-bit arithmetic,
// LinkedHashMap insertion order and String.compareTo.

module JavaBase {

  datatype Option<T> = None | Some(value: T)

  const INT_MIN: int := -0x8000_0000
  const INT_MAX: int := 0x7fff_ffff
  const LONG_MIN: int := -0x8000_0000_0000_0000
  const LONG_MAX: int := 0x7fff_ffff_ffff_ffff

  predicate IsInt32(x: int) { INT_MIN <= x <= INT_MAX }
  predicate IsInt64(x: int) { LONG_MIN <= x <= LONG_MAX }

  /** Two's complement wrap-around of a Java `int` expression. */
  function Wrap32(x: int): (r: int)
    ensures IsInt32(r)
    ensures (r - x) % 0x1_0000_0000 == 0
    ensures IsInt32(x) ==> r == x
  {
    var m := x % 0x1_0000_0000;
    if m <= INT_MAX then m else m - 0x1_0000_0000
  }

  /** Java's `/` by a positive divisor: the quotient rounds toward zero. */
  function DivTrunc(a: int, b: int): (q: int)
    requires b > 0
    ensures a >= 0 ==> 0 <= a - q * b < b
    ensures a < 0 ==> -b < a - q * b <= 0
  {
    if a >= 0 then a / b else -((-a) / b)
  }

  /** The clamp both versions of SeekBar.setProgress apply: above max gives max, below min gives min. */
  function Clamp(v: int, min: int, max: int): (r: int)
    ensures r == v || r == min || r == max
    ensures min <= max ==> min <= r <= max
    ensures min <= v <= max ==> r == v
  {
    if v > max then max else if v < min then min else v
  }

  // ---------------------------------------------------------------------
  // Decimal text

  predicate IsDigit(c: char) { '0' <= c <= '9' }

  predicate AllDigits(s: string) { forall i :: 0 <= i < |s| ==> IsDigit(s[i]) }

  function DigitValue(c: char): (d: nat)
    requires IsDigit(c)
    ensures d < 10
  {
    (c as int - '0' as int) as nat
  }

  function DigitChar(d: nat): (c: char)
    requires d < 10
    ensures IsDigit(c) && DigitValue(c) == d
  {
    ('0' as int + d) as char
  }

  /** The value of a string of decimal digits, most significant first. */
  function DigitsValue(s: string): nat
    requires AllDigits(s)
  {
    if |s| == 0 then 0 else DigitsValue(s[..|s| - 1]) * 10 + DigitValue(s[|s| - 1])
  }

  /** The shortest decimal spelling of a natural number. */
  function NatToDigits(n: nat): (s: string)
    ensures |s| >= 1 && AllDigits(s)
    ensures |s| > 1 ==> s[0] != '0'
  {
    if n < 10 then [DigitChar(n)] else NatToDigits(n / 10) + [DigitChar(n % 10)]
  }

  /** Integer.toString / Long.toString, also what `n + ""` yields. */
  function ToDecimal(n: int): (s: string)
    ensures |s| >= 1
    ensures n >= 0 <==> s[0] != '-'
  {
    if n >= 0 then NatToDigits(n) else "-" + NatToDigits(-n)
  }

  /**
   * Integer.parseInt (lo, hi = int range) and Long.parseLong (long range):
   * an optional '+' or '-', then one or more decimal digits, the value
   * within [lo, hi]; anything else raises NumberFormatException (None).
   */
  function ParseDecimal(s: string, lo: int, hi: int): (r: Option<int>)
    ensures r.Some? ==> lo <= r.value <= hi
    ensures |s| == 0 ==> r.None?
  {
    if |s| == 0 then None
    else
      var negative := s[0] == '-';
      var body := if s[0] == '-' || s[0] == '+' then s[1..] else s;
      if |body| == 0 || !AllDigits(body) then None
      else
        var d: int := DigitsValue(body);
        var v := if negative then -d else d;
        if lo <= v <= hi then Some(v) else None
  }

  function ParseInt(s: string): (r: Option<int>)
    ensures r.Some? ==> IsInt32(r.value)
  {
    ParseDecimal(s, INT_MIN, INT_MAX)
  }

  function ParseLong(s: string): (r: Option<int>)
    ensures r.Some? ==> IsInt64(r.value)
  {
    ParseDecimal(s, LONG_MIN, LONG_MAX)
  }

  lemma {:induction false} DigitsRoundTrip(n: nat)
    ensures DigitsValue(NatToDigits(n)) == n
    decreases n
  {
    if n >= 10 {
      var s := NatToDigits(n);
      assert s[..|s| - 1] == NatToDigits(n / 10);
      DigitsRoundTrip(n / 10);
    }
  }

  /** Parsing what toString printed gives the number back. */
  lemma ParseToDecimal(n: int, lo: int, hi: int)
    requires lo <= n <= hi
    ensures ParseDecimal(ToDecimal(n), lo, hi) == Some(n)
  {
    if n >= 0 {
      DigitsRoundTrip(n);
    } else {
      DigitsRoundTrip(-n);
      assert ToDecimal(n)[1..] == NatToDigits(-n);
    }
  }

  lemma ParseIntToDecimal(n: int)
    requires IsInt32(n)
    ensures ParseInt(ToDecimal(n)) == Some(n)
  {
    ParseToDecimal(n, INT_MIN, INT_MAX);
  }

  lemma ParseLongToDecimal(n: int)
    requires IsInt64(n)
    ensures ParseLong(ToDecimal(n)) == Some(n)
  {
    ParseToDecimal(n, LONG_MIN, LONG_MAX);
  }

  /** Distinct numbers print differently. */
  lemma ToDecimalInjective(a: int, b: int)
    requires ToDecimal(a) == ToDecimal(b)
    ensures a == b
  {
    var lo := if a < b then a else b;
    var hi := if a < b then b else a;
    ParseToDecimal(a, lo, hi);
    ParseToDecimal(b, lo, hi);
  }

  /** A printed number is all decimal digits, except a leading '-' for a negative one. */
  lemma ToDecimalChars(n: int, i: int)
    requires 0 <= i < |ToDecimal(n)|
    ensures IsDigit(ToDecimal(n)[i]) || (i == 0 && ToDecimal(n)[i] == '-')
  {
  }

  // ---------------------------------------------------------------------
  // LinkedHashMap: insertion-ordered map; re-inserting a key overwrites its
  // value and keeps its original position.

  datatype LinkedMap<K(!new), V> = LinkedMap(order: seq<K>, entries: map<K, V>)
  {
    ghost predicate Valid()
    {
      (forall i :: 0 <= i < |order| ==> order[i] in entries) &&
      (forall k :: k in entries ==> k in order) &&
      (forall i, j :: 0 <= i < j < |order| ==> order[i] != order[j])
    }

    function Size(): nat { |order| }

    /** The values in iteration (first insertion) order. */
    function Values(): (vs: seq<V>)
      requires Valid()
      ensures |vs| == |order| && forall i :: 0 <= i < |order| ==> vs[i] == entries[order[i]]
    {
      seq(|order|, i requires 0 <= i < |order| && order[i] in entries => entries[order[i]])
    }

    function Put(k: K, v: V): (m: LinkedMap<K, V>)
      ensures m.entries == entries[k := v]
      ensures m.order == if k in entries then order else order + [k]
      ensures Valid() ==> m.Valid()
    {
      if k in entries then LinkedMap(order, entries[k := v])
      else LinkedMap(order + [k], entries[k := v])
    }
  }

  function EmptyLinkedMap<K(!new), V>(): (m: LinkedMap<K, V>)
    ensures m.Valid() && m.Size() == 0
  {
    LinkedMap([], map[])
  }

  // ---------------------------------------------------------------------
  // String.compareTo: lexicographic on characters, a proper prefix first.

  predicate StrLess(a: string, b: string)
  {
    if |a| == 0 then |b| > 0
    else if |b| == 0 then false
    else if a[0] == b[0] then StrLess(a[1..], b[1..])
    else a[0] < b[0]
  }

  lemma {:induction false} StrLessIrreflexive(a: string)
    ensures !StrLess(a, a)
    decreases |a|
  {
    if |a| > 0 {
      StrLessIrreflexive(a[1..]);
    }
  }

  lemma {:induction false} StrLessTransitive(a: string, b: string, c: string)
    requires StrLess(a, b) && StrLess(b, c)
    ensures StrLess(a, c)
    decreases |a|
  {
    if |a| > 0 && a[0] == b[0] && b[0] == c[0] {
      StrLessTransitive(a[1..], b[1..], c[1..]);
    }
  }

  lemma {:induction false} StrLessTotal(a: string, b: string)
    ensures a == b || StrLess(a, b) || StrLess(b, a)
    decreases |a|
  {
    if |a| > 0 && |b| > 0 && a[0] == b[0] {
      StrLessTotal(a[1..], b[1..]);
      if a[1..] == b[1..] {
        assert a == [a[0]] + a[1..] && b == [b[0]] + b[1..];
      }
    }
  }

  lemma StrLessAsymmetric(a: string, b: string)
    requires StrLess(a, b)
    ensures !StrLess(b, a)
  {
    if StrLess(b, a) {
      StrLessTransitive(a, b, a);
      StrLessIrreflexive(a);
    }
  }
}
