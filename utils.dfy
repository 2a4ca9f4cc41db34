// com.ungseong.logcenter.util.Utils: the date-format pattern built from a
// set of FLAG_ bits, the pattern table picked by a format id, and the
// hyphenation of phone numbers. The platform's 24-hour setting is a
// parameter; building a SimpleDateFormat from the pattern is not modelled.

module LogUtils {
  import opened JavaBase

  const FLAG_MILLIS: int := 1
  const FLAG_SECOND: int := 2
  const FLAG_MINUTE: int := 4
  const FLAG_HOUR: int := 8
  const FLAG_W_DATE: int := 16
  const FLAG_DATE: int := 32
  const FLAG_MONTH: int := 64
  const FLAG_YEAR: int := 128

  /** The pattern fragment of each flag bit; "||" separates the alternative. */
  const DATE_FORMAT_FLAG: seq<string> := [
    " SSS밀리초" + "||" + "SSS초",
    " ss초" + "||" + " ss.",
    " mm분",
    " a h시" + "||" + " HH시",
    " (E)",
    " d일",
    " M월",
    " YYYY년"
  ]

  /** Per format id: the 12-hour pattern, then the 24-hour one. */
  const FORMAT_DATE: seq<seq<string>> := [
    ["a h시 mm분", "HH시 mm분"],
    ["a h시 mm분 ss초", "HH시 mm분 ss초"],
    ["d일 a h시 mm분", "d일 HH시 mm분"],
    ["M월 d일", "M월 d일"],
    ["M월 d일 (E)", "M월 d일 (E)"],
    ["M월 d일 a h시 mm분", "M월 d일 HH시 mm분"],
    ["M월 d일 (E) a h시 mm분", "M월 d일 (E) HH시 mm분"]
  ]

  const ID_FORMAT_H_M: int := 0
  const ID_FORMAT_H_M_S: int := 1
  const ID_FORMAT_D_H_M: int := 2
  const ID_FORMAT_M_D: int := 3
  const ID_FORMAT_M_D_E: int := 4
  const ID_FORMAT_M_D_H_N: int := 5
  const ID_FORMAT_M_D_E_H_N: int := 6

  // ---------------------------------------------------------------------
  // String.split("\\|\\|")

  /** The pieces between the "||" separators, empty ones included. */
  function Pieces(s: string): (r: seq<string>)
    ensures |r| >= 1
    decreases |s|
  {
    if |s| < 2 then [s]
    else if s[0] == '|' && s[1] == '|' then [""] + Pieces(s[2..])
    else
      var p := Pieces(s[1..]);
      [[s[0]] + p[0]] + p[1..]
  }

  /** split drops the empty pieces at the end. */
  function DropTrailingEmpty(pieces: seq<string>): (r: seq<string>)
    ensures |r| <= |pieces| && r == pieces[..|r|]
    ensures r != [] ==> r[|r| - 1] != ""
    ensures forall i :: |r| <= i < |pieces| ==> pieces[i] == ""
  {
    if pieces == [] || pieces[|pieces| - 1] != "" then pieces
    else DropTrailingEmpty(pieces[..|pieces| - 1])
  }

  /**
   * split("\\|\\|"): the pieces between "||" separators, without the empty
   * pieces at the end. The empty string has no separator, so it comes back
   * as itself, one empty piece.
   */
  function Split(s: string): seq<string>
  {
    if s == "" then [""] else DropTrailingEmpty(Pieces(s))
  }

  lemma {:induction false} PiecesNoBar(a: string)
    requires '|' !in a
    ensures Pieces(a) == [a]
    decreases |a|
  {
    if |a| >= 2 {
      assert a[0] != '|';
      PiecesNoBar(a[1..]);
      assert [a[0]] + a[1..] == a;
    }
  }

  lemma {:induction false} PiecesJoin(a: string, b: string)
    requires '|' !in a
    ensures Pieces(a + "||" + b) == [a] + Pieces(b)
    decreases |a|
  {
    var s := a + "||" + b;
    if a == [] {
      assert s[2..] == b;
    } else {
      assert a[0] != '|';
      assert s[1..] == a[1..] + "||" + b;
      PiecesJoin(a[1..], b);
      assert [a[0]] + a[1..] == a;
    }
  }

  /** Splitting "a||b" on "||" gives a and b back when neither holds a bar. */
  lemma SplitJoin(a: string, b: string)
    requires '|' !in a && '|' !in b && b != ""
    ensures Split(a + "||" + b) == [a, b]
  {
    PiecesJoin(a, b);
    PiecesNoBar(b);
  }

  // ---------------------------------------------------------------------
  // formatFlags

  function Pow2(i: nat): (p: nat)
    ensures p >= 1
  {
    if i == 0 then 1 else 2 * Pow2(i - 1)
  }

  /**
   * Bit i of flags in two's complement. For i < 8, (flags & 1 << i) > 0
   * holds exactly when it is set, whatever the sign of flags.
   */
  predicate Bit(flags: int, i: nat)
    decreases i
  {
    if i == 0 then flags % 2 == 1 else Bit(flags / 2, i - 1)
  }

  /** The fragment bit i contributes. */
  function Fragment(i: nat, isDecimalSecond: bool, is24Hour: bool): string
    requires i < |DATE_FORMAT_FLAG|
  {
    if (isDecimalSecond && i < 2) || (is24Hour && i == 3) then
      FragmentFacts();
      Split(DATE_FORMAT_FLAG[i])[1]
    else DATE_FORMAT_FLAG[i]
  }

  /** The alternatives behind "||" in the entries of bits 0, 1 and 3. */
  lemma FragmentFacts()
    ensures Split(DATE_FORMAT_FLAG[0]) == [" SSS밀리초", "SSS초"]
    ensures Split(DATE_FORMAT_FLAG[1]) == [" ss초", " ss."]
    ensures Split(DATE_FORMAT_FLAG[3]) == [" a h시", " HH시"]
  {
    SplitJoin(" SSS밀리초", "SSS초");
    SplitJoin(" ss초", " ss.");
    SplitJoin(" a h시", " HH시");
  }

  /** (flags & 0b11) == 0b11 */
  predicate IsDecimalSecond(flags: int)
  {
    Bit(flags, 0) && Bit(flags, 1)
  }

  /**
   * The pattern after the loop has seen bits 0 .. n-1: each set bit puts
   * its fragment in front of what came before, so higher bits come first.
   */
  function FlagsFormat(is24Hour: bool, flags: int, n: nat): string
    requires n <= |DATE_FORMAT_FLAG|
  {
    if n == 0 then ""
    else
      (if Bit(flags, n - 1) then Fragment(n - 1, IsDecimalSecond(flags), is24Hour) else "") +
      FlagsFormat(is24Hour, flags, n - 1)
  }

  /** formatFlags: the pattern for the set bits, the highest first. */
  method FormatFlags(is24Hour: bool, flags: int) returns (format: string)
    ensures format == FlagsFormat(is24Hour, flags, |DATE_FORMAT_FLAG|)
  {
    var isDecimalSecond := Bit(flags, 0) && Bit(flags, 1);
    FragmentFacts();
    format := "";
    var i := 0;
    while i < |DATE_FORMAT_FLAG|
      invariant 0 <= i <= |DATE_FORMAT_FLAG|
      invariant format == FlagsFormat(is24Hour, flags, i)
    {
      if Bit(flags, i) {
        if isDecimalSecond && i < 2 {
          var singleFormat := Split(DATE_FORMAT_FLAG[i])[1];
          format := singleFormat + format;
        } else if is24Hour && i == 3 {
          var singleFormat := Split(DATE_FORMAT_FLAG[i])[1];
          format := singleFormat + format;
        } else {
          format := DATE_FORMAT_FLAG[i] + format;
        }
      }
      i := i + 1;
    }
  }

  /** Adding a multiple of 2^j leaves the bits below j alone. */
  lemma {:induction false} BitShift(x: int, m: int, i: nat, j: nat)
    requires i < j
    ensures Bit(x + Pow2(j) * m, i) == Bit(x, i)
    decreases i
  {
    var q := Pow2(j - 1) * m;
    assert Pow2(j) * m == 2 * q;
    if i > 0 {
      assert (x + 2 * q) / 2 == x / 2 + q;
      BitShift(x / 2, m, i - 1, j - 1);
    }
  }

  /** The pattern depends on the low eight bits only. */
  lemma {:induction false} SameLowBits(is24Hour: bool, flags: int, other: int, n: nat)
    requires n <= |DATE_FORMAT_FLAG|
    requires forall i :: 0 <= i < |DATE_FORMAT_FLAG| ==> Bit(other, i) == Bit(flags, i)
    ensures FlagsFormat(is24Hour, other, n) == FlagsFormat(is24Hour, flags, n)
    decreases n
  {
    if n > 0 {
      assert IsDecimalSecond(other) == IsDecimalSecond(flags);
      SameLowBits(is24Hour, flags, other, n - 1);
    }
  }

  /** The bits above the eighth do not change the pattern. */
  lemma FormatIgnoresHighBits(is24Hour: bool, flags: int, m: int)
    ensures FlagsFormat(is24Hour, flags + 256 * m, 8) == FlagsFormat(is24Hour, flags, 8)
  {
    assert Pow2(8) == 256;
    forall i | 0 <= i < |DATE_FORMAT_FLAG|
      ensures Bit(flags + 256 * m, i) == Bit(flags, i)
    {
      BitShift(flags, m, i, 8);
    }
    SameLowBits(is24Hour, flags, flags + 256 * m, 8);
  }

  /** Every fragment comes from its table entry or the alternative behind "||". */
  lemma FragmentChoice(i: nat, isDecimalSecond: bool, is24Hour: bool)
    requires i < |DATE_FORMAT_FLAG|
    ensures var f := Fragment(i, isDecimalSecond, is24Hour);
      f != DATE_FORMAT_FLAG[i] ==>
        |Split(DATE_FORMAT_FLAG[i])| == 2 && DATE_FORMAT_FLAG[i] == Split(DATE_FORMAT_FLAG[i])[0] + "||" + f
    ensures Fragment(i, isDecimalSecond, is24Hour) != DATE_FORMAT_FLAG[i] <==>
      (isDecimalSecond && i < 2) || (is24Hour && i == 3)
  {
    FragmentFacts();
  }

  /** Bit j of 2^i is set exactly when j == i. */
  lemma {:induction false} BitOfPow2(i: nat, j: nat)
    ensures Bit(Pow2(i), j) <==> i == j
    decreases j
  {
    if j > 0 {
      if i == 0 {
        BitOfZero(j - 1);
      } else {
        assert Pow2(i) / 2 == Pow2(i - 1);
        BitOfPow2(i - 1, j - 1);
      }
    }
  }

  lemma {:induction false} BitOfZero(j: nat)
    ensures !Bit(0, j)
    decreases j
  {
    if j > 0 {
      BitOfZero(j - 1);
    }
  }

  lemma {:induction false} SingleFlagUpTo(is24Hour: bool, i: nat, n: nat)
    requires i < |DATE_FORMAT_FLAG| && n <= |DATE_FORMAT_FLAG|
    ensures FlagsFormat(is24Hour, Pow2(i), n) == if i < n then Fragment(i, false, is24Hour) else ""
    decreases n
  {
    if n > 0 {
      BitOfPow2(i, n - 1);
      BitOfPow2(i, 0);
      BitOfPow2(i, 1);
      assert !IsDecimalSecond(Pow2(i));
      SingleFlagUpTo(is24Hour, i, n - 1);
    }
  }

  /**
   * One flag alone gives its own table entry, except FLAG_HOUR in 24-hour
   * mode, which gives the 24-hour alternative.
   */
  lemma SingleFlag(is24Hour: bool, i: nat)
    requires i < |DATE_FORMAT_FLAG|
    ensures FlagsFormat(is24Hour, Pow2(i), 8) ==
      if is24Hour && i == 3 then " HH시" else DATE_FORMAT_FLAG[i]
  {
    SingleFlagUpTo(is24Hour, i, 8);
    FragmentFacts();
  }

  /** Bits m .. n-1 all clear: the loop adds nothing over them. */
  lemma {:induction false} ClearBits(is24Hour: bool, flags: int, m: nat, n: nat)
    requires m <= n <= |DATE_FORMAT_FLAG|
    requires forall j :: m <= j < n ==> !Bit(flags, j)
    ensures FlagsFormat(is24Hour, flags, n) == FlagsFormat(is24Hour, flags, m)
    decreases n
  {
    if m < n {
      ClearBits(is24Hour, flags, m, n - 1);
      assert "" + FlagsFormat(is24Hour, flags, n - 1) == FlagsFormat(is24Hour, flags, n - 1);
    }
  }

  /** FLAG_SECOND | FLAG_MILLIS gives seconds with their decimal part. */
  lemma DecimalSeconds(is24Hour: bool)
    ensures FlagsFormat(is24Hour, FLAG_SECOND + FLAG_MILLIS, 8) == " ss." + "SSS초"
  {
    FragmentFacts();
    assert Bit(3, 0) && Bit(3, 1);
    forall j | 2 <= j < 8
      ensures !Bit(3, j)
    {
      assert Bit(3, j) == Bit(0, j - 2);
      BitOfZero(j - 2);
    }
    ClearBits(is24Hour, 3, 2, 8);
    assert FlagsFormat(is24Hour, 3, 1) == "SSS초" + "";
    assert FlagsFormat(is24Hour, 3, 2) == " ss." + FlagsFormat(is24Hour, 3, 1);
  }

  // ---------------------------------------------------------------------
  // dateFormatSelector

  /**
   * dateFormatSelector: the 24-hour pattern only with a context in 24-hour
   * mode; None for an id outside the table (ArrayIndexOutOfBoundsException).
   */
  function DateFormatSelector(hasContext: bool, is24Hour: bool, formatId: int): (r: Option<string>)
    ensures r.Some? <==> 0 <= formatId < |FORMAT_DATE|
    ensures r.Some? ==> r.value in FORMAT_DATE[formatId]
  {
    if 0 <= formatId < |FORMAT_DATE| then
      var key := if hasContext && is24Hour then 1 else 0;
      Some(FORMAT_DATE[formatId][key])
    else None
  }

  /**
   * The 24-hour column is picked exactly when there is a context in 24-hour
   * mode, and it differs from the 12-hour one exactly for the patterns that
   * show the time of day.
   */
  lemma SelectorColumn(hasContext: bool, is24Hour: bool, formatId: int)
    requires 0 <= formatId < |FORMAT_DATE|
    ensures DateFormatSelector(hasContext, is24Hour, formatId) == Some(FORMAT_DATE[formatId][1]) <==>
      (hasContext && is24Hour) || formatId == ID_FORMAT_M_D || formatId == ID_FORMAT_M_D_E
    ensures DateFormatSelector(hasContext, is24Hour, formatId) == Some(FORMAT_DATE[formatId][0]) <==>
      !(hasContext && is24Hour) || formatId == ID_FORMAT_M_D || formatId == ID_FORMAT_M_D_E
  {
    TableColumns(formatId);
  }

  lemma TableColumns(formatId: int)
    requires 0 <= formatId < |FORMAT_DATE|
    ensures FORMAT_DATE[formatId][0] == FORMAT_DATE[formatId][1] <==>
      formatId == ID_FORMAT_M_D || formatId == ID_FORMAT_M_D_E
  {
    var row := FORMAT_DATE[formatId];
    if formatId == 0 || formatId == 1 {
      assert row[0][0] != row[1][0];
    } else if formatId == 2 {
      assert row[0][3] != row[1][3];
    } else if formatId == 5 {
      assert row[0][6] != row[1][6];
    } else if formatId == 6 {
      assert row[0][10] != row[1][10];
    }
  }

  // ---------------------------------------------------------------------
  // formatPhoneNumber

  /** How many hyphens formatPhoneNumber puts into a number of length n. */
  function HyphensAdded(n: nat): nat
  {
    if n <= 3 || n > 12 then 0 else if n <= 7 then 1 else 2
  }

  /**
   * formatPhoneNumber: a hyphen after the first three characters, and for
   * 8 to 12 characters a second one, before the last four characters, or
   * after the seventh character for 12. formatId is not used.
   */
  function FormatPhoneNumber(phoneNumber: string, formatId: int): (r: string)
    ensures |r| == |phoneNumber| + HyphensAdded(|phoneNumber|)
  {
    var length := |phoneNumber|;
    if length <= 3 || length > 12 then phoneNumber
    else if length <= 7 then phoneNumber[..3] + "-" + phoneNumber[3..]
    else if length == 12 then phoneNumber[..3] + "-" + phoneNumber[3..7] + "-" + phoneNumber[7..]
    else phoneNumber[..3] + "-" + phoneNumber[3..length - 4] + "-" + phoneNumber[length - 4..]
  }

  /** Where the hyphens go, and that every other character stays in place. */
  lemma PhoneShape(phoneNumber: string, formatId: int)
    ensures var r := FormatPhoneNumber(phoneNumber, formatId);
      |r| == |phoneNumber| + HyphensAdded(|phoneNumber|) &&
      (HyphensAdded(|phoneNumber|) == 0 ==> r == phoneNumber) &&
      (HyphensAdded(|phoneNumber|) > 0 ==> r[..3] == phoneNumber[..3] && r[3] == '-') &&
      (4 <= |phoneNumber| <= 7 ==> r[4..] == phoneNumber[3..]) &&
      (8 <= |phoneNumber| <= 11 ==>
        r[4..|r| - 5] == phoneNumber[3..|phoneNumber| - 4] && r[|r| - 5] == '-' &&
        r[|r| - 4..] == phoneNumber[|phoneNumber| - 4..]) &&
      (|phoneNumber| == 12 ==> r[4..8] == phoneNumber[3..7] && r[8] == '-' && r[9..] == phoneNumber[7..])
  {
  }

  /** The characters of s other than '-'. */
  function RemoveHyphens(s: string): string
  {
    if s == [] then []
    else (if s[0] == '-' then [] else [s[0]]) + RemoveHyphens(s[1..])
  }

  lemma {:induction false} RemoveHyphensConcat(a: string, b: string)
    ensures RemoveHyphens(a + b) == RemoveHyphens(a) + RemoveHyphens(b)
    decreases |a|
  {
    if a != [] {
      assert (a + b)[1..] == a[1..] + b;
      RemoveHyphensConcat(a[1..], b);
    } else {
      assert a + b == b;
    }
  }

  lemma {:induction false} RemoveHyphensNone(s: string)
    requires '-' !in s
    ensures RemoveHyphens(s) == s
    decreases |s|
  {
    if s != [] {
      RemoveHyphensNone(s[1..]);
      assert [s[0]] + s[1..] == s;
    }
  }

  lemma DropInsertedHyphen(a: string, b: string)
    ensures RemoveHyphens(a + "-" + b) == RemoveHyphens(a + b)
  {
    HyphenRemoved();
    RemoveHyphensConcat(a + "-", b);
    RemoveHyphensConcat(a, "-");
    RemoveHyphensConcat(a, b);
  }

  lemma HyphenRemoved()
    ensures RemoveHyphens("-") == []
  {
    assert "-"[1..] == [];
  }

  /**
   * formatPhoneNumber only inserts hyphens: dropping every hyphen gives the
   * same as dropping them from the input, and so the input itself when it
   * had none.
   */
  lemma PhoneRoundTrip(phoneNumber: string, formatId: int)
    ensures RemoveHyphens(FormatPhoneNumber(phoneNumber, formatId)) == RemoveHyphens(phoneNumber)
    ensures '-' !in phoneNumber ==> RemoveHyphens(FormatPhoneNumber(phoneNumber, formatId)) == phoneNumber
  {
    var n := |phoneNumber|;
    if 4 <= n <= 7 {
      OneHyphen(phoneNumber, formatId);
    } else if 8 <= n <= 12 {
      TwoHyphens(phoneNumber, formatId);
    }
    if '-' !in phoneNumber {
      RemoveHyphensNone(phoneNumber);
    }
  }

  lemma OneHyphen(p: string, formatId: int)
    requires 4 <= |p| <= 7
    ensures RemoveHyphens(FormatPhoneNumber(p, formatId)) == RemoveHyphens(p)
  {
    var a, b := p[..3], p[3..];
    assert FormatPhoneNumber(p, formatId) == a + "-" + b;
    DropInsertedHyphen(a, b);
    assert a + b == p;
  }

  lemma TwoHyphens(p: string, formatId: int)
    requires 8 <= |p| <= 12
    ensures RemoveHyphens(FormatPhoneNumber(p, formatId)) == RemoveHyphens(p)
  {
    var k := if |p| == 12 then 7 else |p| - 4;
    var a, b, c := p[..3], p[3..k], p[k..];
    assert FormatPhoneNumber(p, formatId) == a + "-" + b + "-" + c;
    SliceSplit(p, 3, k);
    SplitAtThree(p);
    DropTwoHyphens(a, b, c);
  }

  lemma SplitAtThree(p: string)
    requires |p| >= 3
    ensures p[..3] + p[3..] == p
  {
  }

  lemma DropTwoHyphens(a: string, b: string, c: string)
    ensures RemoveHyphens(a + "-" + b + "-" + c) == RemoveHyphens(a + (b + c))
  {
    DropInsertedHyphen(a + "-" + b, c);
    DropInsertedHyphen(a, b + c);
    assert a + "-" + b + c == a + "-" + (b + c);
  }

  lemma SliceSplit(s: string, i: nat, j: nat)
    requires i <= j <= |s|
    ensures s[i..j] + s[j..] == s[i..]
  {
  }
}
