// com.longseong.logcenter.LogCenter: a folder of log files, one file per
// posted log, pruned to the newest names before each post and read back in
// name order.

module LogCenter {
  import opened JavaBase

  const TAG_TIME: string := "caused time: "
  const MAX_LOG_FILES: int := 100

  /** LogCenter.Log: when a log was posted and its text. */
  datatype Log = Log(milliSecond: int, logString: string)

  /** One call of LogPostedListener.onLogPosted, made on the listener registered as listener. */
  datatype Notification = Notification(listener: nat, postedIndex: int)

  // ---------------------------------------------------------------------
  // The sorted listing: Arrays.sort over the files of one folder orders them
  // by name (String.compareTo).

  predicate Sorted(names: seq<string>)
  {
    forall i, j :: 0 <= i < j < |names| ==> StrLess(names[i], names[j])
  }

  predicate IsLeast(s: set<string>, m: string)
  {
    m in s && forall y :: y in s ==> !StrLess(y, m)
  }

  lemma StrLessTotalAll()
    ensures forall a, b :: a == b || StrLess(a, b) || StrLess(b, a)
  {
    forall a, b
      ensures a == b || StrLess(a, b) || StrLess(b, a)
    {
      StrLessTotal(a, b);
    }
  }

  lemma {:induction false} LeastExists(s: set<string>)
    requires s != {}
    ensures exists m :: IsLeast(s, m)
    decreases |s|
  {
    var x :| x in s;
    if s - {x} == {} {
      assert s == {x};
      StrLessIrreflexive(x);
      assert IsLeast(s, x);
    } else {
      LeastExists(s - {x});
      var m :| IsLeast(s - {x}, m);
      if StrLess(x, m) {
        forall y | y in s
          ensures !StrLess(y, x)
        {
          if y == x {
            StrLessIrreflexive(x);
          } else if StrLess(y, x) {
            StrLessTransitive(y, x, m);
          }
        }
        assert IsLeast(s, x);
      } else {
        assert IsLeast(s, m);
      }
    }
  }

  lemma LeastUnique(s: set<string>)
    ensures forall a, b :: IsLeast(s, a) && IsLeast(s, b) ==> a == b
  {
    StrLessTotalAll();
  }

  /** The names of a folder, as listFiles followed by Arrays.sort orders them. */
  function SortedNames(s: set<string>): (r: seq<string>)
    ensures Sorted(r) && |r| == |s|
    ensures forall y :: y in r <==> y in s
    decreases |s|
  {
    if s == {} then []
    else
      LeastExists(s);
      LeastUnique(s);
      StrLessTotalAll();
      var m :| IsLeast(s, m);
      var rest := SortedNames(s - {m});
      SortedCons(s, m, rest);
      [m] + rest
  }

  /** The least name followed by a sorted listing of the others is sorted. */
  lemma SortedCons(s: set<string>, m: string, rest: seq<string>)
    requires IsLeast(s, m) && Sorted(rest)
    requires forall y :: y in rest <==> y in s - {m}
    ensures Sorted([m] + rest)
  {
    forall j | 0 <= j < |rest|
      ensures StrLess(m, rest[j])
    {
      assert rest[j] in s - {m};
      StrLessTotal(m, rest[j]);
    }
    var r := [m] + rest;
    forall i, j | 0 <= i < j < |r|
      ensures StrLess(r[i], r[j])
    {
      if i > 0 {
        assert r[i] == rest[i - 1] && r[j] == rest[j - 1];
      } else {
        assert r[j] == rest[j - 1];
      }
    }
  }

  // ---------------------------------------------------------------------
  // Pruning

  /** How many files maintenanceLogFiles deletes from a folder of n files. */
  function RemovedCount(n: nat): (c: nat)
    ensures c <= n
    ensures n < MAX_LOG_FILES ==> c == 0
    ensures n >= MAX_LOG_FILES ==> n - c == MAX_LOG_FILES - 1
  {
    if n < MAX_LOG_FILES then 0 else n - (MAX_LOG_FILES - 1)
  }

  /**
   * The files maintenanceLogFiles keeps: all of them below 100, else the 99
   * with the greatest names; a kept file's content is untouched and every
   * deleted name sorts before every kept one.
   */
  function Retained(files: map<string, string>): (r: map<string, string>)
    ensures forall k :: k in r ==> k in files && r[k] == files[k]
    ensures |r| == if |files| < MAX_LOG_FILES then |files| else MAX_LOG_FILES - 1
    ensures forall d, k :: d in files && d !in r && k in r ==> StrLess(d, k)
  {
    var names := SortedNames(files.Keys);
    var c := RemovedCount(|files|);
    RetainedFacts(files, names, c, Without(files, names[..c]));
    Without(files, names[..c])
  }

  /** The folder after deleting the given names. */
  function Without(files: map<string, string>, gone: seq<string>): map<string, string>
  {
    map k | k in files && k !in gone :: files[k]
  }

  lemma WithoutSnoc(files: map<string, string>, gone: seq<string>, x: string)
    ensures Without(files, gone + [x]) == Without(files, gone) - {x}
  {
  }

  lemma RetainedFacts(files: map<string, string>, names: seq<string>, c: nat, r: map<string, string>)
    requires names == SortedNames(files.Keys) && c == RemovedCount(|files|)
    requires r == Without(files, names[..c])
    ensures |r| == |files| - c
    ensures forall d, k :: d in files && d !in r && k in r ==> StrLess(d, k)
  {
    RetainedCount(files, names, c, r);
    RetainedOrder(files, names, c, r);
  }

  lemma {:induction false} RetainedCount(files: map<string, string>, names: seq<string>, c: nat, r: map<string, string>)
    requires Sorted(names) && c <= |names| && forall y :: y in names <==> y in files
    requires r == Without(files, names[..c])
    ensures |r| == |files| - c
    decreases c
  {
    if c == 0 {
      WithoutNothing(files, names[..c]);
    } else {
      assert names[c - 1] in names;
      SortedFresh(names, c - 1);
      RetainedCount(files, names, c - 1, Without(files, names[..c - 1]));
      WithoutOneMore(files, names, c);
    }
  }

  lemma WithoutNothing(files: map<string, string>, gone: seq<string>)
    requires gone == []
    ensures Without(files, gone) == files
  {
  }

  /** Deleting one more present file leaves one file fewer. */
  lemma WithoutOneMore(files: map<string, string>, names: seq<string>, c: nat)
    requires 0 < c <= |names| && names[c - 1] in files && names[c - 1] !in names[..c - 1]
    ensures |Without(files, names[..c])| == |Without(files, names[..c - 1])| - 1
  {
    assert names[..c] == names[..c - 1] + [names[c - 1]];
    WithoutSnoc(files, names[..c - 1], names[c - 1]);
    MapRemoveCount(Without(files, names[..c - 1]), names[c - 1]);
  }

  /** A sorted listing does not repeat a name. */
  lemma SortedFresh(names: seq<string>, c: nat)
    requires Sorted(names) && c < |names|
    ensures names[c] !in names[..c]
  {
    if names[c] in names[..c] {
      var i :| 0 <= i < c && names[..c][i] == names[c];
      assert StrLess(names[i], names[c]);
      StrLessIrreflexive(names[c]);
    }
  }

  lemma MapRemoveCount(m: map<string, string>, x: string)
    requires x in m
    ensures |m - {x}| == |m| - 1
  {
    assert (m - {x}).Keys == m.Keys - {x};
  }

  lemma RetainedOrder(files: map<string, string>, names: seq<string>, c: nat, r: map<string, string>)
    requires Sorted(names) && c <= |names| && forall y :: y in names <==> y in files
    requires r == Without(files, names[..c])
    ensures forall d, k :: d in files && d !in r && k in r ==> StrLess(d, k)
  {
    forall d, k | d in files && d !in r && k in r
      ensures StrLess(d, k)
    {
      var a :| 0 <= a < c && names[a] == d;
      var b :| 0 <= b < |names| && names[b] == k;
    }
  }

  // ---------------------------------------------------------------------
  // File names

  /** time.log for i = 0, time_i.log after it. */
  function LogName(time: int, i: nat): string
  {
    ToDecimal(time) + NameSuffix(i)
  }

  function NameSuffix(i: nat): string
  {
    (if i > 0 then "_" + ToDecimal(i) else "") + ".log"
  }

  lemma NameSuffixInjective(i: nat, j: nat)
    requires NameSuffix(i) == NameSuffix(j)
    ensures i == j
  {
    if i > 0 && j > 0 {
      var di, dj := ToDecimal(i), ToDecimal(j);
      assert di + ".log" == NameSuffix(i)[1..] == NameSuffix(j)[1..] == dj + ".log";
      if |di| < |dj| {
        ToDecimalChars(j, |di|);
      } else if |dj| < |di| {
        ToDecimalChars(i, |dj|);
      } else {
        assert di == (di + ".log")[..|di|] == (dj + ".log")[..|dj|] == dj;
        ToDecimalInjective(i, j);
      }
    }
  }

  lemma LogNameInjective(time: int, i: nat, j: nat)
    requires LogName(time, i) == LogName(time, j)
    ensures i == j
  {
    var p := ToDecimal(time);
    assert NameSuffix(i) == LogName(time, i)[|p|..] == LogName(time, j)[|p|..] == NameSuffix(j);
    NameSuffixInjective(i, j);
  }

  /** The first n names for time. */
  function Names(time: int, n: nat): set<string>
  {
    set j | 0 <= j < n :: LogName(time, j)
  }

  lemma NamesSnoc(time: int, n: nat)
    requires n > 0
    ensures Names(time, n) == Names(time, n - 1) + {LogName(time, n - 1)}
  {
  }

  /** The n-th name is none of the first n. */
  lemma NameFresh(time: int, n: nat)
    ensures LogName(time, n) !in Names(time, n)
  {
    if LogName(time, n) in Names(time, n) {
      var j :| 0 <= j < n && LogName(time, j) == LogName(time, n);
      LogNameInjective(time, j, n);
    }
  }

  /** The first n names are n different names. */
  lemma {:induction false} NamesCount(time: int, n: nat)
    ensures |Names(time, n)| == n
    decreases n
  {
    if n > 0 {
      NamesCount(time, n - 1);
      NamesSnoc(time, n);
      NameFresh(time, n - 1);
    }
  }

  /** A folder holding the first n names has at least n files, so probing ends. */
  lemma TakenBound(files: map<string, string>, time: int, n: nat)
    requires forall j :: 0 <= j < n ==> LogName(time, j) in files
    ensures n <= |files|
  {
    var taken := Names(time, n);
    NamesCount(time, n);
    assert taken <= files.Keys;
    assert |files.Keys - taken| + |taken| == |files.Keys| == |files|;
  }

  /** i is the index postLog settles on: its name is free and every earlier one is taken. */
  predicate IsFirstFree(files: map<string, string>, time: int, i: nat)
  {
    LogName(time, i) !in files && forall j :: 0 <= j < i ==> LogName(time, j) in files
  }

  /** The probing settles on one index only. */
  lemma FirstFreeUnique(files: map<string, string>, time: int, i: nat, j: nat)
    requires IsFirstFree(files, time, i) && IsFirstFree(files, time, j)
    ensures i == j
  {
  }

  /** after is before with the log written under the first free name for time. */
  ghost predicate Posted(before: map<string, string>, after: map<string, string>, time: int, stamp: int, log: string)
  {
    exists i :: IsFirstFree(before, time, i) && after == before[LogName(time, i) := LogContent(stamp, log)]
  }

  // ---------------------------------------------------------------------
  // File contents

  predicate IsLineBreak(c: char)
  {
    c == '\n' || c == '\r'
  }

  /** A line as readLine returns it: no line break inside. */
  predicate NoLineBreak(line: string)
  {
    forall j :: 0 <= j < |line| ==> !IsLineBreak(line[j])
  }

  /** Where BufferedReader.readLine ends a line: the first '\n' or '\r', else the end. */
  function LineEnd(s: string): (k: nat)
    ensures k <= |s| && (k < |s| ==> IsLineBreak(s[k]))
    ensures forall j :: 0 <= j < k ==> !IsLineBreak(s[j])
  {
    if s == [] || IsLineBreak(s[0]) then 0 else 1 + LineEnd(s[1..])
  }

  /** The lines readLine returns one by one: a line ends at "\n", "\r" or "\r\n". */
  function ReadLines(s: string): seq<string>
    decreases |s|
  {
    if s == [] then []
    else
      var k := LineEnd(s);
      var next := if k == |s| then |s| else if s[k] == '\r' && k + 1 < |s| && s[k + 1] == '\n' then k + 2 else k + 1;
      [s[..k]] + ReadLines(s[next..])
  }

  /** Where a StringTokenizer token with delimiter "\n" ends. */
  function NewlineAt(s: string): (k: nat)
    ensures k <= |s| && (k < |s| ==> s[k] == '\n')
    ensures forall j :: 0 <= j < k ==> s[j] != '\n'
  {
    if s == [] || s[0] == '\n' then 0 else 1 + NewlineAt(s[1..])
  }

  /** The tokens of StringTokenizer(log, "\n"): the non-empty lines, in order. */
  function Tokens(s: string): (ts: seq<string>)
    ensures forall i :: 0 <= i < |ts| ==> ts[i] != [] && '\n' !in ts[i]
    ensures forall i, j :: 0 <= i < |ts| && 0 <= j < |ts[i]| ==> ts[i][j] in s
    decreases |s|
  {
    if s == [] then []
    else if s[0] == '\n' then Tokens(s[1..])
    else
      var k := NewlineAt(s);
      assert forall j :: 0 <= j < k ==> s[..k][j] == s[j];
      [s[..k]] + Tokens(s[k..])
  }

  /** Each line followed by "\n". */
  function JoinLines(lines: seq<string>): string
  {
    if lines == [] then "" else lines[0] + "\n" + JoinLines(lines[1..])
  }

  /** The first line of a log file. */
  function HeaderLine(stamp: int): string
  {
    TAG_TIME + ToDecimal(stamp)
  }

  /** What postLog writes: the header line, then every non-empty line of the log. */
  function LogContent(stamp: int, log: string): string
  {
    JoinLines([HeaderLine(stamp)] + Tokens(log))
  }

  /** String.replace(pat, ""): every occurrence of pat, scanning left to right, removed. */
  function RemoveAll(s: string, pat: string): string
    requires pat != []
    decreases |s|
  {
    if |s| < |pat| then s
    else if s[..|pat|] == pat then RemoveAll(s[|pat|..], pat)
    else [s[0]] + RemoveAll(s[1..], pat)
  }

  function TrimStart(s: string): string
  {
    if s != [] && s[0] <= ' ' then TrimStart(s[1..]) else s
  }

  function TrimEnd(s: string): string
  {
    if s != [] && s[|s| - 1] <= ' ' then TrimEnd(s[..|s| - 1]) else s
  }

  /** String.trim: the characters up to ' ' removed from both ends. */
  function Trim(s: string): string
  {
    TrimStart(TrimEnd(s))
  }

  /** Reading one file in getLogSet. */
  datatype ReadResult =
    | Read(log: Log)
    /** an empty file: readLine gives null and the NullPointerException ends the scan */
    | EndOfScan
    /** a header that is not a long: the NumberFormatException leaves getLogSet */
    | BadHeader

  /** The header's number with TAG_TIME removed, then the other lines joined and trimmed. */
  function ReadLog(content: string): ReadResult
  {
    var lines := ReadLines(content);
    if lines == [] then EndOfScan
    else
      var time := ParseLong(RemoveAll(lines[0], TAG_TIME));
      if time.None? then BadHeader else Read(Log(time.value, Trim(JoinLines(lines[1..]))))
  }

  lemma LineEndAt(t: string, rest: string)
    requires NoLineBreak(t)
    ensures LineEnd(t + "\n" + rest) == |t|
  {
    var s := t + "\n" + rest;
    assert forall j :: 0 <= j < |t| ==> s[j] == t[j];
    assert s[|t|] == '\n';
  }

  /** A line without breaks followed by "\n" reads back as that line, then the rest. */
  lemma ReadLinesCons(t: string, rest: string)
    requires NoLineBreak(t)
    ensures ReadLines(t + "\n" + rest) == [t] + ReadLines(rest)
  {
    var s := t + "\n" + rest;
    LineEndAt(t, rest);
    assert s[..|t|] == t && s[|t| + 1..] == rest;
  }

  /** Lines without line breaks, each ended by "\n", read back as themselves. */
  lemma {:induction false} ReadJoinLines(lines: seq<string>)
    requires forall i :: 0 <= i < |lines| ==> NoLineBreak(lines[i])
    ensures ReadLines(JoinLines(lines)) == lines
    decreases |lines|
  {
    if lines != [] {
      var rest := lines[1..];
      forall i | 0 <= i < |rest| ensures NoLineBreak(rest[i]) {
        assert rest[i] == lines[i + 1];
      }
      ReadJoinLines(rest);
      assert JoinLines(lines) == lines[0] + "\n" + JoinLines(rest);
      ReadLinesCons(lines[0], JoinLines(rest));
      assert [lines[0]] + rest == lines;
    }
  }

  lemma {:induction false} RemoveAllAbsent(s: string, pat: string)
    requires pat != [] && pat[0] !in s
    ensures RemoveAll(s, pat) == s
    decreases |s|
  {
    if |s| >= |pat| {
      assert s[..|pat|][0] == s[0];
      assert s[1..] + [] == s[1..];
      RemoveAllAbsent(s[1..], pat);
      assert [s[0]] + s[1..] == s;
    }
  }

  /** The header line gives the stamp back. */
  lemma HeaderRoundTrip(stamp: int)
    requires IsInt64(stamp)
    ensures ParseLong(RemoveAll(HeaderLine(stamp), TAG_TIME)) == Some(stamp)
  {
    var d := ToDecimal(stamp);
    var h := HeaderLine(stamp);
    assert h[..|TAG_TIME|] == TAG_TIME && h[|TAG_TIME|..] == d;
    if 'c' in d {
      var i :| 0 <= i < |d| && d[i] == 'c';
      ToDecimalChars(stamp, i);
    }
    RemoveAllAbsent(d, TAG_TIME);
    ParseLongToDecimal(stamp);
  }

  /**
   * Reading back a file postLog wrote gives its stamp and its non-empty
   * lines, joined and trimmed (a '\r' would split a line further when read).
   */
  lemma WriteReadRoundTrip(stamp: int, log: string)
    requires IsInt64(stamp) && '\r' !in log
    ensures ReadLog(LogContent(stamp, log)) == Read(Log(stamp, Trim(JoinLines(Tokens(log)))))
  {
    var lines := [HeaderLine(stamp)] + Tokens(log);
    LinesWithoutBreaks(stamp, log);
    ReadJoinLines(lines);
    assert lines[1..] == Tokens(log);
    HeaderRoundTrip(stamp);
  }

  lemma LinesWithoutBreaks(stamp: int, log: string)
    requires '\r' !in log
    ensures var lines := [HeaderLine(stamp)] + Tokens(log);
      forall i :: 0 <= i < |lines| ==> NoLineBreak(lines[i])
  {
    var h := HeaderLine(stamp);
    forall j | 0 <= j < |h|
      ensures !IsLineBreak(h[j])
    {
      if j >= |TAG_TIME| {
        ToDecimalChars(stamp, j - |TAG_TIME|);
      }
    }
    var ts := Tokens(log);
    forall i | 0 <= i < |ts|
      ensures NoLineBreak(ts[i])
    {
      forall j | 0 <= j < |ts[i]|
        ensures !IsLineBreak(ts[i][j])
      {
        assert ts[i][j] in log;
      }
    }
    var lines := [h] + ts;
    assert forall i :: 0 < i < |lines| ==> lines[i] == ts[i - 1];
  }

  /** A log with no empty line, no '\r' and no blank at either end. */
  predicate IsCleanLog(log: string)
  {
    log != [] && log[0] > ' ' && log[|log| - 1] > ' ' && '\r' !in log &&
    forall i :: 0 <= i < |log| - 1 ==> !(log[i] == '\n' && log[i + 1] == '\n')
  }

  lemma {:induction false} JoinTokens(log: string)
    requires log != [] && log[0] != '\n' && log[|log| - 1] != '\n'
    requires forall i :: 0 <= i < |log| - 1 ==> !(log[i] == '\n' && log[i + 1] == '\n')
    ensures JoinLines(Tokens(log)) == log + "\n"
    decreases |log|
  {
    var k := NewlineAt(log);
    var head := log[..k];
    assert Tokens(log) == [head] + Tokens(log[k..]);
    if k == |log| {
      assert log[k..] == [] && head == log;
      JoinCons(head, []);
    } else {
      var rest := log[k + 1..];
      assert log[k + 1] != '\n';
      assert log[k..][1..] == rest;
      assert Tokens(log[k..]) == Tokens(rest);
      NoBlankLineTail(log, k + 1);
      JoinTokens(rest);
      JoinCons(head, Tokens(rest));
      SplitAtNewline(log, k);
    }
  }

  lemma JoinCons(line: string, lines: seq<string>)
    ensures JoinLines([line] + lines) == line + "\n" + JoinLines(lines)
  {
    assert ([line] + lines)[1..] == lines;
  }

  lemma SplitAtNewline(s: string, k: nat)
    requires k < |s| && s[k] == '\n'
    ensures s == s[..k] + "\n" + s[k + 1..]
  {
    assert s[k..] == [s[k]] + s[k + 1..];
    assert s == s[..k] + s[k..];
  }

  lemma NoBlankLineTail(log: string, n: nat)
    requires n <= |log|
    requires forall i :: 0 <= i < |log| - 1 ==> !(log[i] == '\n' && log[i + 1] == '\n')
    ensures forall i :: 0 <= i < |log[n..]| - 1 ==> !(log[n..][i] == '\n' && log[n..][i + 1] == '\n')
  {
    forall i | 0 <= i < |log[n..]| - 1
      ensures !(log[n..][i] == '\n' && log[n..][i + 1] == '\n')
    {
      assert log[n..][i] == log[n + i] && log[n..][i + 1] == log[n + i + 1];
    }
  }

  /** A clean log results back exactly as posted. */
  lemma CleanLogRoundTrip(stamp: int, log: string)
    requires IsInt64(stamp) && IsCleanLog(log)
    ensures ReadLog(LogContent(stamp, log)) == Read(Log(stamp, log))
  {
    WriteReadRoundTrip(stamp, log);
    JoinTokens(log);
    var s := log + "\n";
    assert s[..|s| - 1] == log;
    assert TrimEnd(s) == log;
  }

  // ---------------------------------------------------------------------
  // Scanning the folder

  /** getLogSet part-way: still reading, stopped by an empty file, or failed on a bad header. */
  datatype ScanState = Scanning(logs: seq<Log>) | Stopped(logs: seq<Log>) | ScanFailed

  function ScanStep(st: ScanState, read: ReadResult): ScanState
  {
    if !st.Scanning? then st
    else match read {
      case Read(l) => Scanning(st.logs + [l])
      case EndOfScan => Stopped(st.logs)
      case BadHeader => ScanFailed
    }
  }

  /** The scan over the files' read results, in listing order. */
  function Scan(results: seq<ReadResult>): ScanState
  {
    if results == [] then Scanning([])
    else ScanStep(Scan(results[..|results| - 1]), results[|results| - 1])
  }

  function ReadAll(contents: seq<string>): (results: seq<ReadResult>)
    ensures |results| == |contents| && forall i :: 0 <= i < |contents| ==> results[i] == ReadLog(contents[i])
  {
    seq(|contents|, i requires 0 <= i < |contents| => ReadLog(contents[i]))
  }

  /** The list getLogSet returns; None when the NumberFormatException escapes. */
  function LogSetOf(st: ScanState): Option<seq<Log>>
  {
    if st.ScanFailed? then None else Some(st.logs)
  }

  /** The contents of the named files, in the order given. */
  function ContentsOf(files: map<string, string>, names: seq<string>): (r: seq<string>)
    requires forall i :: 0 <= i < |names| ==> names[i] in files
    ensures |r| == |names| && forall i :: 0 <= i < |names| ==> r[i] == files[names[i]]
  {
    seq(|names|, i requires 0 <= i < |names| => files[names[i]])
  }

  /**
   * The scan keeps a prefix of the files: the k-th log is what the k-th file
   * results as, and a scan that stops does so at an empty file.
   */
  lemma {:induction false} ScanPrefix(results: seq<ReadResult>)
    ensures var st := Scan(results);
      !st.ScanFailed? ==>
        |st.logs| <= |results| &&
        (forall k :: 0 <= k < |st.logs| ==> results[k] == Read(st.logs[k])) &&
        (st.Scanning? ==> |st.logs| == |results|) &&
        (st.Stopped? ==> |st.logs| < |results| && results[|st.logs|].EndOfScan?)
    decreases |results|
  {
    if results != [] {
      var init := results[..|results| - 1];
      ScanPrefix(init);
      forall k | 0 <= k < |init|
        ensures results[k] == init[k]
      {
      }
    }
  }

  /** The scan fails exactly when a bad header comes before any empty file. */
  lemma {:induction false} ScanFails(results: seq<ReadResult>)
    ensures Scan(results).ScanFailed? <==> exists k :: 0 <= k < |results| && FailsAt(results, k)
    decreases |results|
  {
    if results != [] {
      var init := results[..|results| - 1];
      ScanFails(init);
      ScanPrefix(init);
      var st := Scan(init);
      if st.ScanFailed? {
        var k :| 0 <= k < |init| && FailsAt(init, k);
        assert FailsAt(results, k);
      } else if exists k :: 0 <= k < |results| && FailsAt(results, k) {
        var k :| 0 <= k < |results| && FailsAt(results, k);
        if k < |init| {
          assert FailsAt(init, k);
        }
      } else if results[|results| - 1].BadHeader? && st.Scanning? {
        forall j | 0 <= j < |init|
          ensures results[j].Read?
        {
          assert results[j] == init[j] == Read(st.logs[j]);
        }
        assert FailsAt(results, |results| - 1);
      }
    }
  }

  /** The k-th file has a bad header and every file before it results as a log. */
  predicate FailsAt(results: seq<ReadResult>, k: nat)
    requires k < |results|
  {
    results[k].BadHeader? && forall j :: 0 <= j < k ==> results[j].Read?
  }

  // ---------------------------------------------------------------------
  // The log center

  class LogCenter {
    /** The log folder exists as a directory. */
    var folderExists: bool
    /** The log files: name to content. */
    var files: map<string, string>
    /** LOG_FOLDER_EXIST */
    var logFolderExist: bool
    /** mLogPostedListener, by identity; None for null. */
    var listener: Option<nat>
    /** The onLogPosted calls made so far. */
    var posted: seq<Notification>

    ghost predicate Valid()
      reads this
    {
      !folderExists ==> files == map[]
    }

    constructor(folderExists: bool, files: map<string, string>)
      requires !folderExists ==> files == map[]
      ensures Valid() && this.folderExists == folderExists && this.files == files
      ensures !logFolderExist && listener == None && posted == []
    {
      this.folderExists := folderExists;
      this.files := files;
      logFolderExist := false;
      listener := None;
      posted := [];
    }

    /** initLogDirectory: the folder is created when it is not a directory. */
    method InitLogDirectory()
      requires Valid()
      modifies this`folderExists
      ensures Valid() && folderExists
    {
      if !folderExists {
        folderExists := true;
      }
    }

    /**
     * maintenanceLogFiles: the folder is created on the first call; then,
     * when there are 100 files or more, the smallest names are deleted until
     * 99 remain.
     */
    method MaintenanceLogFiles()
      requires Valid()
      modifies this`folderExists, this`files, this`logFolderExist
      ensures Valid() && logFolderExist
      ensures folderExists == (old(folderExists) || !old(logFolderExist))
      ensures files == Retained(old(files))
    {
      if !logFolderExist {
        InitLogDirectory();
        logFolderExist := true;
      }
      if !folderExists {
        assert files == map[];
        assert Retained(files).Keys == {};
        return;
      }
      var logList := SortedNames(files.Keys);
      assert |logList| == |files|;
      DeleteOldest(logList);
    }

    /** The deleting loop of maintenanceLogFiles, over the sorted listing. */
    method DeleteOldest(logList: seq<string>)
      modifies this`files
      ensures files == Without(old(files), logList[..RemovedCount(|logList|)])
    {
      ghost var f0 := files;
      var i := 0;
      while |logList| - i >= MAX_LOG_FILES
        invariant 0 <= i <= RemovedCount(|logList|)
        invariant files == Without(f0, logList[..i])
      {
        assert logList[..i + 1] == logList[..i] + [logList[i]];
        WithoutSnoc(f0, logList[..i], logList[i]);
        files := files - {logList[i]};
        i := i + 1;
      }
    }

    /** The probing loop of postLog: the first index whose name is free. */
    method ProbeName(time: int) returns (i: nat)
      ensures IsFirstFree(files, time, i)
    {
      i := 0;
      while LogName(time, i) in files
        invariant forall j :: 0 <= j < i ==> LogName(time, j) in files
        decreases |files| - i
      {
        TakenBound(files, time, i + 1);
        i := i + 1;
      }
    }

    /** The writing loop of postLog: the header line, then each token on its own line. */
    method WriteLogFile(stamp: int, log: string) returns (content: string)
      ensures content == LogContent(stamp, log)
    {
      content := TAG_TIME + ToDecimal(stamp) + "\n";
      var tokens := Tokens(log);
      var k := 0;
      while k < |tokens|
        invariant 0 <= k <= |tokens|
        invariant content + JoinLines(tokens[k..]) == LogContent(stamp, log)
      {
        assert JoinLines(tokens[k..]) == tokens[k] + "\n" + JoinLines(tokens[k + 1..]);
        content := content + tokens[k] + "\n";
        k := k + 1;
      }
      assert tokens[k..] == [];
    }

    /**
     * postLog(Context, String): prune, then write the log under the first
     * free name time.log, time_1.log, ... and tell the registered listener
     * the index of the new last file. time names the file and stamp goes in
     * its header (two readings of the clock).
     */
    method PostLog(time: int, stamp: int, log: string)
      requires Valid()
      modifies this`folderExists, this`files, this`logFolderExist, this`posted
      ensures Valid()
      ensures !folderExists ==> files == Retained(old(files)) && posted == old(posted)
      ensures folderExists ==> Posted(Retained(old(files)), files, time, stamp, log)
      ensures folderExists ==>
        posted == old(posted) + (if listener.Some? then [Notification(listener.value, |files| - 1)] else [])
    {
      MaintenanceLogFiles();
      WriteLog(time, stamp, log);
    }

    /** postLog after the pruning: write the file and tell the listener. */
    method WriteLog(time: int, stamp: int, log: string)
      requires Valid()
      modifies this`files, this`posted
      ensures Valid()
      ensures !folderExists ==> files == old(files) && posted == old(posted)
      ensures folderExists ==> Posted(old(files), files, time, stamp, log)
      ensures folderExists ==>
        posted == old(posted) + (if listener.Some? then [Notification(listener.value, |files| - 1)] else [])
    {
      if !folderExists {
        // createNewFile throws an IOException, which postLog swallows
        return;
      }
      AddLogFile(time, stamp, log);
      NotifyListener();
    }

    /** The file postLog writes: under the first free name, the header and the log's lines. */
    method AddLogFile(time: int, stamp: int, log: string)
      modifies this`files
      ensures Posted(old(files), files, time, stamp, log)
    {
      var i := ProbeName(time);
      var content := WriteLogFile(stamp, log);
      files := files[LogName(time, i) := content];
      assert IsFirstFree(old(files), time, i);
    }

    /** The listener, when one is registered, hears the index of the last file. */
    method NotifyListener()
      modifies this`posted
      ensures posted == old(posted) + (if listener.Some? then [Notification(listener.value, |files| - 1)] else [])
    {
      if listener.Some? {
        posted := posted + [Notification(listener.value, |files| - 1)];
      }
    }

    /**
     * getLogSet: nothing without the folder; otherwise each file in name
     * order is read until the end or an empty file. None: a header that is
     * not a number throws out of getLogSet.
     */
    method GetLogSet() returns (r: Option<seq<Log>>)
      requires Valid()
      ensures r == LogSetOf(Scan(ReadAll(ContentsOf(files, SortedNames(files.Keys)))))
    {
      var names := SortedNames(files.Keys);
      r := ReadLogFiles(names);
    }

    /** The reading loop of getLogSet, over the sorted listing. */
    method ReadLogFiles(names: seq<string>) returns (r: Option<seq<Log>>)
      requires forall i :: 0 <= i < |names| ==> names[i] in files
      ensures r == LogSetOf(Scan(ReadAll(ContentsOf(files, names))))
    {
      ghost var results := ReadAll(ContentsOf(files, names));
      var logs: seq<Log> := [];
      var i := 0;
      while i < |names|
        invariant 0 <= i <= |names| == |results|
        invariant Scan(results[..i]) == Scanning(logs)
      {
        var read := ReadLog(files[names[i]]);
        assert read == results[i];
        ScanSnoc(results, i);
        match read {
        case EndOfScan =>
          StoppedStays(results, i + 1);
          return Some(logs);
        case BadHeader =>
          StoppedStays(results, i + 1);
          return None;
        case Read(l) =>
          logs := logs + [l];
        }
        i := i + 1;
      }
      assert results[..i] == results;
      r := Some(logs);
    }

    /** clearLogcat: every file deleted; nothing happens without the folder. */
    method ClearLogcat()
      requires Valid()
      modifies this`files
      ensures Valid() && files == map[]
    {
      if !folderExists {
        return;
      }
      files := map[];
    }

    /** registerLogAddedListener: the new listener replaces the previous one. */
    method RegisterLogAddedListener(l: Option<nat>)
      modifies this`listener
      ensures listener == l
    {
      listener := l;
    }
  }

  lemma ScanSnoc(results: seq<ReadResult>, i: nat)
    requires i < |results|
    ensures Scan(results[..i + 1]) == ScanStep(Scan(results[..i]), results[i])
  {
    assert results[..i + 1][..i] == results[..i];
  }

  /** Once the scan has stopped or failed, the remaining files do not matter. */
  lemma {:induction false} StoppedStays(results: seq<ReadResult>, n: nat)
    requires n <= |results| && !Scan(results[..n]).Scanning?
    ensures Scan(results) == Scan(results[..n])
    decreases |results| - n
  {
    if n < |results| {
      assert results[..n + 1][..n] == results[..n];
      StoppedStays(results, n + 1);
    } else {
      assert results[..n] == results;
    }
  }
}
