/** The text of an issue list: joining, tagging, splitting, and taking a token apart. */
module IssueText {
  import opened CString

  const COMMA: char := ','
  const DOT: char := '.'
  const UNDERSCORE: char := '_'
  const APPEND_SUFFIX: string := "_apnd"

  // ----- maximal delimiter-free runs -----

  /** The length of the run s begins with. */
  function RunLength(s: string, d: char): (n: nat)
    ensures n <= |s| && (forall i :: 0 <= i < n ==> s[i] != d) && (n < |s| ==> s[n] == d)
  {
    if s == [] || s[0] == d then 0 else 1 + RunLength(s[1..], d)
  }

  /** The maximal runs of s without d, in order. */
  function Runs(s: string, d: char): (runs: seq<string>)
    ensures forall r :: r in runs ==> r != [] && d !in r && forall c :: c in r ==> c in s
    decreases |s|
  {
    if s == [] then []
    else if s[0] == d then Runs(s[1..], d)
    else
      var n := RunLength(s, d);
      [s[..n]] + Runs(s[n..], d)
  }

  /** What the splitter returns: the runs, or a single empty token when there is none. */
  function Split(s: string, d: char): (tokens: seq<string>)
    ensures |tokens| >= 1
  {
    if Runs(s, d) == [] then [""] else Runs(s, d)
  }

  /** How many delimiters of s are followed by another character: the splitter's look-ahead count. */
  function Starts(s: string, d: char): nat {
    if |s| < 2 then 0 else (if s[0] == d && s[1] != d then 1 else 0) + Starts(s[1..], d)
  }

  lemma {:induction false} RunLengthStep(s: string, d: char)
    requires s != [] && s[0] != d
    ensures RunLength(s, d) == 1 + RunLength(s[1..], d)
  {
  }

  /** The look-ahead count and the runs agree. */
  lemma {:induction false} StartsCountRuns(s: string, d: char)
    ensures |Runs(s, d)| == Starts(s, d) + (if s != [] && s[0] != d then 1 else 0)
    decreases |s|
  {
    if s == [] {
    } else {
      StartsCountRuns(s[1..], d);
      if s[0] != d {
        RunLengthStep(s, d);
        var n := RunLength(s, d);
        if |s| > 1 && s[1] != d {
          assert s[n..] == s[1..][n - 1..];
        }
      }
    }
  }

  lemma RunLengthIs(s: string, d: char, n: nat)
    requires n <= |s| && (forall i :: 0 <= i < n ==> s[i] != d) && (n < |s| ==> s[n] == d)
    ensures RunLength(s, d) == n
  {
  }

  lemma RunsAt(s: string, d: char, from: nat)
    requires from <= |s| && (from < |s| ==> s[from] != d)
    ensures var to := from + RunLength(s[from..], d);
            && to <= |s|
            && Runs(s[from..], d) == if from == |s| then [] else [s[from..to]] + Runs(s[to..], d)
  {
    if from < |s| {
      var n := RunLength(s[from..], d);
      assert s[from..][..n] == s[from..from + n];
      assert s[from..][n..] == s[from + n..];
    }
  }

  /** Step over delimiters, up to the first character that is not one. */
  method SkipDelimiters(buf: array<char>, d: char, from: nat) returns (to: nat)
    requires Terminated(buf[..]) && d != NUL && from <= Length(buf[..])
    ensures from <= to <= Length(buf[..]) && buf[to] != d
    ensures Runs(Text(buf[..])[to..], d) == Runs(Text(buf[..])[from..], d)
  {
    ghost var s := Text(buf[..]);
    to := from;
    while buf[to] == d
      invariant from <= to <= |s|
      invariant Runs(s[to..], d) == Runs(s[from..], d)
      decreases |s| - to
    {
      assert s[to..][1..] == s[to + 1..];
      to := to + 1;
    }
  }

  /** Step over a token, up to the next delimiter or the end of the string. */
  method SkipToken(buf: array<char>, d: char, from: nat) returns (to: nat)
    requires Terminated(buf[..]) && d != NUL && from <= Length(buf[..])
    ensures to == from + RunLength(Text(buf[..])[from..], d)
  {
    ghost var s := Text(buf[..]);
    to := from;
    while buf[to] != d && buf[to] != NUL
      invariant from <= to <= |s|
      invariant forall k :: from <= k < to ==> s[k] != d
      decreases |s| - to
    {
      to := to + 1;
    }
    RunLengthIs(s[from..], d, to - from);
  }

  /** What is left to emit when the emission pass stands at str after i tokens. */
  ghost predicate Remaining(s: string, d: char, str: nat, i: nat)
    requires str <= |s| && i <= |Split(s, d)|
  {
    if Runs(s, d) == [] then str == |s| else Runs(s[str..], d) == Split(s, d)[i..]
  }

  lemma EmitStep(s: string, d: char, ts: nat, str: nat, i: nat)
    requires ts <= |s| && (ts < |s| ==> s[ts] != d) && str == ts + RunLength(s[ts..], d)
    requires i < |Split(s, d)| && Remaining(s, d, ts, i)
    ensures str <= |s| && s[ts..str] == Split(s, d)[i] && Remaining(s, d, str, i + 1)
  {
    hide Runs, RunLength;
    RunsAt(s, d, ts);
    if Runs(s, d) != [] {
      var tokens := Split(s, d);
      assert tokens[i..] == [tokens[i]] + tokens[i + 1..];
      assert ts < |s|;
      assert [s[ts..str]] + Runs(s[str..], d) == [tokens[i]] + tokens[i + 1..];
      assert ([s[ts..str]] + Runs(s[str..], d))[1..] == Runs(s[str..], d);
      assert ([tokens[i]] + tokens[i + 1..])[1..] == tokens[i + 1..];
    }
  }

  /** The splitter: a counting pass, then an emission pass over the same text. */
  method IssueTypeSplitter(buf: array<char>, d: char) returns (args: seq<string>)
    requires Terminated(buf[..]) && d != NUL
    ensures args == Split(Text(buf[..]), d)
  {
    hide Runs, RunLength, Split, Remaining;
    ghost var s := Text(buf[..]);
    var str := SkipDelimiters(buf, d, 0);
    EmitStart(s, d, str);
    var cnt := CountTokens(buf, d, str);
    args := [];
    for i := 0 to cnt
      invariant 0 <= str <= |s| && (str < |s| ==> s[str] != d)
      invariant Remaining(s, d, str, i)
      invariant args == Split(s, d)[..i]
    {
      var ts := str;
      str := SkipToken(buf, d, ts);
      EmitStep(s, d, ts, str, i);
      assert buf[ts..str] == s[ts..str];
      args := args + [buf[ts..str]];
      ghost var at := str;
      str := SkipDelimiters(buf, d, str);
      EmitSkip(s, d, at, str, i + 1);
    }
  }

  lemma EmitStart(s: string, d: char, str: nat)
    requires str <= |s| && (str < |s| ==> s[str] != d) && Runs(s[str..], d) == Runs(s[0..], d)
    ensures Split(s[str..], d) == Split(s, d) && Remaining(s, d, str, 0)
  {
    assert s[0..] == s;
    if str < |s| { RunsAt(s, d, str); }
  }

  lemma EmitSkip(s: string, d: char, from: nat, to: nat, i: nat)
    requires from <= to <= |s| && i <= |Split(s, d)|
    requires Runs(s[to..], d) == Runs(s[from..], d) && Remaining(s, d, from, i)
    ensures Remaining(s, d, to, i)
  {
  }

  /** The counting pass, from the first character that is not a delimiter. */
  method CountTokens(buf: array<char>, d: char, str: nat) returns (cnt: nat)
    requires Terminated(buf[..]) && d != NUL
    requires str <= Length(buf[..]) && buf[str] != d
    ensures cnt == |Split(Text(buf[..])[str..], d)|
  {
    ghost var len := Length(buf[..]);
    ghost var s := Text(buf[..]);
    cnt := 1;
    var str2 := str;
    StartsCountRuns(s[str..], d);
    while buf[str2] != NUL
      invariant str <= str2 <= len
      invariant cnt + (if str2 < len then Starts(s[str2 + 1..], d) else 0) == 1 + Starts(s[str..], d)
      decreases len - str2
    {
      str2 := str2 + 1;
      assert str2 < len ==> s[str2..][1..] == s[str2 + 1..];
      if buf[str2] == d && buf[str2 + 1] != d && buf[str2 + 1] != NUL {
        cnt := cnt + 1;
      }
    }
  }
}
