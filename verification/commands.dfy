/** A command on its way to the shell: every stage a loop over a character buffer, and the function it computes. */
module Commands {
  import opened CString
  import opened Sequences

  const QUOTE: char := '"'
  const BACKSLASH: char := '\\'
  const MACRO: string := "RRD_LOCATION"

  // ----- the printed form of a JSON string (section 7 of RFC 8259), as the profile reader gets it -----

  predicate IsControl(c: char) { c < ' ' }

  function HexDigit(n: nat): char
    requires n < 16
  {
    if n < 10 then ('0' as int + n) as char else ('a' as int + n - 10) as char
  }

  function ControlEscape(c: char): string
    requires IsControl(c)
  {
    if c == '\n' then "n" else if c == '\r' then "r" else if c == '\t' then "t"
    else if c as int == 8 then "b" else if c as int == 12 then "f"
    else "u00" + [HexDigit(c as int / 16), HexDigit(c as int % 16)]
  }

  function EscapeChar(c: char): string {
    if c == QUOTE || c == BACKSLASH then [BACKSLASH, c]
    else if IsControl(c) then [BACKSLASH] + ControlEscape(c)
    else [c]
  }

  function Escaped(s: string): string {
    if s == [] then [] else EscapeChar(s[0]) + Escaped(s[1..])
  }

  function Printed(s: string): string { [QUOTE] + Escaped(s) + [QUOTE] }

  // ----- unquoting -----

  /** Every backslash in front of a quote goes, from left to right. */
  function Unescaped(s: string): string {
    if s == [] then []
    else if |s| >= 2 && s[0] == BACKSLASH && s[1] == QUOTE then [QUOTE] + Unescaped(s[2..])
    else [s[0]] + Unescaped(s[1..])
  }

  predicate InQuotes(s: string) { |s| >= 2 && s[0] == QUOTE && s[|s| - 1] == QUOTE }

  function Unquoted(s: string): string {
    Unescaped(if InQuotes(s) then s[1..|s| - 1] else s)
  }

  const ESCAPED_QUOTE: string := "\\\""

  /** Text without an escaped quote is kept. */
  lemma {:induction false} UnescapedSkip(s: string, from: nat, at: nat)
    requires from <= at <= |s| && forall i: nat :: from <= i < at ==> !OccursAt(s, ESCAPED_QUOTE, i)
    ensures Unescaped(s[from..]) == s[from..at] + Unescaped(s[at..])
    decreases at - from
  {
    if from == at {
      assert s[from..at] == [];
    } else {
      UnescapedSkip(s, from + 1, at);
      var u := s[from..];
      assert u[1..] == s[from + 1..];
      assert !OccursAt(s, ESCAPED_QUOTE, from);
      assert |u| >= 2 ==> s[from..from + 2] == [u[0], u[1]];
      assert s[from..at] == [u[0]] + s[from + 1..at];
    }
  }

  /** removeQuotes: the buffer shrinks by one at each match, and the scan goes on from there. */
  method RemoveQuotes(str: array<char>)
    requires Terminated(str[..])
    modifies str
    ensures Terminated(str[..]) && Text(str[..]) == Unquoted(old(Text(str[..])))
  {
    var len := Length(str[..]);
    ghost var s := Text(str[..]);
    if len >= 2 && str[0] == QUOTE && str[len - 1] == QUOTE {
      MemMove(str, 0, 1, len - 2);
      assert s[1..len - 1] == s[1..][..len - 2];
      s := s[1..len - 1];
      Finish(str, len - 2, s);
    }
    UnescapeInPlace(str);
  }

  method UnescapeInPlace(str: array<char>)
    requires Terminated(str[..])
    modifies str
    ensures Terminated(str[..]) && Text(str[..]) == Unescaped(old(Text(str[..])))
  {
    ghost var goal := Unescaped(Text(str[..]));
    var escaped := 0;
    assert Text(str[..])[0..] == Text(str[..]);
    var found := StrStr(Text(str[..]), ESCAPED_QUOTE, 0);
    while found.Some?
      invariant Terminated(str[..]) && 0 <= escaped <= Length(str[..])
      invariant found == StrStr(Text(str[..]), ESCAPED_QUOTE, escaped)
      invariant Text(str[..])[..escaped] + Unescaped(Text(str[..])[escaped..]) == goal
      decreases Length(str[..])
    {
      ghost var s := Text(str[..]);
      ghost var from := escaped;
      escaped := found.value;
      DropBackslash(str, escaped);
      UnescapeStep(s, from, escaped);
      found := StrStr(Text(str[..]), ESCAPED_QUOTE, escaped);
    }
    UnescapeEnd(Text(str[..]), escaped);
  }

  /** The rest of the string, its terminator included, moves one place down over the backslash. */
  method DropBackslash(str: array<char>, at: nat)
    requires Terminated(str[..]) && at < Length(str[..])
    modifies str
    ensures Terminated(str[..]) && Text(str[..]) == old(Text(str[..])[..at] + Text(str[..])[at + 1..])
  {
    ghost var s := Text(str[..]);
    var len := Length(str[..]);
    MemMove(str, at, at + 1, len - at);
    TextIs(str[..], len - 1);
    assert str[..len - 1] == s[..at] + s[at + 1..];
  }

  lemma UnescapeStep(s: string, from: nat, at: nat)
    requires from <= at && OccursAt(s, ESCAPED_QUOTE, at)
    requires forall i: nat :: from <= i < at ==> !OccursAt(s, ESCAPED_QUOTE, i)
    ensures var t := s[..at] + s[at + 1..];
            t[..at] + Unescaped(t[at..]) == s[..from] + Unescaped(s[from..])
  {
    var t := s[..at] + s[at + 1..];
    UnescapedSkip(s, from, at);
    UnescapedQuote(s, at);
    assert t[at..] == s[at + 1..] && t[..at] == s[..from] + s[from..at];
    Assoc(s[..from], s[from..at], Unescaped(s[at..]));
  }

  lemma UnescapedQuote(s: string, at: nat)
    requires OccursAt(s, ESCAPED_QUOTE, at)
    ensures Unescaped(s[at..]) == Unescaped(s[at + 1..])
  {
    var u := s[at..];
    assert s[at..at + 2] == [u[0], u[1]];
    assert u[2..] == s[at + 2..] && s[at + 1..][1..] == s[at + 2..];
  }

  lemma UnescapeEnd(s: string, from: nat)
    requires from <= |s| && forall i: nat :: from <= i ==> !OccursAt(s, ESCAPED_QUOTE, i)
    ensures s[..from] + Unescaped(s[from..]) == s
  {
    UnescapedSkip(s, from, |s|);
    assert Unescaped(s[|s|..]) == [];
  }

  // ----- background commands -----

  /** "&;" becomes "& "; amp says whether an '&' comes before. */
  function BackgroundFrom(amp: bool, s: string): (r: string)
    ensures |r| == |s|
    decreases s
  {
    if s == [] then []
    else [if amp && s[0] == ';' then ' ' else s[0]] + BackgroundFrom(s[0] == '&', s[1..])
  }

  function Backgrounded(s: string): (r: string)
    ensures |r| == |s|
  {
    BackgroundFrom(false, s)
  }

  lemma {:induction false} BackgroundFromAt(amp: bool, s: string, i: nat)
    requires i < |s|
    ensures BackgroundFrom(amp, s)[i] ==
            if s[i] == ';' && (if i == 0 then amp else s[i - 1] == '&') then ' ' else s[i]
    decreases i
  {
    if i == 0 {
    } else {
      BackgroundFromAt(s[0] == '&', s[1..], i - 1);
    }
  }

  /** Character by character: a ';' right behind an '&' becomes a blank, everything else stays. */
  lemma BackgroundAt(s: string)
    ensures forall i :: 0 <= i < |s| ==>
              Backgrounded(s)[i] == if s[i] == ';' && i > 0 && s[i - 1] == '&' then ' ' else s[i]
  {
    forall i | 0 <= i < |s|
      ensures Backgrounded(s)[i] == if s[i] == ';' && i > 0 && s[i - 1] == '&' then ' ' else s[i]
    {
      BackgroundFromAt(false, s, i);
    }
  }

  method UpdateBackgroundCmd(str: array<char>)
    requires Terminated(str[..])
    modifies str
    ensures Terminated(str[..]) && Text(str[..]) == Backgrounded(old(Text(str[..])))
  {
    ghost var s := Text(str[..]);
    BackgroundAt(s);
    NoNulBackground(s);
    var i := 0;
    while str[i] != NUL
      invariant 0 <= i <= |s|
      invariant forall k :: 0 <= k <= i && k < |s| ==> str[k] == Backgrounded(s)[k]
      invariant forall k :: i < k <= |s| ==> str[k] == old(str[k])
      invariant str[|s|] == NUL
      decreases |s| - i
    {
      BackgroundFromAt(false, s, i);
      if i + 1 < |s| {
        BackgroundFromAt(false, s, i + 1);
      }
      if str[i] == '&' && str[i + 1] == ';' {
        str[i + 1] := ' ';
      }
      i := i + 1;
    }
    assert str[..|s|] == Backgrounded(s);
    TextIs(str[..], |s|);
  }

  lemma NoNulBackground(s: string)
    requires NUL !in s
    ensures forall k :: 0 <= k < |s| ==> Backgrounded(s)[k] != NUL
  {
    forall k | 0 <= k < |s|
      ensures Backgrounded(s)[k] != NUL
    {
      BackgroundFromAt(false, s, k);
      assert s[k] in s;
    }
  }

  // ----- the pattern check -----

  predicate IsSpace(c: char) { c == ' ' || '\t' <= c <= '\r' }

  function Trimmed(s: string): string {
    if s != [] && IsSpace(s[|s| - 1]) then Trimmed(s[..|s| - 1]) else s
  }

  /** A sanity list entry, from its printed form: without its quotes and trailing blanks. */
  function PatternOf(printed: string): string {
    Trimmed(if InQuotes(printed) then printed[1..|printed| - 1] else printed)
  }

  ghost predicate Harmful(cmd: string, sanity: seq<string>) {
    exists k :: 0 <= k < |sanity| && Occurs(cmd, PatternOf(sanity[k]))
  }

  /** isCommandsValid: 1 for a command that contains a listed pattern; otherwise the background fix is made. */
  method IsCommandsValid(issuecmd: array<char>, sanity: seq<string>) returns (rc: int)
    requires Terminated(issuecmd[..])
    modifies issuecmd
    ensures Terminated(issuecmd[..])
    ensures rc == if Harmful(old(Text(issuecmd[..])), sanity) then 1 else 0
    ensures Text(issuecmd[..]) == if rc == 0 then Backgrounded(old(Text(issuecmd[..]))) else old(Text(issuecmd[..]))
  {
    hide Text, Length, Backgrounded, OccursAt;
    for i := 0 to |sanity|
      invariant forall k :: 0 <= k < i ==> !Occurs(Text(issuecmd[..]), PatternOf(sanity[k]))
      invariant issuecmd[..] == old(issuecmd[..])
    {
      var checkcmd := sanity[i];
      var len := |checkcmd|;
      if len >= 2 && checkcmd[0] == QUOTE && checkcmd[len - 1] == QUOTE {
        checkcmd := checkcmd[1..len - 1];
        len := len - 2;
      }
      var j := len - 1;
      assert checkcmd[..j + 1] == checkcmd;
      while j >= 0 && IsSpace(checkcmd[j])
        invariant -1 <= j < |checkcmd|
        invariant Trimmed(checkcmd[..j + 1]) == PatternOf(sanity[i])
      {
        assert checkcmd[..j + 1][..j] == checkcmd[..j];
        j := j - 1;
      }
      checkcmd := checkcmd[..j + 1];
      var sanitystr := StrStr(Text(issuecmd[..]), checkcmd, 0);
      if sanitystr.Some? {
        return 1;
      }
    }
    if StrStr(Text(issuecmd[..]), "&", 0).Some? {
      UpdateBackgroundCmd(issuecmd);
    } else {
      NothingInBackground(Text(issuecmd[..]));
    }
    rc := 0;
  }

  lemma NothingInBackground(s: string)
    requires forall i: nat :: !OccursAt(s, "&", i)
    ensures Backgrounded(s) == s
  {
    BackgroundAt(s);
    forall i | 0 <= i < |s|
      ensures s[i] != '&'
    {
      assert !OccursAt(s, "&", i) && s[i..i + 1] == [s[i]];
    }
    forall i | 0 <= i < |s|
      ensures Backgrounded(s)[i] == s[i]
    {
      assert i > 0 ==> s[i - 1] != '&';
    }
  }

  // ----- merging a static and a dynamic command -----

  function Merged(staticCmd: string, dynamicCmd: string): string {
    (if staticCmd != "" && staticCmd[|staticCmd| - 1] == QUOTE then staticCmd[..|staticCmd| - 1] else staticCmd) +
    (if dynamicCmd != "" && dynamicCmd[0] == QUOTE then [';'] + dynamicCmd[1..] else dynamicCmd)
  }

  method AppendCommand(staticCmd: array<char>, dynamicCmd: array<char>) returns (merged: array<char>)
    requires staticCmd != dynamicCmd && Terminated(staticCmd[..]) && Terminated(dynamicCmd[..])
    modifies staticCmd, dynamicCmd
    ensures fresh(merged) && Terminated(merged[..])
    ensures Text(merged[..]) == Merged(old(Text(staticCmd[..])), old(Text(dynamicCmd[..])))
  {
    ghost var s, d := Text(staticCmd[..]), Text(dynamicCmd[..]);
    var staticLen, dynamicLen := Length(staticCmd[..]), Length(dynamicCmd[..]);
    if staticLen > 0 && staticCmd[staticLen - 1] == QUOTE {
      staticCmd[staticLen - 1] := NUL;
      staticLen := staticLen - 1;
    }
    if dynamicCmd[0] == QUOTE {
      dynamicCmd[0] := ';';
    }
    assert staticCmd[..staticLen] + dynamicCmd[..dynamicLen] == Merged(s, d);
    merged := Concatenated(staticCmd[..staticLen], dynamicCmd[..dynamicLen]);
  }

  /** realloc and strcat. */
  method Concatenated(a: string, b: string) returns (c: array<char>)
    requires NUL !in a + b
    ensures fresh(c) && Terminated(c[..]) && Text(c[..]) == a + b
  {
    c := new char[|a| + |b| + 1](_ => NUL);
    CopyInto(c, 0, a);
    CopyInto(c, |a|, b);
    assert c[..|a| + |b|] == a + b;
    Finish(c, |a| + |b|, a + b);
  }

  // ----- the output directory -----

  /** Leftmost replacement of every macro. */
  function Replaced(s: string, dir: string): string {
    if |s| < |MACRO| then s
    else if s[..|MACRO|] == MACRO then dir + Replaced(s[|MACRO|..], dir)
    else [s[0]] + Replaced(s[1..], dir)
  }

  /** How many macros are replaced. */
  function Matches(s: string): nat {
    if |s| < |MACRO| then 0
    else if s[..|MACRO|] == MACRO then 1 + Matches(s[|MACRO|..])
    else Matches(s[1..])
  }

  lemma {:induction false} ReplacedLength(s: string, dir: string)
    ensures |Replaced(s, dir)| == |s| + Matches(s) * (|dir| - |MACRO|)
    ensures Matches(s) * |MACRO| <= |s|
  {
    if |s| < |MACRO| {
    } else {
      if s[..|MACRO|] == MACRO {
        ReplacedLength(s[|MACRO|..], dir);
        OneMore(Matches(s[|MACRO|..]), |dir| - |MACRO|);
      } else {
        ReplacedLength(s[1..], dir);
      }
    }
  }

  lemma OneMore(n: int, d: int)
    ensures (1 + n) * d == n * d + d
  {
  }

  /** Text without a macro is kept. */
  lemma {:induction false} ReplacedSkip(s: string, dir: string, from: nat, at: nat)
    requires from <= at <= |s| && forall i: nat :: from <= i < at ==> !OccursAt(s, MACRO, i)
    ensures Replaced(s[from..], dir) == s[from..at] + Replaced(s[at..], dir)
    ensures Matches(s[from..]) == Matches(s[at..])
    decreases at - from
  {
    if from == at {
      assert s[from..at] == [];
    } else {
      ReplacedSkip(s, dir, from + 1, at);
      var u := s[from..];
      assert !OccursAt(s, MACRO, from);
      assert |u| >= |MACRO| ==> s[from..from + |MACRO|] == u[..|MACRO|];
      assert u[1..] == s[from + 1..] && s[from..at] == [u[0]] + s[from + 1..at];
      if |u| < |MACRO| {
        assert u == s[from..at] + s[at..];
      } else {
        Assoc([u[0]], s[from + 1..at], Replaced(s[at..], dir));
      }
    }
  }

  const SIZE_MAX_1 := 0x1_0000_0000_0000_0000  // one more than the largest size_t

  /** size_t arithmetic. */
  function Wrap(x: int): nat { x % SIZE_MAX_1 }

  /** The wrapping product and sum give the true length, also when the directory is shorter than the macro. */
  lemma WrappedLength(cmdlen: nat, cnt: nat, dirlen: nat, deflen: nat)
    requires dirlen < SIZE_MAX_1 && deflen < SIZE_MAX_1
    requires 0 <= cmdlen + cnt * (dirlen - deflen) < SIZE_MAX_1
    ensures Wrap(cmdlen + Wrap(cnt * Wrap(dirlen - deflen))) == cmdlen + cnt * (dirlen - deflen)
  {
    var d := dirlen - deflen;
    var k := if d < 0 then 1 else 0;
    assert Wrap(d) == d + k * SIZE_MAX_1;
    Distribute(cnt, d, k * SIZE_MAX_1);
    var p := cnt * Wrap(d);
    assert p == cnt * d + (cnt * k) * SIZE_MAX_1;
    var q := p / SIZE_MAX_1;
    assert Wrap(p) == p - q * SIZE_MAX_1;
    Residue(cmdlen + cnt * d, cnt * k - q);
  }

  lemma Distribute(a: int, b: int, c: int)
    ensures a * (b + c) == a * b + a * c
  {
  }

  lemma Residue(x: int, k: int)
    requires 0 <= x < SIZE_MAX_1
    ensures (x + k * SIZE_MAX_1) % SIZE_MAX_1 == x
  {
  }

  method ReplaceRRDLocation(commandStr: array<char>, dir: string) returns (data: array<char>)
    requires Terminated(commandStr[..]) && NUL !in dir && |dir| < SIZE_MAX_1
    requires |Replaced(Text(commandStr[..]), dir)| + 1 < SIZE_MAX_1
    ensures fresh(data) && Terminated(data[..])
    ensures Text(data[..]) == Replaced(Text(commandStr[..]), dir)
    ensures data.Length == |Replaced(Text(commandStr[..]), dir)| + 1
  {
    ghost var s := Text(commandStr[..]);
    var command := Text(commandStr[..]);
    var cnt := CountMacros(command);
    ReplacedLength(s, dir);
    WrappedLength(|command|, cnt, |dir|, |MACRO|);
    var datalen := Wrap(|command| + Wrap(cnt * Wrap(|dir| - |MACRO|)));
    data := new char[datalen + 1](_ => NUL);
    CopyReplacing(command, dir, data);
  }

  /** The counting pass. */
  method CountMacros(command: string) returns (cnt: nat)
    ensures cnt == Matches(command)
  {
    cnt := 0;
    var iterptr := 0;
    var matchptr := StrStr(command, MACRO, 0);
    assert command[0..] == command;
    while matchptr.Some?
      invariant 0 <= iterptr <= |command| && matchptr == StrStr(command, MACRO, iterptr)
      invariant cnt + Matches(command[iterptr..]) == Matches(command)
      decreases |command| - iterptr
    {
      MatchStep(command, "", iterptr, matchptr.value);
      cnt := cnt + 1;
      iterptr := matchptr.value + |MACRO|;
      matchptr := StrStr(command, MACRO, iterptr);
    }
    LastStretch(command, "", iterptr);
  }

  lemma MatchStep(s: string, dir: string, from: nat, at: nat)
    requires from <= at && OccursAt(s, MACRO, at)
    requires forall i: nat :: from <= i < at ==> !OccursAt(s, MACRO, i)
    ensures Matches(s[from..]) == 1 + Matches(s[at + |MACRO|..])
    ensures Replaced(s[from..], dir) == s[from..at] + (dir + Replaced(s[at + |MACRO|..], dir))
  {
    ReplacedSkip(s, dir, from, at);
    assert s[at..][..|MACRO|] == s[at..at + |MACRO|] && s[at..][|MACRO|..] == s[at + |MACRO|..];
  }

  lemma LastStretch(s: string, dir: string, from: nat)
    requires from <= |s| && forall i: nat :: from <= i ==> !OccursAt(s, MACRO, i)
    ensures Matches(s[from..]) == 0 && Replaced(s[from..], dir) == s[from..]
  {
    ReplacedSkip(s, dir, from, |s|);
    assert s[|s|..] == [] && s[from..|s|] == s[from..];
  }

  /** The copying pass: it finds the same macros and fills the buffer exactly. */
  method CopyReplacing(command: string, dir: string, data: array<char>)
    requires NUL !in command && NUL !in dir && data.Length == |Replaced(command, dir)| + 1
    modifies data
    ensures Terminated(data[..]) && Text(data[..]) == Replaced(command, dir)
  {
    hide Replaced, Text, Length;
    NoNulReplaced(command, dir);
    ghost var goal := Replaced(command, dir);
    ghost var done: string := "";
    var iterptr, tempptr := 0, 0;
    var matchptr := StrStr(command, MACRO, 0);
    assert command[0..] == command;
    while matchptr.Some?
      invariant 0 <= iterptr <= |command| && matchptr == StrStr(command, MACRO, iterptr)
      invariant done + Replaced(command[iterptr..], dir) == goal && tempptr == |done|
      invariant data[..tempptr] == done
      decreases |command| - iterptr
    {
      MatchStep(command, dir, iterptr, matchptr.value);
      ghost var rest := Replaced(command[matchptr.value + |MACRO|..], dir);
      var skipped := command[iterptr..matchptr.value];
      CopiedParts(done, skipped, dir, rest);
      CopyBoth(data, tempptr, skipped, dir);
      tempptr := tempptr + |skipped| + |dir|;
      done := done + skipped + dir;
      iterptr := matchptr.value + |MACRO|;
      matchptr := StrStr(command, MACRO, iterptr);
    }
    LastStretch(command, dir, iterptr);
    CopyInto(data, tempptr, command[iterptr..]);
    Finish(data, tempptr + |command| - iterptr, goal);
  }

  /** A stretch without macro and the directory that replaces the macro after it. */
  method CopyBoth(data: array<char>, at: nat, skipped: string, dir: string)
    requires at + |skipped| + |dir| <= data.Length
    modifies data
    ensures data[..at + |skipped| + |dir|] == old(data[..at]) + skipped + dir
  {
    CopyInto(data, at, skipped);
    CopyInto(data, at + |skipped|, dir);
  }

  lemma CopiedParts(a: string, b: string, c: string, d: string)
    ensures a + (b + (c + d)) == (a + b + c) + d
    ensures |a + (b + (c + d))| == |a| + |b| + |c| + |d|
  {
  }

  /** strncpy of a string that has the given length. */
  method CopyInto(data: array<char>, at: nat, s: string)
    requires at + |s| <= data.Length
    modifies data
    ensures data[..at + |s|] == old(data[..at]) + s
    ensures data[at + |s|..] == old(data[at + |s|..])
  {
    ghost var was := data[..at];
    forall k | 0 <= k < |s| {
      data[at + k] := s[k];
    }
    assert data[..at + |s|] == was + s;
  }

  lemma {:induction false} NoNulReplaced(s: string, dir: string)
    requires NUL !in s && NUL !in dir
    ensures NUL !in Replaced(s, dir)
  {
    if |s| < |MACRO| {
    } else {
      if s[..|MACRO|] == MACRO {
        NoNulReplaced(s[|MACRO|..], dir);
      } else {
        NoNulReplaced(s[1..], dir);
      }
    }
  }

  /** What executeCommands gives to the shell. */
  function ShellText(cmd: string, dir: string): string { Unquoted(Replaced(cmd, dir)) }

  method PrepareCommand(command: array<char>, dir: string) returns (text: array<char>)
    requires Terminated(command[..]) && NUL !in dir && |dir| < SIZE_MAX_1
    requires |Replaced(Text(command[..]), dir)| + 1 < SIZE_MAX_1
    modifies command
    ensures Terminated(text[..]) && Text(text[..]) == ShellText(old(Text(command[..])), dir)
  {
    text := command;
    if StrStr(Text(command[..]), MACRO, 0).Some? {
      text := ReplaceRRDLocation(command, dir);
    } else {
      LastStretch(Text(command[..]), dir, 0);
      assert Text(command[..])[0..] == Text(command[..]);
    }
    RemoveQuotes(text);
  }
}
