/** One issue token: its base and suffix, its nodes, the names derived from it. */
module IssueName {
  import opened CString
  import opened Wrappers
  import opened IssueText
  import opened IssueList

  const MAX_SUFFIX := 9  // RRD_MAX_SUFFIX_LEN, the leading underscore included

  function Prefix(s: string, n: nat): string {
    if |s| <= n then s else s[..n]
  }

  predicate IsSuffixChar(c: char) { IsAlnum(c) || c == '_' || c == '-' }

  /** The part of a token before its first underscore, as far as the buffer holds it. */
  function BaseOf(input: string, size: nat): string
    requires size > 0
  {
    Prefix(input[..RunLength(input, UNDERSCORE)], size - 1)
  }

  /** The rest of the token when it is short enough, without unsafe characters. */
  function SuffixOf(input: string, size: nat): string
    requires size > 0
  {
    var tail := input[RunLength(input, UNDERSCORE)..];
    if |tail| <= MAX_SUFFIX then Prefix(Filter(IsSuffixChar, tail), size - 1) else ""
  }

  /** Store a string and its terminator at the front of a buffer. */
  method Store(buf: array<char>, s: string)
    requires |s| < buf.Length && NUL !in s
    modifies buf
    ensures Terminated(buf[..]) && Text(buf[..]) == s
  {
    forall i | 0 <= i < |s| {
      buf[i] := s[i];
    }
    Finish(buf, |s|, s);
  }

  method SplitIssueType(input: string, base: array<char>, suffix: array<char>)
    requires NUL !in input && base != suffix && base.Length > 0 && suffix.Length > 0
    modifies base, suffix
    ensures Terminated(base[..]) && Text(base[..]) == BaseOf(input, base.Length)
    ensures Terminated(suffix[..]) && Text(suffix[..]) == SuffixOf(input, suffix.Length)
  {
    var underscore := RunLength(input, UNDERSCORE);  // strchr, or the end of the string
    var bLen := underscore;
    if bLen >= base.Length {
      bLen := base.Length - 1;
    }
    assert input[..underscore][..bLen] == input[..bLen];
    Store(base, input[..bLen]);
    if |input| - underscore <= MAX_SUFFIX {
      CopySuffix(input[underscore..], suffix);
    } else {
      Store(suffix, "");
    }
  }

  /** The sanitizing loop: it stops at the end of the suffix or when the buffer is full. */
  method CopySuffix(tail: string, suffix: array<char>)
    requires suffix.Length > 0 && NUL !in tail
    modifies suffix
    ensures Terminated(suffix[..]) && Text(suffix[..]) == Prefix(Filter(IsSuffixChar, tail), suffix.Length - 1)
  {
    hide Filter;
    ghost var kept: string := "";
    FilterSteps(IsSuffixChar, tail, 0);
    var si, di := 0, 0;
    while si < |tail| && di < suffix.Length - 1
      invariant 0 <= si <= |tail| && 0 <= di == |kept| <= suffix.Length - 1
      invariant kept == Filter(IsSuffixChar, tail[..si])
      invariant forall k :: 0 <= k < di ==> suffix[k] == kept[k]
      decreases |tail| - si
    {
      FilterSteps(IsSuffixChar, tail, si);
      if IsSuffixChar(tail[si]) {
        kept := kept + [tail[si]];
        suffix[di] := tail[si];
        di := di + 1;
      }
      si := si + 1;
    }
    FilterPrefix(IsSuffixChar, tail, si);
    assert si == |tail| ==> tail[..si] == tail;
    assert kept == Prefix(Filter(IsSuffixChar, tail), suffix.Length - 1);
    Finish(suffix, di, kept);
  }

  lemma FilterSteps(keep: char -> bool, s: string, i: nat)
    requires i <= |s|
    ensures Filter(keep, s[..0]) == ""
    ensures i < |s| ==> Filter(keep, s[..i + 1]) == Filter(keep, s[..i]) + (if keep(s[i]) then [s[i]] else [])
  {
    assert i < |s| ==> s[..i + 1][..i] == s[..i];
  }

  lemma {:induction false} FilterPrefix(keep: char -> bool, s: string, n: nat)
    requires n <= |s|
    ensures |Filter(keep, s[..n])| <= |Filter(keep, s)|
    ensures Filter(keep, s)[..|Filter(keep, s[..n])|] == Filter(keep, s[..n])
  {
    assert s == s[..n] + s[n..];
    FilterConcat(keep, s[..n], s[n..]);
  }

  predicate Clean(tail: string) {
    |tail| <= MAX_SUFFIX && forall c :: c in tail ==> IsSuffixChar(c)
  }

  lemma BaseLaws(input: string, size: nat)
    requires size > 0
    ensures var u := RunLength(input, UNDERSCORE);
            && UNDERSCORE !in BaseOf(input, size)
            && |BaseOf(input, size)| <= u
            && (BaseOf(input, size) == input[..u] <==> u < size)
  {
  }

  lemma SuffixLaws(input: string, size: nat)
    requires size > MAX_SUFFIX
    ensures var tail, suffix := input[RunLength(input, UNDERSCORE)..], SuffixOf(input, size);
            && Clean(suffix)
            && |suffix| <= |tail|
            && (suffix != "" ==> suffix[0] == UNDERSCORE)
            && (suffix == tail <==> Clean(tail))
            && (|suffix| == |tail| ==> suffix == tail)
  {
    var tail := input[RunLength(input, UNDERSCORE)..];
    FilterAll(IsSuffixChar, tail);
    if tail != [] {
      UnderscoreKept(tail);
    }
  }

  lemma UnderscoreKept(tail: string)
    requires tail != [] && tail[0] == UNDERSCORE
    ensures Filter(IsSuffixChar, tail) != [] && Filter(IsSuffixChar, tail)[0] == UNDERSCORE
  {
    assert tail == [UNDERSCORE] + tail[1..];
    FilterConcat(IsSuffixChar, [UNDERSCORE], tail[1..]);
    FilterAll(IsSuffixChar, [UNDERSCORE]);
  }

  /** The base never holds an underscore; the suffix has at most nine characters, all safe, and begins with an
      underscore when it is not empty; and together they are the token exactly when nothing had to be dropped. */
  lemma SplitIssueTypeLaws(input: string, size: nat)
    requires size > MAX_SUFFIX
    ensures UNDERSCORE !in BaseOf(input, size)
    ensures Clean(SuffixOf(input, size))
    ensures SuffixOf(input, size) != "" ==> SuffixOf(input, size)[0] == UNDERSCORE
    ensures BaseOf(input, size) + SuffixOf(input, size) == input <==>
            RunLength(input, UNDERSCORE) < size && Clean(input[RunLength(input, UNDERSCORE)..])
  {
    hide BaseOf, SuffixOf, Clean;
    BaseLaws(input, size);
    SuffixLaws(input, size);
    var u := RunLength(input, UNDERSCORE);
    var base, suffix := BaseOf(input, size), SuffixOf(input, size);
    assert input == input[..u] + input[u..];
    assert |base| == u ==> (base + suffix)[..u] == base && (base + suffix)[u..] == suffix;
  }

  // ----- sanitizing the base -----

  predicate IsIssueChar(c: char) { IsAlnum(c) || c == ',' || c == '.' }

  function Sanitized(s: string): string { Filter(IsIssueChar, s) }

  /** removeSpecialCharacterfromIssueTypeList: two indices over one buffer. */
  method RemoveSpecialCharacters(str: array<char>)
    requires Terminated(str[..])
    modifies str
    ensures Terminated(str[..]) && Text(str[..]) == Sanitized(old(Text(str[..])))
  {
    ghost var s := Text(str[..]);
    var destination := KeepIssueChars(str, s);
    SanitizedKeeps(s);
    Finish(str, destination, Sanitized(s));
  }

  /** The loop: what is kept moves to the front of the buffer that holds s. */
  method KeepIssueChars(str: array<char>, ghost s: string) returns (destination: nat)
    requires |s| < str.Length && str[|s|] == NUL
    requires forall k :: 0 <= k < |s| ==> str[k] == s[k] != NUL
    modifies str
    ensures destination == |Sanitized(s)| <= |s|
    ensures forall k :: 0 <= k < destination ==> str[k] == Sanitized(s)[k]
  {
    hide Sanitized, IsIssueChar;
    ghost var kept: string := "";
    SanitizedSteps(s, 0);
    var source := 0;
    destination := 0;
    while str[source] != NUL
      invariant 0 <= destination <= source <= |s| && destination == |kept|
      invariant forall k :: source <= k < |s| ==> str[k] == s[k] != NUL
      invariant str[|s|] == NUL
      invariant kept == Sanitized(s[..source])
      invariant forall k :: 0 <= k < destination ==> str[k] == kept[k]
      decreases |s| - source
    {
      assert source != |s|;
      SanitizedSteps(s, source);
      if IsIssueChar(str[source]) {
        kept := kept + [str[source]];
        str[destination] := str[source];
        destination := destination + 1;
      }
      source := source + 1;
    }
    assert s[..source] == s;
  }

  lemma SanitizedSteps(s: string, i: nat)
    requires i <= |s|
    ensures Sanitized(s[..0]) == ""
    ensures i < |s| && IsIssueChar(s[i]) ==> Sanitized(s[..i + 1]) == Sanitized(s[..i]) + [s[i]]
    ensures i < |s| && !IsIssueChar(s[i]) ==> Sanitized(s[..i + 1]) == Sanitized(s[..i])
  {
    FilterSteps(IsIssueChar, s, i);
  }

  lemma SanitizedKeeps(s: string)
    requires NUL !in s
    ensures NUL !in Sanitized(s)
  {
  }

  const BASE_SIZE := 128

  /** What an issue token is processed as. */
  function IssueBase(token: string): string { Sanitized(BaseOf(token, BASE_SIZE)) }

  /** Processing is stable: a base contains only issue characters, is its own base, and, coming from a token, is the
      only token of the text it makes up. */
  lemma IssueBaseStable(token: string)
    ensures forall c :: c in IssueBase(token) ==> IsIssueChar(c)
    ensures IssueBase(IssueBase(token)) == IssueBase(token)
    ensures COMMA !in token ==> Split(IssueBase(token), COMMA) == [IssueBase(token)]
  {
    var base := IssueBase(token);
    assert forall i :: 0 <= i < |base| ==> base[i] in base && IsIssueChar(base[i]);
    RunLengthIs(base, UNDERSCORE, |base|);
    assert base[..|base|] == base;
    if COMMA !in token {
      assert COMMA !in BaseOf(token, BASE_SIZE);
      if base != "" {
        OneRun(base);
      }
    }
  }

  // ----- the append tag in the cache -----

  /** The issue string kept while a download is pending. */
  function CacheString(base: string, append: bool): string {
    if append then base + APPEND_SUFFIX else base
  }

  /** The tag says how the request was made, and taking it off gives the base back. */
  lemma CacheStringReadsBack(base: string, append: bool)
    requires UNDERSCORE !in base
    ensures EndsWith(CacheString(base, append), APPEND_SUFFIX) == append
    ensures Untagged(CacheString(base, append)) == base
  {
    var s := CacheString(base, append);
    if append {
      assert s[|s| - 5..] == APPEND_SUFFIX && s[..|s| - 5] == base;
    } else {
      assert |s| >= 5 ==> s[|s| - 5] in base && s[|s| - 5..][0] == s[|s| - 5] != UNDERSCORE;
    }
  }

  // ----- category and type -----

  function Dots(s: string): nat {
    if s == [] then 0 else Dots(s[..|s| - 1]) + (if s[|s| - 1] == DOT then 1 else 0)
  }

  /** getIssueInfo needs a category, and a type when there is a dot. */
  predicate HasNodes(issue: string) {
    |Runs(issue, DOT)| >= if DOT in issue then 2 else 1
  }

  function CategoryOf(issue: string): string
    requires HasNodes(issue)
  {
    Runs(issue, DOT)[0]
  }

  function TypeOf(issue: string): Option<string>
    requires HasNodes(issue)
  {
    if DOT in issue then Some(Runs(issue, DOT)[1]) else None
  }

  method GetParamCount(s: string) returns (nodes: nat)
    ensures nodes == Dots(s) && (nodes == 0 <==> DOT !in s)
  {
    nodes := 0;
    for i := 0 to |s|
      invariant nodes == Dots(s[..i]) && (nodes == 0 <==> DOT !in s[..i])
    {
      assert s[..i + 1] == s[..i] + [s[i]] && s[..i + 1][..i] == s[..i];
      if s[i] == DOT {
        nodes := nodes + 1;
      }
    }
    assert s[..|s|] == s;
  }

  lemma {:induction false} DotsConcat(a: string, b: string)
    ensures Dots(a + b) == Dots(a) + Dots(b)
  {
    if b == [] {
      assert a + b == a;
    } else {
      assert (a + b)[..|a + b| - 1] == a + b[..|b| - 1];
      DotsConcat(a, b[..|b| - 1]);
    }
  }

  /** The tokens strtok finds fit in an array of one more than the dots. */
  lemma {:induction false} RunsWithinDots(s: string)
    ensures |Runs(s, DOT)| <= Dots(s) + 1
    ensures s != [] && s[0] == DOT ==> |Runs(s, DOT)| <= Dots(s)
    decreases |s|
  {
    if s == [] {
    } else {
      if s[0] == DOT {
        RunsWithinDots(s[1..]);
        DotsConcat([DOT], s[1..]);
        assert [DOT] + s[1..] == s;
        assert Dots([DOT]) == 1 by { assert [DOT][..0] == []; }
      } else {
        var n := RunLength(s, DOT);
        RunsWithinDots(s[n..]);
        DotsConcat(s[..n], s[n..]);
        assert s[..n] + s[n..] == s;
      }
    }
  }

  datatype Nodes = Nodes(category: string, issueType: Option<string>)

  /** getIssueInfo; None when it reads a slot of its array that no token was put into. */
  method GetIssueInfo(issue: string) returns (info: Option<Nodes>)
    ensures info == if HasNodes(issue) then Some(Nodes(CategoryOf(issue), TypeOf(issue))) else None
  {
    var nodes := GetParamCount(issue);
    var names := new Option<string>[nodes + 1](_ => None);
    RunsWithinDots(issue);
    var tokens := Runs(issue, DOT);  // what successive strtok calls return
    for i := 0 to |tokens|
      invariant forall k :: 0 <= k < names.Length ==> names[k] == if k < i then Some(tokens[k]) else None
    {
      names[i] := Some(tokens[i]);
    }
    if names[0].None? || (nodes != 0 && names[1].None?) {
      return None;
    }
    info := Some(Nodes(names[0].value, if nodes != 0 then names[1] else None));
  }

  // ----- names of files -----

  function Upper(c: char): (u: char)
    ensures IsAlnum(c) ==> IsAlnum(u)
  {
    if 'a' <= c <= 'z' then (c as int - 32) as char else c
  }

  function ConvertChar(c: char): string {
    if IsAlnum(c) then [Upper(c)] else if c == '_' || c == '.' then "_" else if c == '-' then "-" else ""
  }

  function Converted(s: string): (r: string)
    ensures |r| <= |s|
    ensures forall c :: c in r ==> (IsAlnum(c) && Upper(c) == c) || c == '_' || c == '-'
  {
    if s == [] then [] else Converted(s[..|s| - 1]) + ConvertChar(s[|s| - 1])
  }

  /** rrd_logproc_convert_issue_type. */
  method ConvertIssueType(input: string, output: array<char>) returns (rc: int)
    requires NUL !in input
    modifies output
    ensures rc == (if |input| < output.Length then 0 else -1)
    ensures rc == 0 ==> Terminated(output[..]) && Text(output[..]) == Converted(input)
    ensures rc != 0 ==> output[..] == old(output[..])
  {
    if output.Length == 0 || |input| >= output.Length {
      return -1;
    }
    var j := ConvertInto(input, output);
    Finish(output, j, Converted(input));
    rc := 0;
  }

  /** The loop: one output character at most for each input character. */
  method ConvertInto(input: string, output: array<char>) returns (j: nat)
    requires |input| < output.Length
    modifies output
    ensures j == |Converted(input)| <= |input|
    ensures forall k :: 0 <= k < j ==> output[k] == Converted(input)[k]
  {
    hide Converted, Upper, IsAlnum;
    ghost var done: string := "";
    ConvertedSteps(input, 0);
    var i := 0;
    j := 0;
    while i < |input| && j < output.Length - 1
      invariant 0 <= j <= i <= |input| && j == |done|
      invariant done == Converted(input[..i])
      invariant forall k :: 0 <= k < j ==> output[k] == done[k]
    {
      var c := input[i];
      ConvertedSteps(input, i);
      if IsAlnum(c) {
        output[j], done := Upper(c), done + [Upper(c)];
        j := j + 1;
      } else if c == '_' || c == '.' {
        output[j], done := '_', done + ['_'];
        j := j + 1;
      } else if c == '-' {
        output[j], done := '-', done + ['-'];
        j := j + 1;
      }
      i := i + 1;
    }
    assert input[..i] == input;
  }

  lemma ConvertedSteps(s: string, i: nat)
    requires i <= |s|
    ensures Converted(s[..0]) == ""
    ensures i < |s| && IsAlnum(s[i]) ==> Converted(s[..i + 1]) == Converted(s[..i]) + [Upper(s[i])]
    ensures i < |s| && (s[i] == '_' || s[i] == '.') ==> Converted(s[..i + 1]) == Converted(s[..i]) + ['_']
    ensures i < |s| && s[i] == '-' ==> Converted(s[..i + 1]) == Converted(s[..i]) + ['-']
    ensures i < |s| && !IsAlnum(s[i]) && s[i] != '_' && s[i] != '.' && s[i] != '-' ==>
              Converted(s[..i + 1]) == Converted(s[..i])
  {
    assert i < |s| ==> s[..i + 1][..i] == s[..i];
  }

  function Normalized(s: string): (r: string)
    ensures |r| == |s|
  {
    seq(|s|, i requires 0 <= i < |s| => if s[i] == '.' then '_' else s[i])
  }

  /** normalizeIssueName: dots become underscores, in place. */
  method NormalizeIssueName(str: array<char>)
    requires Terminated(str[..])
    modifies str
    ensures Terminated(str[..]) && Text(str[..]) == Normalized(old(Text(str[..])))
    ensures |Text(str[..])| == |old(Text(str[..]))|
    ensures forall k :: 0 <= k < |Text(str[..])| ==>
              Text(str[..])[k] == var c := old(Text(str[..]))[k]; if c == '.' then '_' else c
  {
    ghost var s := Text(str[..]);
    var len := Length(str[..]);
    for index := 0 to len
      invariant forall k :: 0 <= k < index ==> str[k] == Normalized(s)[k]
      invariant forall k :: index <= k < str.Length ==> str[k] == old(str[k])
    {
      if str[index] == '.' {
        str[index] := '_';
      }
    }
    TextIs(str[..], len);
    assert str[..len] == Normalized(s);
  }

  /** Converting twice is converting once. */
  lemma {:induction false} ConversionIdempotent(s: string)
    ensures Converted(Converted(s)) == Converted(s)
  {
    if s == [] {
    } else {
      var init, c := s[..|s| - 1], s[|s| - 1];
      ConversionIdempotent(init);
      if ConvertChar(c) == "" {
        assert Converted(s) == Converted(init);
      } else {
        assert Converted(s) == Converted(init) + [ConvertChar(c)[0]];
        assert Converted(s)[..|Converted(s)| - 1] == Converted(init);
      }
    }
  }

  /** Normalizing a name first changes nothing. */
  lemma {:induction false} ConversionOfNormalized(s: string)
    ensures Converted(Normalized(s)) == Converted(s)
  {
    hide Normalized, Converted;
    if s == [] {
      assert Normalized(s) == s;
    } else {
      var init, c := s[..|s| - 1], s[|s| - 1];
      ConversionOfNormalized(init);
      NormalizedLast(s);
      ConvertedSteps(Normalized(s), |s| - 1);
      ConvertedSteps(s, |s| - 1);
      assert s[..|s|] == s && Normalized(s)[..|s|] == Normalized(s);
    }
  }

  lemma NormalizedLast(s: string)
    requires s != []
    ensures Normalized(s)[..|s| - 1] == Normalized(s[..|s| - 1])
    ensures Normalized(s)[|s| - 1] == if s[|s| - 1] == '.' then '_' else s[|s| - 1]
  {
  }

  const ARCHIVE_SUFFIX: string := "_RRD_DEBUG_LOGS.tgz"

  function ArchiveName(mac: string, issue: string, timestamp: string): string {
    mac + "_" + issue + "_" + timestamp + ARCHIVE_SUFFIX
  }

  /** rrd_archive_generate_filename. */
  method GenerateFilename(mac: string, issue: string, timestamp: string, filename: array<char>) returns (rc: int)
    requires NUL !in mac && NUL !in issue && NUL !in timestamp
    modifies filename
    ensures rc == (if 128 <= filename.Length && |ArchiveName(mac, issue, timestamp)| < filename.Length then 0 else -1)
    ensures rc == 0 ==> Terminated(filename[..]) && Text(filename[..]) == ArchiveName(mac, issue, timestamp)
  {
    if filename.Length < 128 {
      return -1;
    }
    var name := ArchiveName(mac, issue, timestamp);
    Store(filename, Prefix(name, filename.Length - 1));
    rc := if |name| >= filename.Length then -1 else 0;
  }

  lemma SplitAtFirst(a: string, b: string, c: string, d: string)
    requires UNDERSCORE !in a && UNDERSCORE !in c && a + "_" + b == c + "_" + d
    ensures a == c && b == d
  {
    var s := a + "_" + b;
    RunLengthIs(s, UNDERSCORE, |a|);
    RunLengthIs(s, UNDERSCORE, |c|);
    assert s[..|a|] == a && s[..|c|] == c && s[|a| + 1..] == b && s[|c| + 1..] == d;
  }

  lemma SplitAtLast(a: string, b: string, c: string, d: string)
    requires UNDERSCORE !in b && UNDERSCORE !in d && a + "_" + b == c + "_" + d
    ensures a == c && b == d
  {
    var s := a + "_" + b;
    LastUnderscore(a, b);
    LastUnderscore(c, d);
    assert |a| == |c|;
    assert s[..|a|] == a && s[..|c|] == c && s[|a| + 1..] == b && s[|c| + 1..] == d;
  }

  lemma LastUnderscore(a: string, b: string)
    requires UNDERSCORE !in b
    ensures var s := a + "_" + b; s[|a|] == UNDERSCORE && forall k :: |a| < k < |s| ==> s[k] != UNDERSCORE
  {
    var s := a + "_" + b;
    assert forall k :: |a| < k < |s| ==> s[k] == b[k - |a| - 1] && b[k - |a| - 1] in b;
  }

  /** Different reports get different names: neither a MAC address nor a timestamp holds an underscore. */
  lemma ArchiveNameInjective(mac: string, issue: string, ts: string, mac': string, issue': string, ts': string)
    requires UNDERSCORE !in mac && UNDERSCORE !in mac' && UNDERSCORE !in ts && UNDERSCORE !in ts'
    requires ArchiveName(mac, issue, ts) == ArchiveName(mac', issue', ts')
    ensures mac == mac' && issue == issue' && ts == ts'
  {
    var name := ArchiveName(mac, issue, ts);
    var x, y := mac + "_" + issue + "_" + ts, mac' + "_" + issue' + "_" + ts';
    assert x == name[..|name| - |ARCHIVE_SUFFIX|] == y;
    SplitAtLast(mac + "_" + issue, ts, mac' + "_" + issue', ts');
    SplitAtFirst(mac, issue, mac', issue');
  }

  // ----- what the pieces of a name are -----

  /** The letters and digits of ASCII, by their codes. */
  predicate LetterOrDigit(c: char) {
    48 <= c as int <= 57 || 65 <= c as int <= 90 || 97 <= c as int <= 122
  }

  lemma Alphabet(c: char)
    ensures IsAlnum(c) <==> LetterOrDigit(c)
    ensures IsIssueChar(c) <==> LetterOrDigit(c) || c == ',' || c == '.'
    ensures IsSuffixChar(c) <==> LetterOrDigit(c) || c == '_' || c == '-'
  {
  }

  /** Small letters become the capitals 32 places before, and no other character changes. */
  lemma UpperIs(c: char)
    ensures Upper(c) as int == if 97 <= c as int <= 122 then c as int - 32 else c as int
  {
  }

  /** Conversion works character by character. */
  lemma {:induction false} ConvertedConcat(a: string, b: string)
    ensures Converted(a + b) == Converted(a) + Converted(b)
  {
    hide ConvertChar;
    if b == [] {
      assert a + b == a;
    } else {
      var init, c := b[..|b| - 1], b[|b| - 1];
      assert (a + b)[..|a + b| - 1] == a + init;
      ConvertedConcat(a, init);
      assert (Converted(a) + Converted(init)) + ConvertChar(c) == Converted(a) + (Converted(init) + ConvertChar(c));
    }
  }

  /** And each is converted to its capital, to an underscore, to itself or to nothing. */
  lemma ConvertedOne(c: char)
    ensures Converted([]) == []
    ensures Converted([c]) == if LetterOrDigit(c) then [Upper(c)]
                              else if c == '_' || c == '.' then "_" else if c == '-' then "-" else ""
  {
    hide IsAlnum, Upper;
    Alphabet(c);
    assert [c][..0] == [];
    assert [] + ConvertChar(c) == ConvertChar(c);
  }

  /** So does sanitizing. */
  lemma SanitizedConcat(a: string, b: string)
    ensures Sanitized(a + b) == Sanitized(a) + Sanitized(b) && Sanitized([]) == []
    ensures |b| == 1 ==> Sanitized(b) == if LetterOrDigit(b[0]) || b[0] == ',' || b[0] == '.' then b else []
  {
    FilterConcat(IsIssueChar, a, b);
    if |b| == 1 {
      Alphabet(b[0]);
      assert b[..0] == [] && b == [b[0]];
    }
  }

  /** What comes of a token: its letters, digits, commas and dots, up to the first underscore. */
  lemma BaseOfToken(base: string, rest: string)
    requires |base| < 128 && UNDERSCORE !in base
    ensures IssueBase(base) == Sanitized(base) && IssueBase(base + "_" + rest) == Sanitized(base)
  {
    RunLengthIs(base, UNDERSCORE, |base|);
    assert base[..|base|] == base;
    var s := base + "_" + rest;
    RunLengthIs(s, UNDERSCORE, |base|);
    assert s[..|base|] == base;
  }

  /** And its suffix, when it has at most nine characters, all of them safe. */
  lemma SuffixOfToken(base: string, rest: string)
    requires |base| < 128 && UNDERSCORE !in base
    ensures SuffixOf(base, 128) == ""
    ensures |rest| <= 8 && (forall c :: c in rest ==> LetterOrDigit(c) || c == '_' || c == '-') ==>
              SuffixOf(base + "_" + rest, 128) == "_" + rest
    ensures |rest| > 8 ==> SuffixOf(base + "_" + rest, 128) == ""
  {
    RunLengthIs(base, UNDERSCORE, |base|);
    var s := base + "_" + rest;
    RunLengthIs(s, UNDERSCORE, |base|);
    assert s[|base|..] == "_" + rest && base[|base|..] == [];
    if forall c :: c in rest ==> LetterOrDigit(c) || c == '_' || c == '-' {
      forall c | c in "_" + rest
        ensures IsSuffixChar(c)
      {
        Alphabet(c);
      }
      FilterAll(IsSuffixChar, "_" + rest);
    }
  }

  /** The first part is the category, the second the type, and what follows does not matter. */
  lemma NodesOfIssue(category: string, name: string, rest: string)
    requires category != "" && DOT !in category && name != "" && DOT !in name && (rest == "" || rest[0] == DOT)
    ensures HasNodes(category) && CategoryOf(category) == category && TypeOf(category) == None
    ensures var issue := category + "." + name + rest;
            HasNodes(issue) && CategoryOf(issue) == category && TypeOf(issue) == Some(name)
  {
    RunLengthIs(category, DOT, |category|);
    assert category[..|category|] == category && category[|category|..] == [];
    var tail := name + rest;
    var issue := category + "." + name + rest;
    RunLengthIs(issue, DOT, |category|);
    assert issue[..|category|] == category && issue[|category|..] == "." + tail;
    RunLengthIs(tail, DOT, |name|);
    assert tail[..|name|] == name;
    assert ("." + tail)[1..] == tail;
    assert Runs("." + tail, DOT) == Runs(tail, DOT);
    assert issue[|category|] == DOT;
  }

  /** The name of an archive: the MAC address first, the timestamp last before the ending, the issue between them. */
  lemma ArchiveNameParts(mac: string, issue: string, timestamp: string)
    ensures var name, ending := ArchiveName(mac, issue, timestamp), "_" + timestamp + "_RRD_DEBUG_LOGS.tgz";
            && mac + "_" <= name && EndsWith(name, ending)
            && |name| == |mac| + 1 + |issue| + |ending|
            && name[|mac| + 1..|name| - |ending|] == issue
  {
    var ending := "_" + timestamp + "_RRD_DEBUG_LOGS.tgz";
    assert ArchiveName(mac, issue, timestamp) == (mac + "_") + issue + ending;
    InTheMiddle(mac + "_", issue, ending);
  }

  lemma InTheMiddle(a: string, b: string, c: string)
    ensures a <= a + b + c && EndsWith(a + b + c, c) && (a + b + c)[|a|..|a| + |b|] == b
  {
  }
}
