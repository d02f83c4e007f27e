/** An issue list on its way to the queue: the strings of a msgpack array joined into one text, the append tag
    taken off, and the text split again by the receiver. */
module IssueList {
  import opened CString
  import opened IssueText

  /** An element of the IssueType array. */
  datatype ArrayItem = Str(text: string) | NotString

  function Strings(items: seq<ArrayItem>): seq<string> {
    if items == [] then []
    else Strings(items[..|items| - 1]) + match items[|items| - 1] case Str(t) => [t] case NotString => []
  }

  /** strncat stops at a NUL in its source. */
  function Cut(s: string): (c: string)
    ensures |c| <= |s| && NUL !in c && (NUL !in s ==> c == s)
  {
    s[..RunLength(s, NUL)]
  }

  /** What the i-th item adds to the list: a string and, unless the item is the last of the array, a comma. */
  function Piece(items: seq<ArrayItem>, i: nat): string
    requires i < |items|
  {
    match items[i]
    case Str(t) => Cut(t) + (if i < |items| - 1 then [COMMA] else [])
    case NotString => []
  }

  function Joined(items: seq<ArrayItem>, n: nat): (s: string)
    requires n <= |items|
    ensures NUL !in s
  {
    if n == 0 then [] else Joined(items, n - 1) + Piece(items, n - 1)
  }

  function SizeUpTo(items: seq<ArrayItem>, n: nat): nat
    requires n <= |items|
  {
    if n == 0 then 0
    else SizeUpTo(items, n - 1) + match items[n - 1] case Str(t) => |t| case NotString => 0
  }

  method GetReqTotalSize(items: seq<ArrayItem>) returns (size: nat)
    ensures size == SizeUpTo(items, |items|) + |items| + 1
  {
    size := 0;
    for index := 0 to |items|
      invariant size == SizeUpTo(items, index)
    {
      match items[index] {
        case Str(t) => size := size + |t|;
        case NotString =>
      }
    }
    size := size + |items| + 1;
  }

  lemma JoinedFits(items: seq<ArrayItem>, n: nat)
    requires n <= |items|
    ensures |Joined(items, n)| <= SizeUpTo(items, n) + n <= SizeUpTo(items, |items|) + |items|
  {
    SizeGrows(items, n);
    JoinedLength(items, n);
  }

  lemma {:induction false} SizeGrows(items: seq<ArrayItem>, n: nat)
    requires n <= |items|
    ensures SizeUpTo(items, n) <= SizeUpTo(items, |items|)
    decreases |items| - n
  {
    if n >= |items| {
    } else {
      SizeGrows(items, n + 1);
    }
  }

  lemma {:induction false} JoinedLength(items: seq<ArrayItem>, n: nat)
    requires n <= |items|
    ensures |Joined(items, n)| <= SizeUpTo(items, n) + n
  {
    if n == 0 {
    } else {
      JoinedLength(items, n - 1);
    }
  }

  /** strncat of a whole string: the buffer must have room for what is copied and the terminator. */
  method StrNCat(buf: array<char>, src: string)
    requires Terminated(buf[..]) && Length(buf[..]) + |Cut(src)| < buf.Length
    modifies buf
    ensures Terminated(buf[..]) && Text(buf[..]) == old(Text(buf[..])) + Cut(src)
  {
    ghost var was := Text(buf[..]);
    ghost var room := RunLength(src, NUL);
    var end := Length(buf[..]);
    var i := 0;
    while i < |src| && src[i] != NUL
      invariant 0 <= i <= room
      invariant buf[..end] == was
      invariant forall k :: 0 <= k < i ==> buf[end + k] == src[k]
    {
      buf[end + i] := src[i];
      i := i + 1;
    }
    assert i == room;
    assert buf[..end + i] == was + Cut(src);
    Finish(buf, end + i, was + Cut(src));
  }

  /** The joining loop, into a buffer of the computed size: every write stays inside it. */
  method BuildCommandList(items: seq<ArrayItem>) returns (commandList: array<char>)
    ensures fresh(commandList) && Terminated(commandList[..])
    ensures Text(commandList[..]) == Joined(items, |items|)
  {
    hide Text, Cut, SizeUpTo;
    var resultLen := GetReqTotalSize(items);
    commandList := new char[resultLen + 1](_ => NUL);
    TextIs(commandList[..], 0);
    for index := 0 to |items|
      invariant Terminated(commandList[..]) && Text(commandList[..]) == Joined(items, index)
    {
      JoinedFits(items, index + 1);
      match items[index] {
        case Str(t) => AppendItem(commandList, t, index < |items| - 1);
        case NotString =>
      }
    }
    JoinedFits(items, |items|);
    Terminate(commandList, resultLen);
  }

  /** A terminator written at or behind the end of the string changes nothing. */
  method Terminate(buf: array<char>, k: nat)
    requires k < buf.Length && Terminated(buf[..]) && Length(buf[..]) <= k
    modifies buf
    ensures Terminated(buf[..]) && Text(buf[..]) == old(Text(buf[..]))
  {
    ghost var s := Text(buf[..]);
    buf[k] := NUL;
    TextIs(buf[..], |s|);
    assert buf[..|s|] == s;
  }

  method AppendItem(commandList: array<char>, t: string, more: bool)
    requires Terminated(commandList[..])
    requires Length(commandList[..]) + |Cut(t)| + (if more then 1 else 0) < commandList.Length
    modifies commandList
    ensures Terminated(commandList[..])
    ensures Text(commandList[..]) == old(Text(commandList[..])) + (Cut(t) + (if more then [COMMA] else []))
  {
    StrNCat(commandList, t);
    if more {
      StrNCat(commandList, [COMMA]);
    }
  }

  // ----- the append tag -----

  /** The text without a trailing "_apnd". */
  function Untagged(s: string): string {
    if EndsWith(s, APPEND_SUFFIX) then s[..|s| - 5] else s
  }

  /** checkAppendRequest: test for the tag and take it off in place. */
  method CheckAppendRequest(buf: array<char>) returns (append: bool)
    requires Terminated(buf[..])
    modifies buf
    ensures Terminated(buf[..])
    ensures append == EndsWith(old(Text(buf[..])), APPEND_SUFFIX)
    ensures Text(buf[..]) == Untagged(old(Text(buf[..])))
  {
    ghost var s := Text(buf[..]);
    var len := Length(buf[..]);
    append := false;
    if len >= 5 {
      if buf[len - 5..len] == APPEND_SUFFIX {
        assert s[|s| - 5..] == APPEND_SUFFIX;
        buf[len - 5] := NUL;
        TextIs(buf[..], len - 5);
        append := true;
      } else {
        assert s[|s| - 5..] == buf[len - 5..len];
      }
    }
  }

  // ----- joining then splitting -----

  lemma {:induction false} RunsConcat(a: string, b: string, d: char)
    requires a == [] || a[|a| - 1] == d || b == [] || b[0] == d
    ensures Runs(a + b, d) == Runs(a, d) + Runs(b, d)
    decreases |a|
  {
    if a == [] {
      assert a + b == b;
    } else if a[0] == d {
      assert (a + b)[1..] == a[1..] + b;
      RunsConcat(a[1..], b, d);
    } else {
      RunsConcat(a[RunLength(a, d)..], b, d);
      RunsConcatHead(a, b, d);
    }
  }

  lemma RunsConcatHead(a: string, b: string, d: char)
    requires a != [] && a[0] != d && (a[|a| - 1] == d || b == [] || b[0] == d)
    requires var rest := a[RunLength(a, d)..]; Runs(rest + b, d) == Runs(rest, d) + Runs(b, d)
    ensures Runs(a + b, d) == Runs(a, d) + Runs(b, d)
  {
    hide Runs, RunLength;
    var n := RunLength(a, d);
    RunsHead(a, d);
    RunsHead(a + b, d);
    RunLengthConcat(a, b, d);
    assert (a + b)[..n] == a[..n] && (a + b)[n..] == a[n..] + b;
    ConsConcat(a[..n], Runs(a[n..], d), Runs(b, d));
  }

  lemma RunLengthConcat(a: string, b: string, d: char)
    requires a != [] && (a[|a| - 1] == d || b == [] || b[0] == d)
    ensures RunLength(a + b, d) == RunLength(a, d)
  {
    RunLengthIs(a + b, d, RunLength(a, d));
  }

  lemma ConsConcat(x: string, a: seq<string>, b: seq<string>)
    ensures [x] + (a + b) == ([x] + a) + b
  {
  }

  lemma RunsHead(s: string, d: char)
    requires s != [] && s[0] != d
    ensures var n := RunLength(s, d); Runs(s, d) == [s[..n]] + Runs(s[n..], d)
  {
  }

  /** The runs of the pieces of a list, one after the other. */
  function PieceRuns(items: seq<ArrayItem>, n: nat): seq<string>
    requires n <= |items|
  {
    if n == 0 then []
    else PieceRuns(items, n - 1) + match items[n - 1] case Str(t) => Runs(Cut(t), COMMA) case NotString => []
  }

  lemma {:induction false} JoinedEndsInComma(items: seq<ArrayItem>, n: nat)
    requires n < |items|
    ensures Joined(items, n) == [] || Joined(items, n)[|Joined(items, n)| - 1] == COMMA
  {
    if n == 0 {
    } else {
      JoinedEndsInComma(items, n - 1);
    }
  }

  lemma {:induction false} RunsOfJoined(items: seq<ArrayItem>, n: nat)
    requires n <= |items|
    ensures Runs(Joined(items, n), COMMA) == PieceRuns(items, n)
  {
    hide Runs, Piece;
    if n == 0 {
      RunsOfNothing();
    } else {
      RunsOfJoined(items, n - 1);
      JoinedEndsInComma(items, n - 1);
      RunsConcat(Joined(items, n - 1), Piece(items, n - 1), COMMA);
      RunsOfPiece(items, n - 1);
    }
  }

  lemma RunsOfPiece(items: seq<ArrayItem>, i: nat)
    requires i < |items|
    ensures Runs(Piece(items, i), COMMA) == match items[i] case Str(t) => Runs(Cut(t), COMMA) case NotString => []
  {
    if items[i].Str? {
      var t := Cut(items[i].text);
      RunsConcat(t, [COMMA], COMMA);
      assert Runs([COMMA], COMMA) == Runs([COMMA][1..], COMMA) == [];
      assert t + [] == t;
    }
  }

  /** A nonempty text without commas is its own only run. */
  lemma OneRun(t: string)
    requires t != [] && COMMA !in t
    ensures Runs(t, COMMA) == [t]
  {
    RunLengthIs(t, COMMA, |t|);
    assert t[..|t|] == t && t[|t|..] == [];
  }

  predicate PlainItem(t: string) { t != [] && COMMA !in t && NUL !in t }

  lemma {:induction false} PlainPieces(items: seq<ArrayItem>, n: nat)
    requires n <= |items| && forall t :: t in Strings(items[..n]) ==> PlainItem(t)
    ensures PieceRuns(items, n) == Strings(items[..n])
  {
    if n == 0 {
    } else {
      assert items[..n][..n - 1] == items[..n - 1];
      PlainPieces(items, n - 1);
      if items[n - 1].Str? {
        assert items[n - 1].text in Strings(items[..n]);
        OneRun(items[n - 1].text);
      }
    }
  }

  predicate LastTagged(items: seq<ArrayItem>) {
    items != [] && items[|items| - 1].Str? && EndsWith(items[|items| - 1].text, APPEND_SUFFIX)
  }

  /** The text that reaches the queue. */
  function QueuedText(items: seq<ArrayItem>): string { Untagged(Joined(items, |items|)) }

  function Tail(last: ArrayItem): string {
    match last case Str(t) => Untagged(Cut(t)) case NotString => []
  }

  /** Taking the tag off the joined text takes it off the last string. */
  lemma UntaggedJoin(items: seq<ArrayItem>)
    requires items != []
    ensures QueuedText(items) == Joined(items, |items| - 1) + Tail(items[|items| - 1])
  {
    hide Untagged, Cut;
    var n := |items| - 1;
    JoinedEndsInComma(items, n);
    UntaggedConcat(Joined(items, n), Piece(items, n));
    if items[n].Str? {
      assert Piece(items, n) == Cut(items[n].text);
    } else {
      assert Piece(items, n) == [] && Untagged([]) == [] by { UntaggedNothing(); }
    }
  }

  lemma UntaggedNothing()
    ensures Untagged([]) == []
  {
  }

  lemma UntaggedConcat(a: string, b: string)
    requires a == [] || a[|a| - 1] == COMMA
    ensures Untagged(a + b) == a + Untagged(b)
  {
    var s := a + b;
    if |b| >= 5 {
      assert s[|s| - 5..] == b[|b| - 5..];
      assert s[..|s| - 5] == a + b[..|b| - 5];
    } else if |s| >= 5 && a != [] {
      assert s[|s| - 5..][|a| - 1 - (|s| - 5)] == COMMA;
      assert COMMA !in APPEND_SUFFIX;
    }
  }

  lemma TaggedConcat(a: string, b: string)
    requires a == [] || a[|a| - 1] == COMMA
    ensures EndsWith(a + b, APPEND_SUFFIX) <==> EndsWith(b, APPEND_SUFFIX)
  {
    var s := a + b;
    if |b| >= 5 {
      assert s[|s| - 5..] == b[|b| - 5..];
    } else if |s| >= 5 && a != [] {
      assert s[|s| - 5..][|a| - 1 - (|s| - 5)] == COMMA;
      assert COMMA !in APPEND_SUFFIX;
    }
  }

  /** The last item is a string that ends in the tag, as far as strncat copies it. */
  predicate LastCopiedTagged(items: seq<ArrayItem>) {
    items != [] && items[|items| - 1].Str? && EndsWith(Cut(items[|items| - 1].text), APPEND_SUFFIX)
  }

  /** The joined text carries the tag exactly when its last item does: one tagged string makes the whole list an
      append request. */
  lemma JoinedTagged(items: seq<ArrayItem>)
    ensures EndsWith(Joined(items, |items|), APPEND_SUFFIX) <==> LastCopiedTagged(items)
  {
    hide EndsWith, Cut;
    if items == [] {
      assert !EndsWith([], APPEND_SUFFIX) by { NothingTagged(); }
    } else {
      var n := |items| - 1;
      JoinedEndsInComma(items, n);
      TaggedConcat(Joined(items, n), Piece(items, n));
      hide Joined;
      LastPiece(items);
    }
  }

  lemma LastPiece(items: seq<ArrayItem>)
    requires items != []
    ensures var n := |items| - 1;
            && Joined(items, n + 1) == Joined(items, n) + Piece(items, n)
            && (EndsWith(Piece(items, n), APPEND_SUFFIX) <==> LastCopiedTagged(items))
  {
    hide EndsWith, Cut;
    var n := |items| - 1;
    assert !EndsWith([], APPEND_SUFFIX) by { NothingTagged(); }
    if items[n].Str? {
      assert Piece(items, n) == Cut(items[n].text);
    } else {
      assert Piece(items, n) == [];
    }
  }

  lemma NothingTagged()
    ensures !EndsWith([], APPEND_SUFFIX)
  {
  }

  /** The round trip: the receiver's split of the queued text gives back the strings of the array, in order, if and
      only if there is one, each is nonempty and free of commas and NULs, and the last item of the array is not a
      tagged string; or the only string is empty. */
  lemma JoinSplitRoundTrip(items: seq<ArrayItem>)
    ensures Split(QueuedText(items), COMMA) == Strings(items) <==>
            || Strings(items) == [""]
            || (Strings(items) != [] && (forall t :: t in Strings(items) ==> PlainItem(t)) && !LastTagged(items))
  {
    hide Runs, Split, QueuedText;
    if items != [] {
      RunsOfQueued(items);
      if forall t :: t in Strings(items) ==> PlainItem(t) {
        PlainRoundTrip(items);
        assert Strings(items) == [""] ==> !PlainItem(Strings(items)[0]);
      } else if Strings(items) == [""] {
        EmptyRoundTrip(items);
      } else if Split(QueuedText(items), COMMA) == Strings(items) {
        NoForeignCharacters(items);
        assert false;
      }
    }
  }

  lemma RunsOfQueued(items: seq<ArrayItem>)
    requires items != []
    ensures Runs(QueuedText(items), COMMA) == PieceRuns(items, |items| - 1) + Runs(Tail(items[|items| - 1]), COMMA)
  {
    hide Runs, Joined, Tail, QueuedText;
    var n := |items| - 1;
    UntaggedJoin(items);
    RunsOfJoined(items, n);
    JoinedEndsInComma(items, n);
    RunsConcat(Joined(items, n), Tail(items[n]), COMMA);
  }

  lemma PlainRoundTrip(items: seq<ArrayItem>)
    requires items != [] && forall t :: t in Strings(items) ==> PlainItem(t)
    ensures Split(QueuedText(items), COMMA) == Strings(items) <==> Strings(items) != [] && !LastTagged(items)
  {
    hide Runs, QueuedText, PieceRuns, EndsWith, PlainItem;
    var n, last := |items| - 1, items[|items| - 1];
    var init := Strings(items[..n]);
    RunsOfQueued(items);
    assert forall t :: t in init ==> t in Strings(items);
    PlainPieces(items, n);
    var tail := Runs(Tail(last), COMMA);
    assert Runs(QueuedText(items), COMMA) == init + tail;
    match last
    case NotString =>
      assert tail == [] by { RunsOfNothing(); }
    case Str(t) =>
      assert t in Strings(items);
      RunsOfTail(t);
      SameEnd(init, tail, t);
  }

  /** The last string reads back whole, without its tag, or not at all when it was a bare tag. */
  lemma RunsOfTail(t: string)
    requires PlainItem(t)
    ensures Runs(Tail(Str(t)), COMMA) == [t] <==> !EndsWith(t, APPEND_SUFFIX)
    ensures t != []
  {
    if Untagged(t) == [] {
      RunsOfNothing();
    } else {
      OneRun(Untagged(t));
    }
  }

  lemma SameEnd(init: seq<string>, tail: seq<string>, t: string)
    ensures init + tail == init + [t] <==> tail == [t]
  {
    if init + tail == init + [t] {
      assert (init + tail)[|init|..] == tail && (init + [t])[|init|..] == [t];
    }
  }

  lemma RunsOfNothing()
    ensures Runs([], COMMA) == []
  {
  }

  lemma {:induction false} StringsContain(items: seq<ArrayItem>, i: nat)
    requires i < |items| && items[i].Str?
    ensures items[i].text in Strings(items)
  {
    if i >= |items| - 1 {
    } else {
      StringsContain(items[..|items| - 1], i);
    }
  }

  lemma {:induction false} EmptyPieces(items: seq<ArrayItem>, n: nat)
    requires n <= |items| && forall i :: 0 <= i < n && items[i].Str? ==> items[i].text == ""
    ensures PieceRuns(items, n) == []
  {
    if n == 0 {
    } else {
      EmptyPieces(items, n - 1);
    }
  }

  lemma EmptyRoundTrip(items: seq<ArrayItem>)
    requires items != [] && Strings(items) == [""]
    ensures Split(QueuedText(items), COMMA) == [""]
  {
    var n := |items| - 1;
    RunsOfQueued(items);
    forall i | 0 <= i < |items| && items[i].Str?
      ensures items[i].text == ""
    {
      StringsContain(items, i);
    }
    EmptyPieces(items, n);
  }

  /** Nothing but nonempty, comma-free, NUL-free strings can come out of a split with a run in it. */
  lemma NoForeignCharacters(items: seq<ArrayItem>)
    requires Split(QueuedText(items), COMMA) == Strings(items) && Strings(items) != [""]
    ensures forall t :: t in Strings(items) ==> PlainItem(t)
  {
    var s := QueuedText(items);
    assert NUL !in s;
    if Runs(s, COMMA) != [] {
      forall t | t in Strings(items)
        ensures PlainItem(t)
      {
        assert t in Runs(s, COMMA);
      }
    }
  }
}
