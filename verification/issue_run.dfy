/** A web configuration on its way through the daemon: from the array to the commands of its issues. */
module IssueRun {
  import opened CString
  import opened HandlerSteps
  import opened IssueList
  import opened IssueName
  import opened IssueText
  import opened MessageLaws
  import opened PendingCache
  import opened Protocol
  import opened ProtocolSafety
  import opened Wrappers
  import Steps = HandlerSteps

  /** The strings of an array, piece by piece. */
  lemma {:induction false} StringsConcat(a: seq<ArrayItem>, b: seq<ArrayItem>)
    ensures Strings(a + b) == Strings(a) + Strings(b) && Strings([]) == []
    ensures |b| == 1 ==> Strings(b) == match b[0] case Str(text) => [text] case NotString => []
  {
    if b == [] {
      assert a + b == a;
    } else {
      var init, last := b[..|b| - 1], b[|b| - 1];
      assert (a + b)[..|a + b| - 1] == a + init;
      StringsConcat(a, init);
      assert |b| == 1 ==> init == [] && Strings(init) == [];
    }
  }

  /** An array of plain strings, and of anything else, with no tag at its end. */
  predicate PlainArray(items: seq<ArrayItem>) {
    && Strings(items) != [] && (forall t :: t in Strings(items) ==> PlainItem(t))
    && !(items[|items| - 1].Str? && EndsWith(items[|items| - 1].text, "_apnd"))
  }

  lemma PlainArrayReads(items: seq<ArrayItem>)
    requires PlainArray(items)
    ensures Split(QueuedText(items), ',') == Strings(items) && !LastCopiedTagged(items)
  {
    PlainRoundTrip(items);
    if items[|items| - 1].Str? {
      var t := items[|items| - 1].text;
      StringsContain(items, |items| - 1);
      assert PlainItem(t) && Cut(t) == t;
    }
  }

  /** The array is pushed onto an empty queue and its message handled, with files and request results for each of its
      issues: unless the receiver fails at one of them, the commands are those of the strings of the array in order,
      none of them an append request; and one for one if something is left of each. */
  method RunWebConfig(queue: H.MessageQueue, pending: Cache, items: seq<ArrayItem>, files: seq<H.Files>,
                      profileName: string, setOk: seq<bool>, ghost s: State)
    returns (ok: bool, commands: seq<H.Command>, ghost t: State)
    requires PlainArray(items) && |files| == |setOk| == |Strings(items)|
    requires Inv(s) && Holds(queue, pending, s)
    requires s.queue == [] && s.recv.tokens == [] && s.recv.sent.None?
    modifies queue, pending, pending.nodes
    ensures ok ==>
              commands == H.CommandsOf(Message(EVENT_MSG, QueuedText(items), None, false, false, INVALID_DEFAULT),
                                       Strings(items))
    ensures ok && (forall token :: token in Strings(items) ==> IssueBase(token) != "") ==>
              && |commands| == |Strings(items)|
              && forall i :: 0 <= i < |commands| ==>
                   commands[i] == H.Command(Message(EVENT_MSG, IssueBase(Strings(items)[i]), None, false, false,
                                                    INVALID_DEFAULT),
                                            SuffixOf(Strings(items)[i], 128))
    ensures Inv(t) && Holds(queue, pending, t)
  {
    hide Inv, IssueBase, SuffixOf, Joined, QueuedText, Split, PlainItem;
    PlainArrayReads(items);
    ghost var text := Joined(items, |items|);
    JoinedTagged(items);
    ghost var m := IssueMessage(text, EVENT_MSG);
    var commandList := BuildCommandList(items);
    t := Steps.PushIssues(queue, pending, commandList, false, s);
    StepKeepsInv(s, Action.PushIssues(text, false));
    QueuedIs(items);
    if forall token :: token in Strings(items) ==> IssueBase(token) != "" {
      CommandsAre(m, Strings(items));
    }
    ok, commands, t := HandleMessage(queue, pending, files, profileName, setOk, t);
  }

  lemma QueuedIs(items: seq<ArrayItem>)
    requires PlainArray(items)
    ensures var m := IssueMessage(Joined(items, |items|), EVENT_MSG);
            && m == Message(EVENT_MSG, QueuedText(items), None, false, false, INVALID_DEFAULT)
            && Tokens(m) == Strings(items) == Split(m.mdata, COMMA)
  {
    hide Joined, Split, PlainItem;
    PlainArrayReads(items);
    JoinedTagged(items);
  }
}
