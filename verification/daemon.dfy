/** Both threads together: any schedule of the sections of the receiver, of the install event handler and of the outside
    world, run on the real queue and the real list, is a run of the protocol. */
module Daemon {
  import opened CString
  import opened HandlerSteps
  import Steps = HandlerSteps
  import opened IssueName
  import opened PendingCache
  import opened Protocol
  import opened ProtocolSafety
  import opened Wrappers

  /** What runs without interruption. */
  datatype Section =
    | Outside(text: string, webcfg: bool)
    | Wake
    | Lookup(pkg: string, complete: bool, path: string)
    | ActOn
    | Forget
    | Take
    | Ask(files: H.Files, profileName: string, setOk: bool)
    | Record

  // ----- schedules, as runs -----

  ghost function ActionOf(x: Section, s: State): Action {
    match x
    case Outside(text, webcfg) => Action.PushIssues(text, webcfg)
    case Wake => DeepSleepWake
    case Lookup(pkg, complete, path) => InstallEvent(pkg, complete, path)
    case ActOn => ActOnEvent
    case Forget => RemoveEntry
    case Take => Receive
    case Ask(files, profileName, setOk) =>
      var token := if s.recv.tokens == [] then "" else s.recv.tokens[0];
      Action.ProcessToken(ProfilesFor(files, s.recv.msg, token), profileName, setOk)
    case Record => RecordRequest
  }

  /** The state a section leads to; one whose turn has not come does nothing. */
  ghost function Next(s: State, x: Section): State {
    var r := Step(s, ActionOf(x, s));
    if r.Some? then r.value else s
  }

  ghost function After(schedule: seq<Section>): State {
    if schedule == [] then START else Next(After(schedule[..|schedule| - 1]), schedule[|schedule| - 1])
  }

  /** The receiver is at a token it cannot process. */
  ghost predicate Faults(s: State, x: Section) {
    x.Ask? && s.recv.tokens != [] && s.recv.sent.None? && Step(s, ActionOf(x, s)).None?
  }

  /** What a schedule leads to is a state of a run. */
  lemma {:induction false} ScheduleIsRun(schedule: seq<Section>) returns (actions: seq<Action>)
    ensures Run(actions) == Some(After(schedule)) && |actions| <= |schedule|
  {
    if schedule == [] {
      actions := [];
    } else {
      hide Step, Next;
      var init, x := schedule[..|schedule| - 1], schedule[|schedule| - 1];
      actions := ScheduleIsRun(init);
      NextIsStep(After(init), x);
      if Step(After(init), ActionOf(x, After(init))).Some? {
        assert (actions + [ActionOf(x, After(init))])[..|actions|] == actions;
        actions := actions + [ActionOf(x, After(init))];
      }
    }
  }

  lemma NextIsStep(s: State, x: Section)
    ensures var r := Step(s, ActionOf(x, s)); Next(s, x) == if r.Some? then r.value else s
  {
  }

  /** What each section does to the queue and the cache when its turn has come. */
  lemma SectionsDo(s: State, x: Section)
    requires Inv(s)
    ensures var t := Next(s, x);
            match x
            case Outside(text, webcfg) =>
              NUL !in text ==>
                && t.cache == s.cache && |t.queue| == |s.queue| + 1 && t.queue[..|s.queue|] == s.queue
                && t.queue[|s.queue|].msg == IssueMessage(text, if webcfg then EVENT_WEBCFG_MSG else EVENT_MSG)
            case Wake =>
              && t.cache == s.cache && |t.queue| == |s.queue| + 1 && t.queue[..|s.queue|] == s.queue
              && t.queue[|s.queue|].msg == WAKE_MESSAGE
            case Lookup(pkg, complete, path) =>
              && t.cache == s.cache && t.queue == s.queue
              && (s.handler.Idle? && FirstMatch(ItemsOf(s.cache), pkg).Some? ==>
                    t.handler == Matched(s.cache[FirstMatch(ItemsOf(s.cache), pkg).value], complete, path))
            case ActOn =>
              && t.cache == s.cache
              && (s.handler.Matched? ==>
                    && t.handler == Handled(s.handler.entry)
                    && if s.handler.complete
                       then t.queue == s.queue + [Queued(InstalledMessage(s.handler.entry.item.issueString,
                                                                          s.handler.path),
                                                         [s.handler.entry.origin])]
                       else t.queue == s.queue)
            case Forget =>
              && t.queue == s.queue
              && (s.handler.Handled? ==>
                    t.handler.Idle? && exists k :: 0 <= k < |s.cache| && s.cache[k] == s.handler.entry
                                                   && t.cache == Without(s.cache, k))
            case Take =>
              && t.cache == s.cache
              && (s.recv.tokens == [] && s.recv.sent.None? && s.queue != [] ==>
                    t.queue == s.queue[1..] && t.recv.msg == s.queue[0].msg && t.recv.tokens == Tokens(s.queue[0].msg))
            case Ask(_, _, _) =>
              t.queue == s.queue && t.cache == s.cache
            case Record =>
              && t.queue == s.queue
              && (s.recv.sent.Some? ==> t.cache == [s.recv.sent.value] + s.cache && t.recv.sent.None?)
  {
    hide Tokens, InstalledMessage, IssueMessage, OriginsOf, DropId, Without, ProfilesFor, Inv;
    match x {
      case Forget =>
        if s.handler.Handled? {
          EntryForgotten(s);
        }
      case Ask(_, _, _) => AskKeeps(s, x);
      case _ =>
    }
  }

  lemma EntryForgotten(s: State)
    requires Inv(s) && s.handler.Handled?
    ensures exists k :: 0 <= k < |s.cache| && s.cache[k] == s.handler.entry
                        && DropId(s.cache, s.handler.entry.id) == Without(s.cache, k)
  {
    var k :| 0 <= k < |s.cache| && s.cache[k] == s.handler.entry;
    DropIdAt(s.cache, k);
  }

  lemma AskKeeps(s: State, x: Section)
    requires x.Ask?
    ensures Next(s, x).queue == s.queue && Next(s, x).cache == s.cache
  {
    hide CommandMessage, Route, HasNodes, CategoryOf, PackageKey, CacheString, ProfilesFor;
  }

  // ----- what the threads keep for themselves -----

  /** The handler between its sections. */
  datatype Phase = Free | Looked(node: Node, complete: bool, path: string) | Acted(node: Node)

  /** The receiver's message, the tokens that are left of it and the entry to be recorded; the handler's phase. */
  datatype Locals = Locals(rbuf: H.DataBuf?, tokens: seq<string>, entry: Option<Item>, phase: Phase)

  function NodeInHand(phase: Phase): Node? {
    match phase case Free => null case Looked(node, _, _) => node case Acted(node) => node
  }

  predicate SamePhase(phase: Phase, handler: Handler) {
    match phase
    case Free => handler.Idle?
    case Looked(_, complete, path) => handler.Matched? && handler.complete == complete && handler.path == path
    case Acted(_) => handler.Handled?
  }

  /** The objects and what the threads keep hold what a state says. */
  ghost predicate Matches(queue: H.MessageQueue, pending: Cache, l: Locals, s: State)
    reads queue, pending, pending.nodes, l.rbuf
  {
    && Inv(s) && Holds(queue, pending, s)
    && l.tokens == s.recv.tokens && l.entry == SentItem(s)
    && (l.tokens != [] ==> l.rbuf != null && l.rbuf.Value() == s.recv.msg)
    && SamePhase(l.phase, s.handler) && Keeps(pending, NodeInHand(l.phase), s)
  }

  // ----- the sections of each thread -----

  method OutsideSection(queue: H.MessageQueue, pending: Cache, l: Locals, x: Section, ghost s: State)
    requires Matches(queue, pending, l, s) && (x.Outside? || x.Wake?)
    modifies queue
    ensures Matches(queue, pending, l, Next(s, x))
  {
    hide Inv;
    ghost var t;
    match x {
      case Outside(text, webcfg) =>
        if NUL in text {
          return;
        }
        var buffer := new char[|text| + 1](_ => NUL);
        Store(buffer, text);
        t := Steps.PushIssues(queue, pending, buffer, webcfg, s);
      case Wake =>
        t := LeaveDeepSleep(queue, pending, s);
    }
    StepKeepsInv(s, ActionOf(x, s));
  }

  method LookupSection(queue: H.MessageQueue, pending: Cache, l: Locals, x: Section, ghost s: State)
    returns (l': Locals)
    requires Matches(queue, pending, l, s) && x.Lookup?
    ensures l'.rbuf == l.rbuf && Matches(queue, pending, l', Next(s, x))
  {
    hide Inv, FirstMatch;
    l' := l;
    if l.phase.Free? {
      var node;
      ghost var t;
      node, t := FindEntry(queue, pending, x.pkg, x.complete, x.path, s);
      StepKeepsInv(s, ActionOf(x, s));
      l' := l.(phase := if node == null then Free else Looked(node, x.complete, x.path));
    }
  }

  method ActSection(queue: H.MessageQueue, pending: Cache, l: Locals, x: Section, ghost s: State) returns (l': Locals)
    requires Matches(queue, pending, l, s) && x.ActOn?
    modifies queue
    ensures l'.rbuf == l.rbuf && Matches(queue, pending, l', Next(s, x))
  {
    hide Inv, InstalledMessage;
    l' := l;
    if l.phase.Looked? {
      ghost var t := ActOnEntry(queue, pending, l.phase.node, l.phase.complete, l.phase.path, s);
      StepKeepsInv(s, ActionOf(x, s));
      l' := l.(phase := Acted(l.phase.node));
    }
  }

  method ForgetSection(queue: H.MessageQueue, pending: Cache, l: Locals, x: Section, ghost s: State)
    returns (l': Locals)
    requires Matches(queue, pending, l, s) && x.Forget?
    modifies pending, pending.nodes
    ensures l'.rbuf == l.rbuf && Matches(queue, pending, l', Next(s, x))
    ensures forall i :: 0 <= i < |pending.nodes| ==> pending.nodes[i] in old(pending.nodes) || fresh(pending.nodes[i])
  {
    hide Inv, DropId;
    l' := l;
    if l.phase.Acted? {
      ghost var t := ForgetEntry(queue, pending, l.phase.node, s);
      StepKeepsInv(s, ActionOf(x, s));
      l' := l.(phase := Free);
    }
  }

  method TakeSection(queue: H.MessageQueue, pending: Cache, l: Locals, x: Section, ghost s: State) returns (l': Locals)
    requires Matches(queue, pending, l, s) && x.Take?
    modifies queue
    ensures (l'.rbuf == l.rbuf || fresh(l'.rbuf)) && Matches(queue, pending, l', Next(s, x))
  {
    hide Inv, Tokens;
    l' := l;
    if l.tokens == [] && l.entry.None? && queue.messages != [] {
      var rbuf;
      ghost var t;
      rbuf, t := TakeMessage(queue, pending, s);
      StepKeepsInv(s, ActionOf(x, s));
      ReceivedData(t);
      var tokens := TokensFrom(rbuf);
      l' := Locals(rbuf, tokens, None, l.phase);
    }
  }

  method AskSection(queue: H.MessageQueue, pending: Cache, l: Locals, x: Section, ghost s: State)
    returns (ok: bool, l': Locals)
    requires Matches(queue, pending, l, s) && x.Ask?
    ensures ok <==> !Faults(s, x)
    ensures l'.rbuf == l.rbuf && Matches(queue, pending, l', Next(s, x))
  {
    hide Inv, Process, ProfilesFor;
    ok, l' := true, l;
    if l.tokens != [] && l.entry.None? {
      var entry, command;
      ghost var t;
      ok, entry, command, t := RequestToken(queue, pending, l.rbuf, l.tokens[0], x.files, x.profileName, x.setOk, s);
      if ok {
        StepKeepsInv(s, ActionOf(x, s));
        l' := Locals(l.rbuf, l.tokens[1..], entry, l.phase);
      }
    }
  }

  method RecordSection(queue: H.MessageQueue, pending: Cache, l: Locals, x: Section, ghost s: State)
    returns (l': Locals)
    requires Matches(queue, pending, l, s) && x.Record?
    modifies pending, pending.nodes
    ensures l'.rbuf == l.rbuf && Matches(queue, pending, l', Next(s, x))
    ensures forall i :: 0 <= i < |pending.nodes| ==> pending.nodes[i] in old(pending.nodes) || fresh(pending.nodes[i])
  {
    hide Inv;
    l' := l;
    if l.entry.Some? {
      ghost var t := RecordEntry(queue, pending, l.entry.value, s, NodeInHand(l.phase));
      StepKeepsInv(s, ActionOf(x, s));
      l' := l.(entry := None);
    }
  }

  method RunSection(queue: H.MessageQueue, pending: Cache, l: Locals, x: Section, ghost s: State)
    returns (ok: bool, l': Locals)
    requires Matches(queue, pending, l, s)
    modifies queue, pending, pending.nodes
    ensures ok <==> !Faults(s, x)
    ensures (l'.rbuf == l.rbuf || fresh(l'.rbuf)) && Matches(queue, pending, l', Next(s, x))
    ensures forall i :: 0 <= i < |pending.nodes| ==> pending.nodes[i] in old(pending.nodes) || fresh(pending.nodes[i])
  {
    hide Matches, Next, Step;
    ok, l' := true, l;
    match x {
      case Outside(_, _) => OutsideSection(queue, pending, l, x, s);
      case Wake => OutsideSection(queue, pending, l, x, s);
      case Lookup(_, _, _) => l' := LookupSection(queue, pending, l, x, s);
      case ActOn => l' := ActSection(queue, pending, l, x, s);
      case Forget => l' := ForgetSection(queue, pending, l, x, s);
      case Take => l' := TakeSection(queue, pending, l, x, s);
      case Ask(_, _, _) => ok, l' := AskSection(queue, pending, l, x, s);
      case Record => l' := RecordSection(queue, pending, l, x, s);
    }
  }

  /** The tokens the receiver works through, by the type of its message. */
  method TokensFrom(rbuf: H.DataBuf) returns (tokens: seq<string>)
    requires NUL !in rbuf.mdata
    ensures tokens == Tokens(rbuf.Value())
  {
    match rbuf.mtype {
      case EVENT_MSG => tokens := TokensOf(rbuf);
      case EVENT_WEBCFG_MSG => tokens := [];
      case DEEPSLEEP_EVENT_MSG => tokens := [rbuf.mdata];
    }
  }

  // ----- any schedule -----

  lemma StartMatches(queue: H.MessageQueue, pending: Cache)
    requires pending.Valid() && pending.Contents() == [] && queue.messages == []
    ensures Matches(queue, pending, Locals(null, [], None, Free), START)
  {
    RunKeepsInv([]);
  }

  /** The refinement: whatever the schedule, the real objects follow the protocol until the receiver runs into a fault,
      and it does exactly when the protocol has no step for its token. */
  method RunSchedule(schedule: seq<Section>) returns (queue: H.MessageQueue, pending: Cache, ok: bool)
    ensures fresh(queue) && fresh(pending) && fresh(pending.nodes)
    ensures ok <==> forall k :: 0 <= k < |schedule| ==> !Faults(After(schedule[..k]), schedule[k])
    ensures ok ==> Holds(queue, pending, After(schedule))
  {
    hide Matches, Faults, Next;
    queue := new H.MessageQueue();
    pending := new Cache();
    var l := Locals(null, [], None, Free);
    StartMatches(queue, pending);
    for i := 0 to |schedule|
      invariant fresh(queue) && fresh(pending) && (l.rbuf == null || fresh(l.rbuf))
      invariant forall j :: 0 <= j < |pending.nodes| ==> fresh(pending.nodes[j])
      invariant Matches(queue, pending, l, After(schedule[..i]))
      invariant forall k :: 0 <= k < i ==> !Faults(After(schedule[..k]), schedule[k])
    {
      var x := schedule[i];
      ghost var s := After(schedule[..i]);
      assert schedule[..i + 1][..i] == schedule[..i];
      ok, l := RunSection(queue, pending, l, x, s);
      if !ok {
        return;
      }
    }
    assert schedule[..|schedule|] == schedule;
    ok := true;
    MatchesHolds(queue, pending, l, After(schedule));
  }

  lemma MatchesHolds(queue: H.MessageQueue, pending: Cache, l: Locals, s: State)
    requires Matches(queue, pending, l, s)
    ensures Holds(queue, pending, s)
  {
  }

  /** So the results about runs are results about the objects: under every schedule at most one request for a token that
      was not an append request, and as many items in the list as requests recorded and not yet answered. */
  lemma ScheduleSafe(schedule: seq<Section>, o: Origin)
    ensures var s := After(schedule);
            && s.logs.requested[o] <= 1 + s.logs.completions[o] && (!o.append ==> s.logs.requested[o] <= 1)
            && (s.handler.Idle? ==> |ItemsOf(s.cache)| + |s.logs.delivered| + |s.logs.dropped| == |s.logs.recorded|)
  {
    hide After, Run;
    var actions := ScheduleIsRun(schedule);
    AtMostOneDownload(actions, o);
    Conservation(actions);
  }
}
