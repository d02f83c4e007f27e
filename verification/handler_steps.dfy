/** The handlers carry out the steps of the protocol. Every stretch of a handler between two points where the other
    thread may run is one step, from any state: run on a queue and a cache that hold what the state says, it leaves a
    queue and a cache that hold what the next state says. */
module HandlerSteps {
  import opened CString
  import opened IssueName
  import opened IssueText
  import opened PendingCache
  import opened Protocol
  import opened ProtocolSafety
  import opened Sequences
  import opened Wrappers
  import H = Handlers

  function MessagesOf(queue: seq<Queued>): (messages: seq<Message>)
    ensures |messages| == |queue| && forall i :: 0 <= i < |queue| ==> messages[i] == queue[i].msg
  {
    Map((q: Queued) => q.msg, queue)
  }

  /** The objects hold the queue and the cache of a state. */
  ghost predicate Holds(queue: H.MessageQueue, pending: Cache, s: State)
    reads queue, pending, pending.nodes
  {
    pending.Valid() && pending.Contents() == ItemsOf(s.cache) && queue.messages == MessagesOf(s.queue)
  }

  /** The install handler has the node of its entry in hand. */
  ghost predicate Keeps(pending: Cache, node: Node?, s: State)
    reads pending
  {
    !s.handler.Idle? ==> NodeOf(pending.nodes, s.cache, s.handler.entry, node)
  }

  /** The node lies where the entry lies. */
  ghost predicate NodeOf(nodes: seq<Node>, cache: seq<Pending>, entry: Pending, node: Node?) {
    |nodes| == |cache| && exists k :: 0 <= k < |cache| && cache[k] == entry && nodes[k] == node
  }

  lemma NodeOfPushed(n: Node, nodes: seq<Node>, p: Pending, cache: seq<Pending>, entry: Pending, node: Node?)
    requires NodeOf(nodes, cache, entry, node)
    ensures NodeOf([n] + nodes, [p] + cache, entry, node)
  {
    var k :| 0 <= k < |cache| && cache[k] == entry && nodes[k] == node;
    assert ([p] + cache)[k + 1] == entry && ([n] + nodes)[k + 1] == node;
  }

  lemma MessagesPush(queue: seq<Queued>, q: Queued)
    ensures MessagesOf(queue + [q]) == MessagesOf(queue) + [q.msg]
  {
  }

  lemma ItemsPush(p: Pending, cache: seq<Pending>)
    ensures ItemsOf([p] + cache) == [p.item] + ItemsOf(cache)
  {
  }

  lemma ItemsDrop(cache: seq<Pending>, k: nat)
    requires Distinct(cache) && k < |cache|
    ensures ItemsOf(DropId(cache, cache[k].id)) == Without(ItemsOf(cache), k)
  {
    DropIdAt(cache, k);
  }

  lemma RunOne(s: State, a: Action)
    ensures RunFrom(s, [a]) == Step(s, a)
  {
    assert [a][..0] == [];
  }

  lemma RunMore(s: State, actions: seq<Action>, a: Action)
    requires RunFrom(s, actions).Some?
    ensures RunFrom(s, actions + [a]) == Step(RunFrom(s, actions).value, a)
  {
    assert (actions + [a])[..|actions|] == actions;
  }

  lemma {:induction false} RunConcat(s: State, a: seq<Action>, b: seq<Action>)
    requires RunFrom(s, a).Some?
    ensures RunFrom(s, a + b) == RunFrom(RunFrom(s, a).value, b)
  {
    hide Step;
    if b == [] {
      assert a + b == a;
    } else {
      var init := b[..|b| - 1];
      RunConcat(s, a, init);
      assert (a + b)[..|a + b| - 1] == a + init;
    }
  }

  // ----- messages from outside -----

  method PushIssues(queue: H.MessageQueue, pending: Cache, text: array<char>, webcfg: bool, ghost s: State)
    returns (ghost t: State)
    requires Terminated(text[..]) && Holds(queue, pending, s)
    modifies queue, text
    ensures Step(s, Action.PushIssues(old(Text(text[..])), webcfg)) == Some(t) && Holds(queue, pending, t)
  {
    ghost var m := IssueMessage(Text(text[..]), if webcfg then EVENT_WEBCFG_MSG else EVENT_MSG);
    t := Push(s, m);
    MessagesPush(s.queue, Queued(m, OriginsOf(s.nextMsg, m)));
    H.PushIssueTypesToMsgQueue(queue, text, if webcfg then EVENT_WEBCFG_MSG else EVENT_MSG);
  }

  method LeaveDeepSleep(queue: H.MessageQueue, pending: Cache, ghost s: State) returns (ghost t: State)
    requires Holds(queue, pending, s)
    modifies queue
    ensures Step(s, DeepSleepWake) == Some(t) && Holds(queue, pending, t)
  {
    t := Push(s, WAKE_MESSAGE);
    MessagesPush(s.queue, Queued(WAKE_MESSAGE, OriginsOf(s.nextMsg, WAKE_MESSAGE)));
    H.PwrManagerEvent(queue, true, false, true);
  }

  // ----- the install event, section by section -----

  /** The lookup, under the mutex. */
  method FindEntry(queue: H.MessageQueue, pending: Cache, pkg: string, complete: bool, path: string, ghost s: State)
    returns (node: Node?, ghost t: State)
    requires s.handler.Idle? && Holds(queue, pending, s)
    ensures Step(s, InstallEvent(pkg, complete, path)) == Some(t) && Holds(queue, pending, t)
    ensures Keeps(pending, node, t) && (node == null <==> t.handler.Idle?)
  {
    t := Step(s, InstallEvent(pkg, complete, path)).value;
    node := pending.FindPresentInCache(pkg);
  }

  /** What is done with the node in hand while the mutex is free. */
  method ActOnEntry(queue: H.MessageQueue, pending: Cache, node: Node, complete: bool, path: string, ghost s: State)
    returns (ghost t: State)
    requires s.handler.Matched? && s.handler.complete == complete && s.handler.path == path
    requires Holds(queue, pending, s) && Keeps(pending, node, s)
    modifies queue
    ensures Step(s, ActOnEvent) == Some(t) && Holds(queue, pending, t) && Keeps(pending, node, t) && t.handler.Handled?
  {
    hide InstalledMessage;
    t := Step(s, ActOnEvent).value;
    ghost var e := s.handler.entry;
    assert node.item == e.item by { NodeOfEntry(pending, node, s); }
    if complete {
      MessagesPush(s.queue, Queued(InstalledMessage(e.item.issueString, path), [e.origin]));
      H.EnqueueInstalled(queue, node.item.issueString, path);
    }
  }

  lemma NodeOfEntry(pending: Cache, node: Node, s: State)
    requires pending.Valid() && pending.Contents() == ItemsOf(s.cache) && !s.handler.Idle? && Keeps(pending, node, s)
    ensures node.item == s.handler.entry.item
  {
    var k :| 0 <= k < |s.cache| && s.cache[k] == s.handler.entry && pending.nodes[k] == node;
    assert pending.Contents()[k] == node.item && ItemsOf(s.cache)[k] == s.cache[k].item;
  }

  /** The removal, under the mutex. */
  method ForgetEntry(queue: H.MessageQueue, pending: Cache, node: Node, ghost s: State) returns (ghost t: State)
    requires Inv(s) && s.handler.Handled? && Holds(queue, pending, s) && Keeps(pending, node, s)
    modifies pending, pending.nodes
    ensures Step(s, RemoveEntry) == Some(t) && Holds(queue, pending, t)
    ensures forall i :: 0 <= i < |pending.nodes| ==> pending.nodes[i] in old(pending.nodes)
  {
    hide Inv, Without, ItemsOf, DropId, Items;
    t := Step(s, RemoveEntry).value;
    ghost var was := pending.nodes;
    ghost var k :| 0 <= k < |s.cache| && s.cache[k] == s.handler.entry && pending.nodes[k] == node;
    InvDistinct(s);
    ItemsDrop(s.cache, k);
    ItemsWithout(was, k);
    pending.RemoveItem(node, k);
    WithoutIn(was, k);
  }

  lemma WithoutIn<T>(s: seq<T>, k: nat)
    requires k < |s|
    ensures forall i :: 0 <= i < |Without(s, k)| ==> Without(s, k)[i] in s
  {
  }

  ghost function InstallSteps(s: State, pkg: string, complete: bool, path: string): seq<Action> {
    if FirstMatch(ItemsOf(s.cache), pkg).None? then [InstallEvent(pkg, complete, path)]
    else [InstallEvent(pkg, complete, path), ActOnEvent, RemoveEntry]
  }

  /** The handler as a whole, when nothing comes between its sections. */
  method InstallPackage(queue: H.MessageQueue, pending: Cache, pkg: string, complete: bool, path: string,
                        ghost s: State)
    returns (ghost t: State)
    requires Inv(s) && s.handler.Idle? && Holds(queue, pending, s)
    modifies queue, pending, pending.nodes
    ensures RunFrom(s, InstallSteps(s, pkg, complete, path)) == Some(t) && Holds(queue, pending, t)
  {
    t := InstallState(s, pkg, complete, path);
    H.RdmManagerEvent(queue, pending, pkg, complete, path);
  }

  /** The state after the steps of an install event that nothing comes between. */
  lemma InstallState(s: State, pkg: string, complete: bool, path: string) returns (t: State)
    requires Inv(s) && s.handler.Idle?
    ensures RunFrom(s, InstallSteps(s, pkg, complete, path)) == Some(t)
    ensures match FirstMatch(ItemsOf(s.cache), pkg)
            case None => t == s
            case Some(k) =>
              && ItemsOf(t.cache) == Without(ItemsOf(s.cache), k)
              && MessagesOf(t.queue) == MessagesOf(s.queue) +
                   (if complete then [InstalledMessage(s.cache[k].item.issueString, path)] else [])
  {
    hide Inv, InstalledMessage, RunFrom;
    var e := InstallEvent(pkg, complete, path);
    RunOne(s, e);
    t := Step(s, e).value;
    if FirstMatch(ItemsOf(s.cache), pkg).Some? {
      var k := FirstMatch(ItemsOf(s.cache), pkg).value;
      var acted := Step(t, ActOnEvent).value;
      t := Step(acted, RemoveEntry).value;
      RunMore(s, [e], ActOnEvent);
      assert [e] + [ActOnEvent] == [e, ActOnEvent];
      RunMore(s, [e, ActOnEvent], RemoveEntry);
      assert [e, ActOnEvent] + [RemoveEntry] == [e, ActOnEvent, RemoveEntry];
      InvDistinct(s);
      ItemsDrop(s.cache, k);
      if complete {
        MessagesPush(s.queue, Queued(InstalledMessage(s.cache[k].item.issueString, path), [s.cache[k].origin]));
      }
    }
  }

  // ----- one token, section by section -----

  /** The receiver has taken the message rbuf holds, and is at a token. */
  ghost predicate AtToken(rbuf: H.DataBuf, s: State)
    reads rbuf
  {
    Inv(s) && s.recv.tokens != [] && s.recv.sent.None? && rbuf.Value() == s.recv.msg
  }

  /** What is looked up for a token. */
  ghost function ProfilesFor(files: H.Files, m: Message, token: string): Profiles {
    if m.mtype == EVENT_MSG && HasNodes(IssueBase(token))
    then H.LookUpAll(files, Nodes(CategoryOf(IssueBase(token)), TypeOf(IssueBase(token))))
    else Profiles(Unreadable, Unreadable, Unreadable)
  }

  /** A token the receiver can process: an issue has the nodes that are read, and its routing ends in no fault. */
  predicate Processable(m: Message, token: string, p: Profiles) {
    m.mtype == EVENT_MSG && CommandMessage(m, token).Some? ==>
      var cm := CommandMessage(m, token).value; HasNodes(cm.mdata) && Route(cm, p) != Fault
  }

  function SentItem(s: State): Option<Item> {
    if s.recv.sent.Some? then Some(s.recv.sent.value.item) else None
  }

  /** What processing a token asks to be recorded. */
  ghost function Asked(m: Message, token: string, p: Profiles, profileName: string, setOk: bool): Option<Item>
    requires Processable(m, token, p)
  {
    match m.mtype
    case EVENT_WEBCFG_MSG => None
    case DEEPSLEEP_EVENT_MSG =>
      if m.dsEvent == DOWNLOAD_PKG_INITIATE then H.ToRecord(Some(""), m, true, profileName, setOk) else None
    case EVENT_MSG =>
      var cm := CommandMessage(m, token);
      if cm.Some? && Route(cm.value, p) == Download
      then H.ToRecord(Some(CategoryOf(cm.value.mdata)), cm.value, false, profileName, setOk)
      else None
  }

  /** The step for a token is defined exactly when the token can be processed, and then leaves what is asked for. */
  lemma ProcessAsks(s: State, p: Profiles, profileName: string, setOk: bool)
    requires s.recv.tokens != [] && s.recv.origins != [] && s.recv.sent.None?
    ensures var r, m, token := Process(s, p, profileName, setOk), s.recv.msg, s.recv.tokens[0];
            && (r.Some? <==> Processable(m, token, p))
            && (r.Some? ==>
                  && r.value.queue == s.queue && r.value.cache == s.cache && r.value.handler == s.handler
                  && r.value.recv.msg == m && r.value.recv.tokens == s.recv.tokens[1..]
                  && SentItem(r.value) == Asked(m, token, p, profileName, setOk))
  {
    hide IssueBase, HasNodes, CategoryOf, Route, CacheString;
  }

  lemma ProcessStep(s: State, p: Profiles, profileName: string, setOk: bool)
    requires s.recv.tokens != [] && s.recv.origins != [] && s.recv.sent.None?
    ensures Step(s, Action.ProcessToken(p, profileName, setOk)) == Process(s, p, profileName, setOk)
  {
  }

  lemma OriginsThere(s: State)
    requires Inv(s) && s.recv.tokens != []
    ensures s.recv.origins != []
  {
  }

  /** Up to the point where the request is out, and the other thread may act on it before it is recorded. It fails
      exactly when the step is undefined: the code reads a slot that was never set, or through a null pointer. */
  method RequestToken(queue: H.MessageQueue, pending: Cache, rbuf: H.DataBuf, token: string, files: H.Files,
                      profileName: string, setOk: bool, ghost s: State)
    returns (ok: bool, entry: Option<Item>, command: Option<H.Command>, ghost t: State)
    requires AtToken(rbuf, s) && token == s.recv.tokens[0]
    requires Holds(queue, pending, s)
    ensures var r := Step(s, Action.ProcessToken(ProfilesFor(files, rbuf.Value(), token), profileName, setOk));
            && (ok <==> r.Some?)
            && t == if ok then r.value else s
    ensures Holds(queue, pending, t) && entry == SentItem(t)
    ensures ok ==>
              && t.handler == s.handler && t.cache == s.cache
              && t.recv.msg == s.recv.msg && t.recv.tokens == s.recv.tokens[1..]
    ensures ok && rbuf.mtype == EVENT_MSG ==>
              command == match CommandMessage(rbuf.Value(), token)
                         case None => None
                         case Some(cm) => Some(H.Command(cm, SuffixOf(token, BASE_SIZE)))
  {
    ReceivedData(s);
    hide Inv, Process, ProfilesFor, Asked, Processable, CommandMessage, Step;
    OriginsThere(s);
    ghost var p := ProfilesFor(files, rbuf.Value(), token);
    ProcessAsks(s, p, profileName, setOk);
    ProcessStep(s, p, profileName, setOk);
    ok, entry, command := RequestFor(rbuf, token, files, profileName, setOk);
    t := if ok then Step(s, Action.ProcessToken(p, profileName, setOk)).value else s;
  }

  method RequestFor(rbuf: H.DataBuf, token: string, files: H.Files, profileName: string, setOk: bool)
    returns (ok: bool, entry: Option<Item>, command: Option<H.Command>)
    requires NUL !in token && (rbuf.mtype == DEEPSLEEP_EVENT_MSG ==> rbuf.mdata == DEEP_SLEEP)
    ensures var p := ProfilesFor(files, rbuf.Value(), token);
            && (ok <==> Processable(rbuf.Value(), token, p))
            && entry == if ok then Asked(rbuf.Value(), token, p, profileName, setOk) else None
    ensures rbuf.mtype == EVENT_MSG ==>
              command == match CommandMessage(rbuf.Value(), token)
                         case None => None
                         case Some(cm) => Some(H.Command(cm, SuffixOf(token, BASE_SIZE)))
  {
    hide IssueBase, HasNodes, CategoryOf, TypeOf, Route, SuffixOf, H.LookUpAll;
    ok, command, entry := true, None, None;
    match rbuf.mtype {
      case EVENT_MSG =>
        command := H.ProcessToken(rbuf, token);
        if command.Some? {
          ok, entry := RequestWhenRouted(command.value.msg, files, profileName, setOk);
        }
      case DEEPSLEEP_EVENT_MSG =>
        if rbuf.dsEvent == DOWNLOAD_PKG_INITIATE {
          entry := RequestOnWake(rbuf.Value(), profileName, setOk);
        }
      case EVENT_WEBCFG_MSG =>
    }
  }

  method RequestWhenRouted(m: Message, files: H.Files, profileName: string, setOk: bool)
    returns (ok: bool, entry: Option<Item>)
    ensures !HasNodes(m.mdata) ==> !ok && entry.None?
    ensures HasNodes(m.mdata) ==>
              var r := Route(m, H.LookUpAll(files, Nodes(CategoryOf(m.mdata), TypeOf(m.mdata))));
              && (ok <==> r != Fault)
              && entry == if r == Download then H.ToRecord(Some(CategoryOf(m.mdata)), m, false, profileName, setOk)
                          else None
  {
    hide Route, HasNodes, CategoryOf, TypeOf, H.LookUpAll, H.Listed, H.Usable;
    entry := None;
    var info := GetIssueInfo(m.mdata);
    if info.None? {
      return false, None;
    }
    var outcome, merged := H.ProcessIssueType(m, info.value, files);
    if outcome == Download {
      var requested;
      requested, entry := H.RequestPackage(Some(info.value.category), m, false, profileName, setOk);
    }
    ok := outcome != Fault;
  }

  method RequestOnWake(m: Message, profileName: string, setOk: bool) returns (entry: Option<Item>)
    requires m.mdata == DEEP_SLEEP
    ensures entry == H.ToRecord(Some(""), m, true, profileName, setOk)
  {
    hide HasNodes, CategoryOf, TypeOf;
    DeepSleepNode();
    var info := GetIssueInfo(m.mdata);
    var requested;
    requested, entry := H.RequestPackage(Some(info.value.category), m, true, profileName, setOk);
    AnyNode(info.value.category, m, profileName, setOk);
  }

  lemma AnyNode(node: string, m: Message, profileName: string, setOk: bool)
    requires |node| <= MAX_NODE
    ensures H.ToRecord(Some(node), m, true, profileName, setOk) == H.ToRecord(Some(""), m, true, profileName, setOk)
  {
  }

  /** What the receiver works on: C strings, and the one deep-sleep text. */
  lemma ReceivedData(s: State)
    requires Inv(s)
    ensures s.recv.msg.mtype == DEEPSLEEP_EVENT_MSG ==> s.recv.msg.mdata == DEEP_SLEEP
    ensures NUL !in s.recv.msg.mdata && forall token :: token in s.recv.tokens ==> NUL !in token
  {
  }

  lemma DeepSleepNode()
    ensures HasNodes(DEEP_SLEEP) && |CategoryOf(DEEP_SLEEP)| <= MAX_NODE
  {
    RunLengthIs(DEEP_SLEEP, DOT, |DEEP_SLEEP|);
    assert DOT !in DEEP_SLEEP;
    assert Runs(DEEP_SLEEP, DOT) == [DEEP_SLEEP[..|DEEP_SLEEP|]] + Runs(DEEP_SLEEP[|DEEP_SLEEP|..], DOT);
  }

  /** The recording, under the mutex. A node the install handler has in hand meanwhile stays where it is in the list. */
  method RecordEntry(queue: H.MessageQueue, pending: Cache, item: Item, ghost s: State, ghost node: Node?)
    returns (ghost t: State)
    requires SentItem(s) == Some(item) && Holds(queue, pending, s)
    modifies pending, pending.nodes
    ensures Step(s, RecordRequest) == Some(t) && Holds(queue, pending, t)
    ensures old(Keeps(pending, node, s)) ==> Keeps(pending, node, t)
    ensures forall i :: 0 <= i < |pending.nodes| ==> pending.nodes[i] in old(pending.nodes) || fresh(pending.nodes[i])
  {
    hide ItemsOf, NodeOf;
    ghost var was := pending.nodes;
    t := Step(s, RecordRequest).value;
    ItemsPush(s.recv.sent.value, s.cache);
    pending.AppendItem(item.mdata, item.issueString);
    if !s.handler.Idle? && NodeOf(was, s.cache, s.handler.entry, node) {
      NodeOfPushed(pending.nodes[0], was, s.recv.sent.value, s.cache, s.handler.entry, node);
    }
  }

  // ----- a token, and a message, when nothing comes between -----

  /** A token is processed, and what it asked for is recorded at once. */
  ghost function TokenSteps(s: State, p: Profiles, profileName: string, setOk: bool): seq<Action> {
    var a := Action.ProcessToken(p, profileName, setOk);
    if Step(s, a).Some? && Step(s, a).value.recv.sent.Some? then [a, RecordRequest] else [a]
  }

  method HandleToken(queue: H.MessageQueue, pending: Cache, rbuf: H.DataBuf, token: string, files: H.Files,
                     profileName: string, setOk: bool, ghost s: State)
    returns (ok: bool, command: Option<H.Command>, ghost t: State)
    requires AtToken(rbuf, s) && token == s.recv.tokens[0]
    requires Holds(queue, pending, s)
    modifies pending, pending.nodes
    ensures var r := RunFrom(s, TokenSteps(s, ProfilesFor(files, rbuf.Value(), token), profileName, setOk));
            && (ok <==> r.Some?) && (ok ==> r == Some(t))
    ensures Inv(t) && Holds(queue, pending, t)
    ensures forall i :: 0 <= i < |pending.nodes| ==> pending.nodes[i] in old(pending.nodes) || fresh(pending.nodes[i])
    ensures ok ==> t.recv.msg == s.recv.msg && t.recv.tokens == s.recv.tokens[1..] && t.recv.sent.None?
    ensures ok && rbuf.mtype == EVENT_MSG ==>
              command == match CommandMessage(rbuf.Value(), token)
                         case None => None
                         case Some(cm) => Some(H.Command(cm, SuffixOf(token, BASE_SIZE)))
  {
    hide Inv, Process, RunFrom, CommandMessage, ProfilesFor;
    ghost var a := Action.ProcessToken(ProfilesFor(files, rbuf.Value(), token), profileName, setOk);
    var entry;
    ok, entry, command, t := RequestToken(queue, pending, rbuf, token, files, profileName, setOk, s);
    RunOne(s, a);
    if ok {
      StepKeepsInv(s, a);
      if entry.Some? {
        ghost var sent := t;
        t := RecordEntry(queue, pending, entry.value, sent, null);
        StepKeepsInv(sent, RecordRequest);
        RunMore(s, [a], RecordRequest);
        assert [a] + [RecordRequest] == [a, RecordRequest];
      }
    }
  }

  /** The steps for the tokens that are left, each with what is found when it is processed. */
  ghost function AllTokenSteps(s: State, files: seq<H.Files>, profileName: string, setOk: seq<bool>): seq<Action>
    requires |files| == |setOk| == |s.recv.tokens|
    decreases |files|
  {
    if files == [] then []
    else
      var steps := TokenSteps(s, ProfilesFor(files[0], s.recv.msg, s.recv.tokens[0]), profileName, setOk[0]);
      var r := RunFrom(s, steps);
      if r.Some? && r.value.recv.tokens == s.recv.tokens[1..]
      then steps + AllTokenSteps(r.value, files[1..], profileName, setOk[1..])
      else steps
  }

  /** The receiver takes a message and works through it. */
  ghost function MessageSteps(s: State, files: seq<H.Files>, profileName: string, setOk: seq<bool>): seq<Action>
    requires s.recv.tokens == [] && s.recv.sent.None? && s.queue != []
    requires |files| == |setOk| == |Tokens(s.queue[0].msg)|
  {
    [Receive] + AllTokenSteps(Step(s, Receive).value, files, profileName, setOk)
  }

  method TakeMessage(queue: H.MessageQueue, pending: Cache, ghost s: State) returns (rbuf: H.DataBuf, ghost t: State)
    requires Holds(queue, pending, s) && s.recv.tokens == [] && s.recv.sent.None? && s.queue != []
    modifies queue
    ensures Step(s, Receive) == Some(t) && Holds(queue, pending, t)
    ensures fresh(rbuf) && rbuf.Value() == t.recv.msg == s.queue[0].msg
    ensures t.recv.tokens == Tokens(t.recv.msg) && t.recv.sent.None?
  {
    t := Step(s, Receive).value;
    assert MessagesOf(s.queue[1..]) == MessagesOf(s.queue)[1..];
    rbuf := queue.Receive();
  }

  /** RRDEventThreadFunc, for one message: dispatch on its type, and for an issue message the loop over its tokens. It
      fails exactly when the step of one of its tokens is undefined. */
  method HandleMessage(queue: H.MessageQueue, pending: Cache, files: seq<H.Files>, profileName: string,
                       setOk: seq<bool>, ghost s: State)
    returns (ok: bool, commands: seq<H.Command>, ghost t: State)
    requires Inv(s) && Holds(queue, pending, s) && s.recv.tokens == [] && s.recv.sent.None? && s.queue != []
    requires |files| == |setOk| == |Tokens(s.queue[0].msg)|
    modifies queue, pending, pending.nodes
    ensures var r := RunFrom(s, MessageSteps(s, files, profileName, setOk));
            && (ok <==> r.Some?) && (ok ==> r == Some(t))
    ensures Inv(t) && Holds(queue, pending, t) && (ok ==> t.recv.tokens == [] && t.recv.sent.None?)
    ensures var m := s.queue[0].msg;
            ok ==> commands == if m.mtype == EVENT_MSG then H.CommandsOf(m, Split(m.mdata, COMMA)) else []
  {
    hide Inv, Step, RunFrom, CommandMessage, TokenSteps, Holds, ProfilesFor, SuffixOf, H.CommandsOf;
    var rbuf;
    rbuf, t := TakeMessage(queue, pending, s);
    StepKeepsInv(s, Receive);
    RunOne(s, Receive);
    ok, commands := true, [];
    ghost var taken := t;
    match rbuf.mtype {
      case EVENT_MSG =>
        ok, commands, t := HandleIssues(queue, pending, rbuf, files, profileName, setOk, t);
      case EVENT_WEBCFG_MSG =>
        NoSteps(t);
      case DEEPSLEEP_EVENT_MSG =>
        var command;
        ok, command, t := HandleToken(queue, pending, rbuf, rbuf.mdata, files[0], profileName, setOk[0], t);
        LastToken(taken, t, ok, files, profileName, setOk);
    }
    RunConcat(s, [Receive], AllTokenSteps(Step(s, Receive).value, files, profileName, setOk));
  }

  lemma LastToken(s: State, t: State, ok: bool, files: seq<H.Files>, profileName: string, setOk: seq<bool>)
    requires |files| == |setOk| == |s.recv.tokens| == 1
    requires var p := ProfilesFor(files[0], s.recv.msg, s.recv.tokens[0]);
             var r := RunFrom(s, TokenSteps(s, p, profileName, setOk[0]));
             if ok then r == Some(t) && t.recv.tokens == s.recv.tokens[1..] else r.None?
    ensures var r := RunFrom(s, AllTokenSteps(s, files, profileName, setOk)); if ok then r == Some(t) else r.None?
  {
    hide RunFrom, TokenSteps, ProfilesFor;
    var steps := TokenSteps(s, ProfilesFor(files[0], s.recv.msg, s.recv.tokens[0]), profileName, setOk[0]);
    assert steps + [] == steps && files[1..] == [];
  }

  /** processIssueTypeEvent with all that its tokens lead to. */
  method HandleIssues(queue: H.MessageQueue, pending: Cache, rbuf: H.DataBuf, files: seq<H.Files>, profileName: string,
                      setOk: seq<bool>, ghost s: State)
    returns (ok: bool, commands: seq<H.Command>, ghost t: State)
    requires Inv(s) && Holds(queue, pending, s) && rbuf.Value() == s.recv.msg && rbuf.mtype == EVENT_MSG
    requires s.recv.tokens == Tokens(s.recv.msg) && s.recv.sent.None?
    requires |files| == |setOk| == |s.recv.tokens|
    modifies pending, pending.nodes
    ensures var r := RunFrom(s, AllTokenSteps(s, files, profileName, setOk));
            && (ok <==> r.Some?) && (ok ==> r == Some(t))
    ensures Inv(t) && Holds(queue, pending, t) && (ok ==> t.recv.tokens == [] && t.recv.sent.None?)
    ensures ok ==> commands == H.CommandsOf(rbuf.Value(), s.recv.tokens)
  {
    hide Inv, Process, RunFrom, CommandMessage, TokenSteps, Split, ProfilesFor, SuffixOf, H.CommandsOf, Holds;
    ReceivedData(s);
    var cmdMap := TokensOf(rbuf);
    commands, t := [], s;
    assert H.CommandsOf(rbuf.Value(), cmdMap[..0]) == [] by { NoCommands(rbuf.Value()); }
    ghost var done: seq<Action> := [];
    assert RunFrom(s, []) == Some(s) by { NoSteps(s); }
    for index := 0 to |cmdMap|
      invariant Inv(t) && Holds(queue, pending, t) && t.recv.sent.None?
      invariant forall i :: 0 <= i < |pending.nodes| ==>
                              pending.nodes[i] in old(pending.nodes) || fresh(pending.nodes[i])
      invariant t.recv.msg == s.recv.msg == rbuf.Value() && t.recv.tokens == cmdMap[index..]
      invariant RunFrom(s, done) == Some(t)
      invariant AllTokenSteps(s, files, profileName, setOk) ==
                done + AllTokenSteps(t, files[index..], profileName, setOk[index..])
      invariant commands == H.CommandsOf(rbuf.Value(), cmdMap[..index])
    {
      var command;
      ghost var before := t;
      ok, command, t := HandleToken(queue, pending, rbuf, cmdMap[index], files[index], profileName, setOk[index],
                                    before);
      if !ok {
        TokenFails(s, done, before, files[index..], profileName, setOk[index..]);
        return;
      }
      done := TokenDone(s, done, before, t, files[index..], profileName, setOk[index..]);
      assert files[index..][1..] == files[index + 1..] && setOk[index..][1..] == setOk[index + 1..];
      CommandsStep(rbuf.Value(), cmdMap, index);
      if command.Some? {
        commands := commands + [command.value];
      }
    }
    assert cmdMap[..|cmdMap|] == cmdMap;
    assert done + [] == done;
    ok := true;
  }

  lemma TokenFails(s: State, done: seq<Action>, before: State, files: seq<H.Files>, profileName: string,
                   setOk: seq<bool>)
    requires RunFrom(s, done) == Some(before) && |files| == |setOk| == |before.recv.tokens| > 0
    requires RunFrom(before, TokenSteps(before, ProfilesFor(files[0], before.recv.msg, before.recv.tokens[0]),
                                        profileName, setOk[0])).None?
    ensures RunFrom(s, done + AllTokenSteps(before, files, profileName, setOk)).None?
  {
    hide RunFrom, TokenSteps, ProfilesFor;
    RunConcat(s, done, AllTokenSteps(before, files, profileName, setOk));
  }

  method TokensOf(rbuf: H.DataBuf) returns (cmdMap: seq<string>)
    requires NUL !in rbuf.mdata && rbuf.mtype == EVENT_MSG
    ensures cmdMap == Tokens(rbuf.Value())
  {
    var text := new char[|rbuf.mdata| + 1](_ => NUL);
    Store(text, rbuf.mdata);
    cmdMap := IssueTypeSplitter(text, COMMA);
  }

  lemma NoCommands(m: Message)
    ensures H.CommandsOf(m, []) == []
  {
  }

  lemma CommandsStep(m: Message, tokens: seq<string>, i: nat)
    requires i < |tokens|
    ensures H.CommandsOf(m, tokens[..i + 1]) == H.CommandsOf(m, tokens[..i]) +
              match CommandMessage(m, tokens[i])
              case None => []
              case Some(cm) => [H.Command(cm, SuffixOf(tokens[i], BASE_SIZE))]
  {
    hide CommandMessage, SuffixOf;
    assert tokens[..i + 1][..i] == tokens[..i];
  }

  lemma NoSteps(s: State)
    ensures RunFrom(s, []) == Some(s)
  {
  }

  /** One more token is done. */
  lemma TokenDone(s: State, done: seq<Action>, before: State, t: State, files: seq<H.Files>, profileName: string,
                  setOk: seq<bool>)
    returns (more: seq<Action>)
    requires RunFrom(s, done) == Some(before)
    requires |files| == |setOk| == |before.recv.tokens| > 0 && t.recv.tokens == before.recv.tokens[1..]
    requires var p := ProfilesFor(files[0], before.recv.msg, before.recv.tokens[0]);
             RunFrom(before, TokenSteps(before, p, profileName, setOk[0])) == Some(t)
    ensures RunFrom(s, more) == Some(t)
    ensures done + AllTokenSteps(before, files, profileName, setOk) ==
            more + AllTokenSteps(t, files[1..], profileName, setOk[1..])
  {
    hide RunFrom, TokenSteps, ProfilesFor;
    var p := ProfilesFor(files[0], before.recv.msg, before.recv.tokens[0]);
    var steps := TokenSteps(before, p, profileName, setOk[0]);
    RunConcat(s, done, steps);
    more := done + steps;
    Assoc(done, steps, AllTokenSteps(t, files[1..], profileName, setOk[1..]));
  }
}
