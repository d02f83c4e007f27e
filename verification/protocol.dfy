/** Issues, download requests and install events, as steps of two threads over the queue and the pending cache. */
module Protocol {
  import opened CString
  import opened Sequences
  import opened Wrappers
  import opened IssueText
  import opened IssueList
  import opened IssueName
  import opened PendingCache

  const DEEP_SLEEP: string := "DEEPSLEEP"
  const PKG_PREFIX: string := "RDK-RRD-"
  const PKG_SUFFIX: string := ":1.0"
  const JSON_FILE: string := "/etc/rrd/remote_debugger.json"
  const MAX_NODE := 34

  // ----- messages -----

  datatype MessageType = EVENT_MSG | EVENT_WEBCFG_MSG | DEEPSLEEP_EVENT_MSG
  datatype DeepSleepEvent = INVALID_DEFAULT | DOWNLOAD_PKG_INITIATE | PKG_INSTALL_COMPLETE

  /** data_buf, as far as routing depends on it. */
  datatype Message = Message(mtype: MessageType, mdata: string, jsonPath: Option<string>,
                             inDynamic: bool, appendMode: bool, dsEvent: DeepSleepEvent)

  /** What pushIssueTypesToMsgQueue makes of a received text. */
  function IssueMessage(text: string, mtype: MessageType): Message {
    Message(mtype, Untagged(text), None, false, EndsWith(text, APPEND_SUFFIX), INVALID_DEFAULT)
  }

  /** What waking up from deep sleep puts on the queue. */
  const WAKE_MESSAGE := Message(DEEPSLEEP_EVENT_MSG, DEEP_SLEEP, None, false, false, DOWNLOAD_PKG_INITIATE)

  /** What the completed installation of a cached package puts on the queue. */
  function InstalledMessage(issue: string, path: string): Message {
    var append := EndsWith(issue, APPEND_SUFFIX);
    Message(if issue == DEEP_SLEEP then DEEPSLEEP_EVENT_MSG else EVENT_MSG, Untagged(issue), Some(path + JSON_FILE),
            !append, append, if issue == DEEP_SLEEP then PKG_INSTALL_COMPLETE else INVALID_DEFAULT)
  }

  /** The buffer one token of a message is processed with; None when nothing is left of the token. */
  function CommandMessage(m: Message, token: string): Option<Message> {
    if IssueBase(token) == "" then None
    else Some(Message(EVENT_MSG, IssueBase(token), if m.inDynamic then m.jsonPath else None,
                      m.inDynamic, m.appendMode, INVALID_DEFAULT))
  }

  // ----- routing -----

  /** What reading a profile and looking the issue up in it gives; an issue that is listed may still have no command
      that can be used. */
  datatype Lookup = Unreadable | Missing | Unusable | Found
  /** The profile a message names, the static one and the one of an installed package. */
  datatype Profiles = Profiles(own: Lookup, fixed: Lookup, installed: Lookup)
  datatype Outcome = Execute | ExecuteMerged | Download | Nothing | Fault

  predicate IsListed(l: Lookup) { l == Found || l == Unusable }

  /** A fault is a read through a null pointer: an append request looks into what the selection of the command gave
      without a test. */
  function Route(m: Message, p: Profiles): Outcome {
    if m.appendMode then
      match p.installed
      case Unreadable => Download
      case Missing => Nothing
      case Unusable => Fault
      case Found => if p.fixed == Found then ExecuteMerged else if p.fixed == Unusable then Fault else Nothing
    else if m.inDynamic then
      if m.jsonPath.Some? && IsListed(p.own) then Execute else Nothing
    else if IsListed(p.fixed) || IsListed(p.installed) then Execute
    else Download
  }

  /** The cache key of a download. */
  function PackageKey(node: string, deepSleep: bool, profile: string): string {
    if deepSleep then PKG_PREFIX + (if profile != "" then profile + "-" else "") + DEEP_SLEEP
    else PKG_PREFIX + node
  }

  // ----- the state of a run -----

  /** The token a request goes back to: the message it came in, its place there, what it is processed as, and how
      it was asked for. */
  datatype Origin = Origin(message: nat, index: nat, base: string, append: bool)

  /** A cache node; ids stand for node addresses. */
  datatype Pending = Pending(id: nat, item: Item, origin: Origin)

  datatype Queued = Queued(msg: Message, origins: seq<Origin>)

  /** The receiver works through the tokens of one message; sent is a request that is not in the cache yet. */
  datatype Receiver = Receiver(msg: Message, tokens: seq<string>, origins: seq<Origin>, sent: Option<Pending>)

  /** The install event handler: it holds the node it found while the mutex is free. */
  datatype Handler = Idle | Matched(entry: Pending, complete: bool, path: string) | Handled(entry: Pending)

  /** What has happened so far. */
  datatype Logs = Logs(external: multiset<Origin>, completions: multiset<Origin>, requested: multiset<Origin>,
                       failed: multiset<Origin>, recorded: multiset<Origin>, delivered: multiset<Origin>,
                       dropped: multiset<Origin>)

  datatype State = State(queue: seq<Queued>, cache: seq<Pending>, recv: Receiver, handler: Handler,
                         nextMsg: nat, nextNode: nat, logs: Logs)

  const WAITING := Receiver(WAKE_MESSAGE, [], [], None)

  const START := State([], [], WAITING, Idle, 0, 0,
                       Logs(multiset{}, multiset{}, multiset{}, multiset{}, multiset{}, multiset{}, multiset{}))

  function ItemsOf(cache: seq<Pending>): (items: seq<Item>)
    ensures |items| == |cache| && forall i :: 0 <= i < |cache| ==> items[i] == cache[i].item
  {
    Map((p: Pending) => p.item, cache)
  }

  /** The tokens the receiver takes from a message. */
  function Tokens(m: Message): seq<string> {
    match m.mtype
    case EVENT_MSG => Split(m.mdata, COMMA)
    case EVENT_WEBCFG_MSG => []
    case DEEPSLEEP_EVENT_MSG => [m.mdata]
  }

  function TokenBase(m: Message, token: string): string {
    if m.mtype == EVENT_MSG then IssueBase(token) else token
  }

  function OriginsOf(id: nat, m: Message): (origins: seq<Origin>)
    ensures |origins| == |Tokens(m)|
  {
    seq(|Tokens(m)|, i requires 0 <= i < |Tokens(m)| => Origin(id, i, TokenBase(m, Tokens(m)[i]), m.appendMode))
  }

  // ----- steps -----

  datatype Action =
    | PushIssues(text: string, webcfg: bool)
    | DeepSleepWake
    | InstallEvent(pkg: string, complete: bool, path: string)
    | ActOnEvent
    | RemoveEntry
    | Receive
    | ProcessToken(profiles: Profiles, profileName: string, setOk: bool)
    | RecordRequest

  /** A message from outside, with fresh labels for its tokens. */
  function Push(s: State, m: Message): State {
    var origins := OriginsOf(s.nextMsg, m);
    s.(queue := s.queue + [Queued(m, origins)], nextMsg := s.nextMsg + 1,
       logs := s.logs.(external := s.logs.external + multiset(origins)))
  }

  /** rbus_set; when it succeeds, the entry is still to be recorded. */
  function Request(s: State, key: string, issue: string, origin: Origin, setOk: bool): State {
    var logs := s.logs.(requested := s.logs.requested + multiset{origin});
    if setOk then
      s.(recv := s.recv.(sent := Some(Pending(s.nextNode, Item(key, issue), origin))),
         nextNode := s.nextNode + 1, logs := logs)
    else
      s.(logs := logs.(failed := logs.failed + multiset{origin}))
  }

  /** One token of the message at hand; None when its nodes cannot be taken apart, or its routing ends in a fault. */
  function Process(s: State, p: Profiles, profileName: string, setOk: bool): Option<State>
    requires s.recv.tokens != [] && s.recv.origins != []
  {
    var m, token, origin := s.recv.msg, s.recv.tokens[0], s.recv.origins[0];
    var s' := s.(recv := s.recv.(tokens := s.recv.tokens[1..], origins := s.recv.origins[1..]));
    match m.mtype
    case EVENT_WEBCFG_MSG => Some(s')
    case DEEPSLEEP_EVENT_MSG =>
      if m.dsEvent == DOWNLOAD_PKG_INITIATE then
        Some(Request(s', PackageKey("", true, profileName), CacheString(m.mdata, m.appendMode), origin, setOk))
      else
        Some(s')
    case EVENT_MSG =>
      var cm := CommandMessage(m, token);
      if cm.None? then Some(s')
      else if !HasNodes(cm.value.mdata) || Route(cm.value, p) == Fault then None
      else
        var node := CategoryOf(cm.value.mdata);
        if Route(cm.value, p) == Download && |node| <= MAX_NODE then
          Some(Request(s', PackageKey(node, false, profileName), CacheString(cm.value.mdata, m.appendMode),
                       origin, setOk))
        else
          Some(s')
  }

  function DropId(cache: seq<Pending>, id: nat): seq<Pending> {
    if cache == [] then [] else if cache[0].id == id then cache[1..] else [cache[0]] + DropId(cache[1..], id)
  }

  /** The state after an action; None when it cannot happen now. */
  function Step(s: State, a: Action): Option<State> {
    match a
    case PushIssues(text, webcfg) =>
      if NUL in text then None
      else Some(Push(s, IssueMessage(text, if webcfg then EVENT_WEBCFG_MSG else EVENT_MSG)))
    case DeepSleepWake => Some(Push(s, WAKE_MESSAGE))
    case InstallEvent(pkg, complete, path) =>
      if !s.handler.Idle? then None
      else (match FirstMatch(ItemsOf(s.cache), pkg)
            case None => Some(s)
            case Some(k) => Some(s.(handler := Matched(s.cache[k], complete, path))))
    case ActOnEvent =>
      if !s.handler.Matched? then None else Some(Act(s, s.handler.entry, s.handler.complete, s.handler.path))
    case RemoveEntry =>
      if !s.handler.Handled? then None
      else Some(s.(cache := DropId(s.cache, s.handler.entry.id), handler := Idle))
    case Receive =>
      if s.recv.tokens != [] || s.recv.sent.Some? || s.queue == [] then None
      else Some(s.(queue := s.queue[1..],
                   recv := Receiver(s.queue[0].msg, Tokens(s.queue[0].msg), s.queue[0].origins, None)))
    case ProcessToken(profiles, profileName, setOk) =>
      if s.recv.tokens == [] || s.recv.origins == [] || s.recv.sent.Some? then None
      else Process(s, profiles, profileName, setOk)
    case RecordRequest =>
      if s.recv.sent.None? then None
      else
        var p := s.recv.sent.value;
        Some(s.(cache := [p] + s.cache, recv := s.recv.(sent := None),
                logs := s.logs.(recorded := s.logs.recorded + multiset{p.origin})))
  }

  /** The handler delivers a follow-up message, or drops the request when the installation did not complete. */
  function Act(s: State, e: Pending, complete: bool, path: string): State {
    var origin := multiset{e.origin};
    if complete then
      var m := InstalledMessage(e.item.issueString, path);
      s.(queue := s.queue + [Queued(m, [e.origin])], handler := Handled(e),
         logs := s.logs.(delivered := s.logs.delivered + origin,
                         completions := s.logs.completions + (if m.appendMode then origin else multiset{})))
    else
      s.(handler := Handled(e), logs := s.logs.(dropped := s.logs.dropped + origin))
  }

  /** A run from the start. */
  function Run(actions: seq<Action>): Option<State> {
    if actions == [] then Some(START)
    else
      var before := Run(actions[..|actions| - 1]);
      if before.None? then None else Step(before.value, actions[|actions| - 1])
  }
}
