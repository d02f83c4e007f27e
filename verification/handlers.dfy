/** The event handlers and the request code as they run: objects changed field by field. HandlerSteps relates them
    to the steps of the protocol. */
module Handlers {
  import opened CString
  import opened Commands
  import opened Wrappers
  import opened IssueText
  import opened IssueList
  import opened IssueName
  import opened PendingCache
  import opened Profile
  import opened Protocol

  class MessageQueue {
    var messages: seq<Message>

    constructor ()
      ensures messages == []
    {
      messages := [];
    }

    /** msgrcv: the buffer that has waited longest. */
    method Receive() returns (rbuf: DataBuf)
      requires messages != []
      modifies this
      ensures messages == old(messages[1..])
      ensures fresh(rbuf) && rbuf.Value() == old(messages[0])
    {
      var m := messages[0];
      messages := messages[1..];
      rbuf := new DataBuf(m.mtype, m.dsEvent);
      rbuf.mdata, rbuf.jsonPath, rbuf.inDynamic, rbuf.appendMode := m.mdata, m.jsonPath, m.inDynamic, m.appendMode;
    }

    /** RRDMsgDeliver: the buffer now belongs to the receiver. */
    method Deliver(buf: DataBuf)
      modifies this
      ensures messages == old(messages) + [buf.Value()]
    {
      messages := messages + [buf.Value()];
    }
  }

  class DataBuf {
    var mtype: MessageType
    var mdata: string
    var jsonPath: Option<string>
    var inDynamic: bool
    var appendMode: bool
    var dsEvent: DeepSleepEvent

    function Value(): Message
      reads this
    {
      Message(mtype, mdata, jsonPath, inDynamic, appendMode, dsEvent)
    }

    /** RRD_data_buff_init. */
    constructor (sndtype: MessageType, deepSleepEvent: DeepSleepEvent)
      ensures Value() == Message(sndtype, "", None, false, false, deepSleepEvent)
    {
      mtype := sndtype;
      mdata := "";
      jsonPath := None;
      inDynamic := false;
      appendMode := false;
      dsEvent := deepSleepEvent;
    }
  }

  method PushIssueTypesToMsgQueue(queue: MessageQueue, issueTypeList: array<char>, sndtype: MessageType)
    requires Terminated(issueTypeList[..])
    modifies queue, issueTypeList
    ensures queue.messages == old(queue.messages) + [IssueMessage(old(Text(issueTypeList[..])), sndtype)]
  {
    var sbuf := new DataBuf(sndtype, INVALID_DEFAULT);
    var append := CheckAppendRequest(issueTypeList);
    sbuf.mdata := Text(issueTypeList[..]);
    if append {
      sbuf.appendMode := true;
    }
    queue.Deliver(sbuf);
  }

  /** Webconfig data: the strings of the array, joined, copied and pushed. The message is an append request exactly
      when the last item is a string that ends in the tag. */
  method PushWebConfig(queue: MessageQueue, items: seq<ArrayItem>)
    modifies queue
    ensures queue.messages == old(queue.messages) + [IssueMessage(Joined(items, |items|), EVENT_MSG)]
    ensures queue.messages[|old(queue.messages)|].mdata == QueuedText(items)
    ensures queue.messages[|old(queue.messages)|].appendMode <==> LastCopiedTagged(items)
  {
    JoinedTagged(items);
    var commandList := BuildCommandList(items);
    PushIssueTypesToMsgQueue(queue, commandList, EVENT_MSG);
  }

  /** The power manager event: only leaving deep sleep counts, and only when the forced sync can be set. */
  method PwrManagerEvent(queue: MessageQueue, wasDeepSleep: bool, isDeepSleep: bool, syncSet: bool)
    modifies queue
    ensures queue.messages == old(queue.messages) +
                              (if wasDeepSleep && !isDeepSleep && syncSet then [WAKE_MESSAGE] else [])
  {
    if wasDeepSleep && !isDeepSleep {
      if !syncSet {
        return;
      }
      var sbuf := new DataBuf(DEEPSLEEP_EVENT_MSG, DOWNLOAD_PKG_INITIATE);
      sbuf.mdata := DEEP_SLEEP;
      queue.Deliver(sbuf);
    }
  }

  /** The install event: one entry, the newest for the package, is taken from the cache; a message is enqueued for it
      exactly when the installation completed. */
  method RdmManagerEvent(queue: MessageQueue, pending: Cache, pkg: string, complete: bool, path: string)
    requires pending.Valid()
    modifies queue, pending, pending.nodes
    ensures pending.Valid()
    ensures var was := old(pending.Contents());
            match FirstMatch(was, pkg)
            case None => pending.Contents() == was && queue.messages == old(queue.messages)
            case Some(k) =>
              && pending.Contents() == Without(was, k)
              && queue.messages == old(queue.messages) +
                                   (if complete then [InstalledMessage(was[k].issueString, path)] else [])
  {
    ghost var k := match FirstMatch(pending.Contents(), pkg) case None => 0 case Some(k) => k;
    var cache := pending.FindPresentInCache(pkg);
    if cache != null {
      if complete {
        EnqueueInstalled(queue, cache.item.issueString, path);
      }
      ghost var was := pending.nodes;
      pending.RemoveItem(cache, k);
      ItemsWithout(was, k);
    }
  }

  method EnqueueInstalled(queue: MessageQueue, issueString: string, path: string)
    modifies queue
    ensures queue.messages == old(queue.messages) + [InstalledMessage(issueString, path)]
  {
    var sendbuf;
    if issueString == DEEP_SLEEP {
      sendbuf := new DataBuf(DEEPSLEEP_EVENT_MSG, PKG_INSTALL_COMPLETE);
    } else {
      sendbuf := new DataBuf(EVENT_MSG, INVALID_DEFAULT);
    }
    sendbuf.mdata := issueString;
    sendbuf.jsonPath := Some(path + JSON_FILE);
    sendbuf.inDynamic := true;
    if EndsWith(sendbuf.mdata, APPEND_SUFFIX) {
      sendbuf.mdata := Untagged(sendbuf.mdata);
      sendbuf.inDynamic := false;
      sendbuf.appendMode := true;
    }
    queue.Deliver(sendbuf);
  }

  // ----- a download request -----

  /** RRDGetProfileStringLength: the size of the buffer for the package name, or -1. */
  method GetProfileStringLength(node: Option<string>, deepSleep: bool, profile: string) returns (length: int)
    ensures length == match node
                      case None => -1
                      case Some(n) =>
                        if |n| > MAX_NODE then -1 else |PackageKey(n, deepSleep, profile)| + |PKG_SUFFIX| + 1
  {
    if node.None? || |node.value| > MAX_NODE {
      return -1;
    }
    var suffixlen := |PKG_SUFFIX|;
    if deepSleep {
      suffixlen := suffixlen + |DEEP_SLEEP|;
      if |profile| > 0 {
        length := |PKG_PREFIX| + |profile| + suffixlen + 1;
      } else {
        length := |PKG_PREFIX| + suffixlen;
      }
    } else {
      length := |PKG_PREFIX| + |node.value| + suffixlen;
    }
    length := length + 1;
  }

  /** snprintf into a buffer of the given size. */
  function SnPrint(text: string, size: nat): string
    requires size > 0
  {
    Prefix(text, size - 1)
  }

  /** What a request leaves to be recorded. */
  function ToRecord(node: Option<string>, rbuf: Message, deepSleep: bool, profile: string, setOk: bool): Option<Item> {
    if node.Some? && |node.value| <= MAX_NODE && setOk
    then Some(Item(PackageKey(node.value, deepSleep, profile), CacheString(rbuf.mdata, rbuf.appendMode)))
    else None
  }

  /** RRDRdmManagerDownloadRequest up to rbus_set. The package asked for is the cache key followed by ":1.0": no
      buffer is too small on any path. When the request can be set, its key and its issue string, tagged for an append
      request, are to be recorded. */
  method RequestPackage(node: Option<string>, rbuf: Message, deepSleep: bool, profile: string, setOk: bool)
    returns (requested: Option<string>, entry: Option<Item>)
    ensures requested == if node.Some? && |node.value| <= MAX_NODE
                         then Some(PackageKey(node.value, deepSleep, profile) + PKG_SUFFIX) else None
    ensures entry == ToRecord(node, rbuf, deepSleep, profile, setOk)
    ensures requested.None? <==> node.None? || |node.value| > 34
    ensures requested.Some? && !deepSleep ==> requested.value == "RDK-RRD-" + node.value + ":1.0"
    ensures requested.Some? && deepSleep && profile == "" ==> requested.value == "RDK-RRD-DEEPSLEEP" + ":1.0"
    ensures requested.Some? && deepSleep && profile != "" ==>
              requested.value == "RDK-RRD-" + profile + "-" + "DEEPSLEEP" + ":1.0"
    ensures entry.Some? <==> requested.Some? && setOk
    ensures entry.Some? ==> entry.value.mdata + ":1.0" == requested.value
    ensures entry.Some? ==> entry.value.issueString == rbuf.mdata + if rbuf.appendMode then "_apnd" else ""
  {
    hide PackageKey, Prefix, CacheString;
    requested, entry := None, None;
    var length := GetProfileStringLength(node, deepSleep, profile);
    if length > 0 {
      var param, key := PackageNames(node.value, deepSleep, profile, length);
      KeySays(node.value, deepSleep, profile);
      CacheStringSays(rbuf.mdata, rbuf.appendMode);
      requested := Some(param);
      if setOk {
        entry := Some(Item(key, if rbuf.appendMode then rbuf.mdata + APPEND_SUFFIX else rbuf.mdata));
      }
    }
  }

  /** The two buffers of a request, neither of them cut. */
  method PackageNames(node: string, deepSleep: bool, profile: string, length: int) returns (param: string, key: string)
    requires |node| <= MAX_NODE && length == |PackageKey(node, deepSleep, profile)| + |PKG_SUFFIX| + 1
    ensures key == PackageKey(node, deepSleep, profile) && param == key + PKG_SUFFIX
  {
    var size;
    if deepSleep {
      size := |PKG_PREFIX| + |DEEP_SLEEP| + |PKG_SUFFIX|;
      if |profile| > 0 {
        size := size + |profile| + 1;
        param := SnPrint(PKG_PREFIX + profile + "-" + DEEP_SLEEP + PKG_SUFFIX, length);
      } else {
        param := SnPrint(PKG_PREFIX + DEEP_SLEEP + PKG_SUFFIX, length);
      }
      key := Prefix(param, size - |PKG_SUFFIX|);  // strncpy
    } else {
      param := SnPrint(PKG_PREFIX + node + PKG_SUFFIX, length);
      size := |PKG_PREFIX| + |node| + 1;
      key := SnPrint(PKG_PREFIX + node, size);
    }
    assert key == PackageKey(node, deepSleep, profile);
  }

  lemma KeySays(node: string, deepSleep: bool, profile: string)
    ensures var key := PackageKey(node, deepSleep, profile);
            && (!deepSleep ==> key == "RDK-RRD-" + node)
            && (deepSleep && profile == "" ==> key == "RDK-RRD-DEEPSLEEP")
            && (deepSleep && profile != "" ==> key == "RDK-RRD-" + profile + "-" + "DEEPSLEEP")
  {
  }

  lemma CacheStringSays(base: string, append: bool)
    ensures CacheString(base, append) == base + if append then "_apnd" else ""
    ensures base + "" == base
  {
  }

  /** The whole of it, when nothing comes between the request and its recording. */
  method DownloadRequest(pending: Cache, node: Option<string>, rbuf: Message, deepSleep: bool, profile: string,
                         setOk: bool) returns (requested: Option<string>)
    requires pending.Valid()
    modifies pending, pending.nodes
    ensures pending.Valid()
    ensures requested == if node.Some? && |node.value| <= MAX_NODE
                         then Some(PackageKey(node.value, deepSleep, profile) + PKG_SUFFIX) else None
    ensures pending.Contents() ==
            (match ToRecord(node, rbuf, deepSleep, profile, setOk) case None => [] case Some(item) => [item])
            + old(pending.Contents())
  {
    var entry;
    requested, entry := RequestPackage(node, rbuf, deepSleep, profile, setOk);
    if entry.Some? {
      pending.AppendItem(entry.value.mdata, entry.value.issueString);
    }
  }

  // ----- the tokens of a message -----

  /** What one token is processed with: its buffer and its suffix. */
  datatype Command = Command(msg: Message, suffix: string)

  function CommandsOf(m: Message, tokens: seq<string>): seq<Command> {
    if tokens == [] then []
    else
      var last := tokens[|tokens| - 1];
      CommandsOf(m, tokens[..|tokens| - 1]) +
      match CommandMessage(m, last)
      case None => []
      case Some(cm) => [Command(cm, SuffixOf(last, BASE_SIZE))]
  }

  /** processIssueTypeEvent: split the text, take every token apart in two local buffers, and skip what is empty. */
  method ProcessIssueTypeEvent(rbuf: DataBuf, text: array<char>) returns (commands: seq<Command>)
    requires Terminated(text[..]) && Text(text[..]) == rbuf.mdata
    ensures commands == CommandsOf(rbuf.Value(), Split(rbuf.mdata, COMMA))
  {
    hide Split, CommandMessage, Text;
    var cmdMap := IssueTypeSplitter(text, COMMA);
    commands := [];
    for index := 0 to |cmdMap|
      invariant commands == CommandsOf(rbuf.Value(), cmdMap[..index])
    {
      assert cmdMap[..index + 1][..index] == cmdMap[..index];
      TokenHasNoNul(rbuf.mdata, cmdMap[index]);
      var command := ProcessToken(rbuf, cmdMap[index]);
      if command.Some? {
        commands := commands + [command.value];
      }
    }
    assert cmdMap[..|cmdMap|] == cmdMap;
  }

  lemma TokenHasNoNul(s: string, token: string)
    requires NUL !in s && token in Split(s, COMMA)
    ensures NUL !in token
  {
  }

  /** The string begins with its terminator. */
  predicate IsEmpty(base: array<char>)
    reads base
    requires Terminated(base[..])
    ensures IsEmpty(base) <==> Text(base[..]) == ""
  {
    base[0] == NUL
  }

  method ProcessToken(rbuf: DataBuf, token: string) returns (command: Option<Command>)
    requires NUL !in token
    ensures command == match CommandMessage(rbuf.Value(), token)
                       case None => None
                       case Some(cm) => Some(Command(cm, SuffixOf(token, BASE_SIZE)))
  {
    assert Sanitized("") == "";
    hide BaseOf, SuffixOf, Sanitized, Text;
    var base := new char[BASE_SIZE](_ => NUL);
    var suffix := new char[BASE_SIZE](_ => NUL);
    SplitIssueType(token, base, suffix);
    var suffixText := Text(suffix[..]);
    if IsEmpty(base) {
      return None;
    }
    RemoveSpecialCharacters(base);
    if IsEmpty(base) {
      return None;
    }
    var cmdBuff := CommandBuf(rbuf, Text(base[..]));
    command := Some(Command(cmdBuff.Value(), suffixText));
  }

  /** The local buffer of one token: the flags of the message, and its profile path when it has one. */
  method CommandBuf(rbuf: DataBuf, base: string) returns (cmdBuff: DataBuf)
    ensures cmdBuff.Value() == Message(EVENT_MSG, base, if rbuf.inDynamic then rbuf.jsonPath else None,
                                       rbuf.inDynamic, rbuf.appendMode, INVALID_DEFAULT)
  {
    cmdBuff := new DataBuf(EVENT_MSG, INVALID_DEFAULT);
    cmdBuff.inDynamic := rbuf.inDynamic;
    if cmdBuff.inDynamic && rbuf.jsonPath.Some? {
      cmdBuff.jsonPath := rbuf.jsonPath;
    }
    cmdBuff.appendMode := rbuf.appendMode;
    cmdBuff.mdata := base;
  }

  // ----- profile resolution -----

  /** What reading the profile a message names, the static one and the one of an installed package gives. */
  datatype Files = Files(own: Option<Parsed>, fixed: Option<Parsed>, installed: Option<Parsed>)

  predicate Listed(profile: Option<Parsed>, n: Nodes) {
    profile.Some? && Lists(profile.value.root, n.category, n.issueType)
  }

  ghost predicate Usable(profile: Option<Parsed>, n: Nodes) {
    Listed(profile, n) && Chosen(profile.value, n.category, n.issueType).Some?
  }

  ghost function LookUp(profile: Option<Parsed>, n: Nodes): Lookup {
    if profile.None? then Unreadable else if !Listed(profile, n) then Missing
    else if Usable(profile, n) then Found else Unusable
  }

  ghost function LookUpAll(files: Files, n: Nodes): Profiles {
    Profiles(LookUp(files.own, n), LookUp(files.fixed, n), LookUp(files.installed, n))
  }

  /** The text of the command an issue has in a profile where it is usable. */
  ghost function CommandOf(profile: Option<Parsed>, n: Nodes): string
    requires Usable(profile, n)
  {
    Chosen(profile.value, n.category, n.issueType).value
  }

  /** processIssueType and the profile functions it goes through. A message that came back from an installation and is
      not an append request never asks for a download. An append request reads through a null pointer exactly when one
      of its two profiles lists the issue without a usable command, the static one counting only once the installed one
      has given a command; when both have, the merged command is ready. */
  method ProcessIssueType(m: Message, n: Nodes, files: Files) returns (outcome: Outcome, merged: array?<char>)
    ensures outcome == Route(m, LookUpAll(files, n))
    ensures outcome == Download ==> m.appendMode || !m.inDynamic
    ensures outcome == Download <==>
              || (m.appendMode && files.installed.None?)
              || (!m.appendMode && !m.inDynamic && !Listed(files.fixed, n) && !Listed(files.installed, n))
    ensures outcome == Execute <==>
              && !m.appendMode
              && if m.inDynamic then m.jsonPath.Some? && Listed(files.own, n)
                 else Listed(files.fixed, n) || Listed(files.installed, n)
    ensures outcome == ExecuteMerged <==> m.appendMode && Usable(files.fixed, n) && Usable(files.installed, n)
    ensures outcome == Nothing <==>
              || (m.appendMode && files.installed.Some? && !Listed(files.installed, n))
              || (m.appendMode && Usable(files.installed, n) && !Listed(files.fixed, n))
              || (!m.appendMode && m.inDynamic && !(m.jsonPath.Some? && Listed(files.own, n)))
    ensures outcome == Fault <==>
              && m.appendMode && Listed(files.installed, n)
              && (Usable(files.installed, n) ==> Listed(files.fixed, n) && !Usable(files.fixed, n))
    ensures merged != null <==> outcome == ExecuteMerged
    ensures merged != null ==>
              && fresh(merged) && Terminated(merged[..]) && Usable(files.fixed, n) && Usable(files.installed, n)
              && Text(merged[..]) == Merged(Backgrounded(Printed(CommandOf(files.fixed, n))),
                                            Backgrounded(Printed(CommandOf(files.installed, n))))
  {
    hide Lists, Chosen, Merged, Backgrounded, Printed;
    merged := null;
    if m.appendMode {
      var found, dynamicCmd := InProfileAppend(n, files.installed);
      match found {
        case Unreadable => outcome := Download;
        case Missing => outcome := Nothing;
        case Unusable => outcome := Fault;
        case Found =>
          var foundFixed, fixedCmd := InProfileAppend(n, files.fixed);
          match foundFixed {
            case Unusable => outcome := Fault;
            case Found =>
              merged := AppendCommand(fixedCmd, dynamicCmd);
              outcome := ExecuteMerged;
            case _ => outcome := Nothing;
          }
      }
    } else if m.inDynamic {
      outcome := InDynamicProfile(m, n, files.own);
    } else {
      outcome := InStaticProfile(n, files);
    }
  }

  /** The two profile functions of an append request, up to the download request of the first: what is found, and the
      command if there is a usable one. */
  method InProfileAppend(n: Nodes, profile: Option<Parsed>) returns (found: Lookup, command: array?<char>)
    ensures found == LookUp(profile, n)
    ensures command != null <==> found == Found
    ensures command != null ==>
              && fresh(command) && Terminated(command[..])
              && Text(command[..]) == Backgrounded(Printed(CommandOf(profile, n)))
  {
    command := null;
    if profile.None? {
      return Unreadable, null;
    }
    var isListed := FindIssueInParsedJSON(profile.value.root, n.category, n.issueType);
    if !isListed {
      return Missing, null;
    }
    var timeout;
    command, timeout := GetIssueCommandInfo(profile.value, n.category, n.issueType);
    found := if command == null then Unusable else Found;
  }

  /** A dynamic issue is executed when its message names a profile that lists it, and never downloaded. */
  method InDynamicProfile(m: Message, n: Nodes, own: Option<Parsed>) returns (outcome: Outcome)
    ensures outcome == if m.jsonPath.Some? && Listed(own, n) then Execute else Nothing
  {
    outcome := Nothing;
    if m.jsonPath.Some? && own.Some? {
      var isDynamicIssue := FindIssueInParsedJSON(own.value.root, n.category, n.issueType);
      if isDynamicIssue {
        outcome := Execute;
      }
    }
  }

  /** An issue is executed when the static profile or that of the installed package lists it, and downloaded when
      neither does, readable or not. */
  method InStaticProfile(n: Nodes, files: Files) returns (outcome: Outcome)
    ensures outcome == if Listed(files.fixed, n) || Listed(files.installed, n) then Execute else Download
  {
    if files.fixed.None? {
      outcome := InInstalledPackage(n, files.installed);
    } else {
      var isStaticIssue := FindIssueInParsedJSON(files.fixed.value.root, n.category, n.issueType);
      if isStaticIssue {
        outcome := Execute;
      } else {
        outcome := InInstalledPackage(n, files.installed);
      }
    }
  }

  method InInstalledPackage(n: Nodes, installed: Option<Parsed>) returns (outcome: Outcome)
    ensures outcome == if Listed(installed, n) then Execute else Download
  {
    outcome := Download;
    if installed.Some? {
      var isDynamicIssue := FindIssueInParsedJSON(installed.value.root, n.category, n.issueType);
      if isDynamicIssue {
        outcome := Execute;
      }
    }
  }

  // ----- append requests for a whole category -----

  /** A category without a type has no command in any profile, so an append request for it ends in a fault exactly when
      the installed profile lists the category. */
  lemma CategoryAppendFaults(m: Message, n: Nodes, files: Files)
    requires m.appendMode && n.issueType.None?
    ensures Route(m, LookUpAll(files, n)) == Fault <==> Listed(files.installed, n)
  {
  }

  /** An instance: the text "Device_apnd". */
  lemma DeviceAppendFaults(files: Files)
    ensures var m := IssueMessage("Device_apnd", EVENT_MSG);
            && Tokens(m) == ["Device"]
            && var cm := CommandMessage(m, "Device");
               && cm.Some? && HasNodes(cm.value.mdata) && CategoryOf(cm.value.mdata) == "Device"
               && TypeOf(cm.value.mdata) == None
               && (Listed(files.installed, Nodes("Device", None)) ==>
                     Route(cm.value, LookUpAll(files, Nodes("Device", None))) == Fault)
  {
    hide Runs, LookUpAll, Listed;
    var text, base := "Device_apnd", "Device";
    assert text == base + APPEND_SUFFIX && UNDERSCORE !in base;
    CacheStringReadsBack(base, true);
    assert CacheString(base, true) == text;
    PlainBase(base);
    var cm := CommandMessage(IssueMessage(text, EVENT_MSG), base).value;
    CategoryAppendFaults(cm, Nodes(base, None), files);
  }

  /** A short alphanumeric text is one token, its own base, and a category without type. */
  lemma PlainBase(s: string)
    requires s != "" && |s| < BASE_SIZE && forall i :: 0 <= i < |s| ==> IsAlnum(s[i])
    ensures Split(s, COMMA) == [s] && IssueBase(s) == s
    ensures HasNodes(s) && CategoryOf(s) == s && TypeOf(s) == None
  {
    hide Filter;
    assert forall c :: c in s ==> IsIssueChar(c) && c != COMMA && c != UNDERSCORE && c != DOT;
    RunLengthIs(s, UNDERSCORE, |s|);
    assert s[..|s|] == s;
    FilterAll(IsIssueChar, s);
    OneRun(s);
    RunLengthIs(s, DOT, |s|);
    assert s[|s|..] == [];
  }
}
