/** What the messages of the protocol say, in plain values, and which tokens and commands a message has. */
module MessageLaws {
  import opened CString
  import opened Handlers
  import opened HandlerSteps
  import opened IssueName
  import opened IssueText
  import opened PendingCache
  import opened Profile
  import opened Protocol
  import opened ProtocolSafety
  import opened Wrappers

  // ----- messages -----

  lemma IssueMessageSays(text: string, mtype: MessageType)
    ensures var m := IssueMessage(text, mtype);
            && m.mtype == mtype && m.jsonPath == None && !m.inDynamic && m.dsEvent == INVALID_DEFAULT
            && (m.appendMode <==> EndsWith(text, "_apnd"))
            && m.mdata + (if m.appendMode then "_apnd" else "") == text
  {
  }

  lemma WakeMessageSays()
    ensures WAKE_MESSAGE == Message(DEEPSLEEP_EVENT_MSG, "DEEPSLEEP", None, false, false, DOWNLOAD_PKG_INITIATE)
  {
  }

  /** The follow-up of an installation: the profile of the package, and the issue that is waiting for it. */
  lemma InstalledMessageSays(issue: string, path: string)
    ensures var m := InstalledMessage(issue, path);
            && m.jsonPath == Some(path + "/etc/rrd/remote_debugger.json")
            && (m.appendMode <==> EndsWith(issue, "_apnd")) && m.inDynamic == !m.appendMode
            && m.mdata + (if m.appendMode then "_apnd" else "") == issue
            && m.mtype == (if issue == "DEEPSLEEP" then DEEPSLEEP_EVENT_MSG else EVENT_MSG)
            && m.dsEvent == (if issue == "DEEPSLEEP" then PKG_INSTALL_COMPLETE else INVALID_DEFAULT)
  {
  }

  /** The profile of an installed package reaches the command of the issue that asked for it, and no other. */
  lemma PathReachesCommand(base: string, append: bool, path: string)
    requires Stable(base) && base != "" && base != "DEEPSLEEP"
    ensures var m := InstalledMessage(CacheString(base, append), path);
            && Tokens(m) == [base]
            && CommandMessage(m, base) ==
                 Some(Message(EVENT_MSG, base, if append then None else Some(path + "/etc/rrd/remote_debugger.json"),
                              !append, append, INVALID_DEFAULT))
  {
    hide Split, IssueBase, CacheString;
    InstalledShape(base, append, path);
  }

  // ----- tokens -----

  /** An issue message has the tokens between its commas, a deep-sleep message has one, and a web configuration message
      none. */
  lemma TokensAre(m: Message)
    ensures m.mtype == EVENT_MSG ==> Tokens(m) == Split(m.mdata, ',')
    ensures m.mtype == DEEPSLEEP_EVENT_MSG ==> Tokens(m) == [m.mdata]
    ensures m.mtype == EVENT_WEBCFG_MSG ==> Tokens(m) == []
  {
  }

  // ----- commands -----

  /** Commands come token by token. */
  lemma {:induction false} CommandsConcat(m: Message, a: seq<string>, b: seq<string>)
    ensures CommandsOf(m, a + b) == CommandsOf(m, a) + CommandsOf(m, b) && CommandsOf(m, []) == []
  {
    hide CommandMessage, SuffixOf;
    if b == [] {
      assert a + b == a;
    } else {
      assert (a + b)[..|a + b| - 1] == a + b[..|b| - 1];
      CommandsConcat(m, a, b[..|b| - 1]);
    }
  }

  /** A token with something left of it gives one command, with the flags of its message, and any other none. */
  lemma CommandOfToken(m: Message, token: string)
    ensures CommandsOf(m, [token]) ==
            if IssueBase(token) == "" then []
            else [Command(Message(EVENT_MSG, IssueBase(token), if m.inDynamic then m.jsonPath else None,
                                  m.inDynamic, m.appendMode, INVALID_DEFAULT),
                          SuffixOf(token, 128))]
  {
    hide IssueBase, SuffixOf;
    assert [token][..0] == [];
  }

  /** So when something is left of every token, the commands are those of the tokens, one for one. */
  lemma {:induction false} CommandsAre(m: Message, tokens: seq<string>)
    requires forall token :: token in tokens ==> IssueBase(token) != ""
    ensures |CommandsOf(m, tokens)| == |tokens|
    ensures forall i :: 0 <= i < |tokens| ==>
              CommandsOf(m, tokens)[i] ==
                Command(Message(EVENT_MSG, IssueBase(tokens[i]), if m.inDynamic then m.jsonPath else None,
                                m.inDynamic, m.appendMode, INVALID_DEFAULT),
                        SuffixOf(tokens[i], 128))
  {
    hide IssueBase, SuffixOf;
    if tokens == [] {
    } else {
      var init, last := tokens[..|tokens| - 1], tokens[|tokens| - 1];
      assert last in tokens && forall token :: token in init ==> token in tokens;
      CommandsAre(m, init);
      CommandOfToken(m, last);
      CommandsConcat(m, init, [last]);
      assert tokens == init + [last];
    }
  }

  // ----- requests -----

  /** A token of an issue message asks for a package exactly when the routing says so, in terms of the files, and the
      name of the category fits; and what it asks for. */
  lemma IssueAsks(m: Message, token: string, files: Files, profileName: string, setOk: bool)
    requires m.mtype == EVENT_MSG && Processable(m, token, ProfilesFor(files, m, token))
    ensures var base, entry := IssueBase(token), Asked(m, token, ProfilesFor(files, m, token), profileName, setOk);
            && (base == "" ==> entry == None)
            && (base != "" ==>
                  && HasNodes(base)
                  && var n := Nodes(CategoryOf(base), TypeOf(base));
                     entry == if setOk && |n.category| <= 34 && WantsPackage(m, n, files)
                              then Some(Item("RDK-RRD-" + n.category, base + if m.appendMode then "_apnd" else ""))
                              else None)
  {
    hide IssueBase, HasNodes, CategoryOf, TypeOf, Lists, Chosen;
    var base := IssueBase(token);
    assert base + "" == base;
  }

  /** An append request wants a package when none is installed; a message that is not dynamic does when neither the
      static profile nor that of the installed package lists the issue. */
  predicate WantsPackage(m: Message, n: Nodes, files: Files) {
    if m.appendMode then files.installed.None?
    else !m.inDynamic && !Listed(files.fixed, n) && !Listed(files.installed, n)
  }

  /** A deep-sleep message asks for the deep-sleep package exactly on waking up. */
  lemma WakeAsks(m: Message, p: Profiles, profileName: string, setOk: bool)
    requires m.mtype == DEEPSLEEP_EVENT_MSG
    ensures Asked(m, m.mdata, p, profileName, setOk) ==
            if m.dsEvent == DOWNLOAD_PKG_INITIATE && setOk
            then Some(Item("RDK-RRD-" + (if profileName == "" then "" else profileName + "-") + "DEEPSLEEP",
                           m.mdata + if m.appendMode then "_apnd" else ""))
            else None
  {
    assert m.mdata + "" == m.mdata;
  }

  /** Each request that goes out is logged once, for the token that made it, as failed if it could not be set. */
  lemma RequestsLogged(s: State, p: Profiles, profileName: string, setOk: bool)
    requires s.recv.tokens != [] && s.recv.origins != [] && s.recv.sent.None?
    requires Process(s, p, profileName, setOk).Some?
    ensures var t, o := Process(s, p, profileName, setOk).value, multiset{s.recv.origins[0]};
            var out := Asked(s.recv.msg, s.recv.tokens[0], p, profileName, true).Some?;
            && Processable(s.recv.msg, s.recv.tokens[0], p)
            && t.logs.requested == s.logs.requested + (if out then o else multiset{})
            && t.logs.failed == s.logs.failed + (if out && !setOk then o else multiset{})
  {
    ProcessAsks(s, p, profileName, setOk);
    hide IssueBase, HasNodes, CategoryOf, Route, CacheString;
  }
}
