/** What holds in every state of every run. */
module ProtocolSafety {
  import opened CString
  import opened Wrappers
  import opened IssueText
  import opened IssueList
  import opened IssueName
  import opened PendingCache
  import opened Protocol

  // ----- tokens that may still ask for a download -----

  predicate MayRequest(m: Message) {
    || (m.mtype == EVENT_MSG && (m.appendMode || !m.inDynamic))
    || (m.mtype == DEEPSLEEP_EVENT_MSG && m.dsEvent == DOWNLOAD_PKG_INITIATE)
  }

  function MessageWork(m: Message, origins: seq<Origin>): multiset<Origin> {
    if MayRequest(m) then multiset(origins) else multiset{}
  }

  function QueueWork(queue: seq<Queued>): multiset<Origin> {
    if queue == [] then multiset{}
    else QueueWork(queue[..|queue| - 1]) + MessageWork(queue[|queue| - 1].msg, queue[|queue| - 1].origins)
  }

  function CacheOrigins(cache: seq<Pending>): multiset<Origin> {
    if cache == [] then multiset{} else multiset{cache[0].origin} + CacheOrigins(cache[1..])
  }

  function SentOrigin(sent: Option<Pending>): multiset<Origin> {
    if sent.Some? then multiset{sent.value.origin} else multiset{}
  }

  function InHand(handler: Handler): multiset<Origin> {
    if handler.Handled? then multiset{handler.entry.origin} else multiset{}
  }

  // ----- the invariant -----

  /** A base that processing leaves alone. */
  predicate Stable(base: string) {
    UNDERSCORE !in base && IssueBase(base) == base && Split(base, COMMA) == [base]
  }

  predicate OriginOk(o: Origin, nextMsg: nat) { o.message < nextMsg && Stable(o.base) }

  /** The labels of a message say what its tokens are and how they were asked for. */
  predicate Labelled(m: Message, tokens: seq<string>, origins: seq<Origin>, nextMsg: nat) {
    && |tokens| == |origins| && NUL !in m.mdata && (forall t :: t in tokens ==> NUL !in t)
    && !(m.inDynamic && m.appendMode)
    && (m.mtype == DEEPSLEEP_EVENT_MSG ==>
          m.mdata == DEEP_SLEEP && !m.appendMode && forall t :: t in tokens ==> t == m.mdata)
    && forall i :: 0 <= i < |tokens| ==>
         && OriginOk(origins[i], nextMsg)
         && origins[i].append == m.appendMode && origins[i].base == TokenBase(m, tokens[i])
  }

  /** The issue string of an entry is the base of its request, tagged exactly when it was an append request. */
  predicate EntryOk(p: Pending, nextMsg: nat, nextNode: nat) {
    && OriginOk(p.origin, nextMsg) && p.id < nextNode
    && p.item.issueString == CacheString(p.origin.base, p.origin.append)
  }

  predicate Distinct(cache: seq<Pending>) {
    forall i, j :: 0 <= i < j < |cache| ==> cache[i].id != cache[j].id
  }

  predicate QueueLabels(queue: seq<Queued>, nextMsg: nat) {
    forall q :: q in queue ==> Labelled(q.msg, Tokens(q.msg), q.origins, nextMsg)
  }

  predicate Entries(cache: seq<Pending>, sent: Option<Pending>, handler: Handler, nextMsg: nat, nextNode: nat) {
    && (forall p :: p in cache ==> EntryOk(p, nextMsg, nextNode))
    && Distinct(cache)
    && (sent.Some? ==> EntryOk(sent.value, nextMsg, nextNode) && forall p :: p in cache ==> p.id != sent.value.id)
    && (!handler.Idle? ==> handler.entry in cache)
  }

  /** Requests made and requests still possible are covered by tokens received and append completions. */
  predicate Authority(queue: seq<Queued>, m: Message, origins: seq<Origin>, logs: Logs) {
    logs.requested + QueueWork(queue) + MessageWork(m, origins) <= logs.external + logs.completions
  }

  predicate Sources(external: multiset<Origin>, completions: multiset<Origin>, nextMsg: nat) {
    && (forall o :: o in external ==> external[o] == 1 && o.message < nextMsg)
    && (forall o :: o in completions ==> o.append)
  }

  /** Every request is accounted for. */
  predicate Balance(cache: seq<Pending>, sent: Option<Pending>, handler: Handler, logs: Logs) {
    && logs.requested == logs.recorded + logs.failed + SentOrigin(sent)
    && logs.recorded + InHand(handler) == CacheOrigins(cache) + logs.delivered + logs.dropped
  }

  predicate Inv(s: State) {
    && QueueLabels(s.queue, s.nextMsg)
    && Labelled(s.recv.msg, s.recv.tokens, s.recv.origins, s.nextMsg)
    && Entries(s.cache, s.recv.sent, s.handler, s.nextMsg, s.nextNode)
    && Authority(s.queue, s.recv.msg, s.recv.origins, s.logs)
    && Sources(s.logs.external, s.logs.completions, s.nextMsg)
    && Balance(s.cache, s.recv.sent, s.handler, s.logs)
  }

  // ----- small facts -----

  lemma QueueWorkPush(queue: seq<Queued>, q: Queued)
    ensures QueueWork(queue + [q]) == QueueWork(queue) + MessageWork(q.msg, q.origins)
  {
    assert (queue + [q])[..|queue|] == queue;
  }

  lemma {:induction false} QueueWorkPop(queue: seq<Queued>)
    requires queue != []
    ensures QueueWork(queue) == MessageWork(queue[0].msg, queue[0].origins) + QueueWork(queue[1..])
  {
    hide MessageWork;
    var n := |queue| - 1;
    if n == 0 {
      assert queue[..0] == [] && queue[1..] == [];
    } else {
      var init, tail := queue[..n], queue[1..];
      QueueWorkPop(init);
      assert init[1..] == tail[..|tail| - 1] && init[0] == queue[0];
      assert QueueWork(tail) == QueueWork(init[1..]) + MessageWork(queue[n].msg, queue[n].origins);
    }
  }

  /** Removing a node by its address removes it and nothing else. */
  lemma {:induction false} DropIdAt(cache: seq<Pending>, k: nat)
    requires Distinct(cache) && k < |cache|
    ensures DropId(cache, cache[k].id) == Without(cache, k)
  {
    if k > 0 {
      DropIdAt(cache[1..], k - 1);
      assert Without(cache, k) == [cache[0]] + Without(cache[1..], k - 1);
    } else {
      assert Without(cache, 0) == cache[1..];
    }
  }

  lemma {:induction false} CacheOriginsWithout(cache: seq<Pending>, k: nat)
    requires k < |cache|
    ensures CacheOrigins(cache) == CacheOrigins(Without(cache, k)) + multiset{cache[k].origin}
  {
    if k == 0 {
      assert Without(cache, 0) == cache[1..];
    } else {
      hide CacheOrigins, Without;
      CacheOriginsWithout(cache[1..], k - 1);
      CacheOriginsCons(cache[0], cache[1..], k - 1);
      WithoutCons(cache, k);
    }
  }

  lemma WithoutCons(cache: seq<Pending>, k: nat)
    requires 0 < k < |cache|
    ensures cache == [cache[0]] + cache[1..] && Without(cache, k) == [cache[0]] + Without(cache[1..], k - 1)
  {
  }

  lemma CacheOriginsCons(p: Pending, tail: seq<Pending>, k: nat)
    requires k < |tail| && CacheOrigins(tail) == CacheOrigins(Without(tail, k)) + multiset{tail[k].origin}
    ensures CacheOrigins([p] + tail) == CacheOrigins([p] + Without(tail, k)) + multiset{tail[k].origin}
  {
    hide CacheOrigins, Without;
    CacheOriginsPush(p, tail);
    CacheOriginsPush(p, Without(tail, k));
    UnionAssoc(multiset{p.origin}, CacheOrigins(Without(tail, k)), multiset{tail[k].origin});
  }

  lemma UnionAssoc(a: multiset<Origin>, b: multiset<Origin>, c: multiset<Origin>)
    ensures a + (b + c) == (a + b) + c
  {
  }

  lemma CacheOriginsPush(p: Pending, cache: seq<Pending>)
    ensures CacheOrigins([p] + cache) == multiset{p.origin} + CacheOrigins(cache)
  {
    assert ([p] + cache)[1..] == cache;
  }

  lemma WithoutDistinct(cache: seq<Pending>, k: nat)
    requires Distinct(cache) && k < |cache|
    ensures Distinct(Without(cache, k))
    ensures forall p :: p in Without(cache, k) ==> p in cache
  {
    var d := Without(cache, k);
    assert forall i :: 0 <= i < |d| ==> d[i] == if i < k then cache[i] else cache[i + 1];
  }

  lemma IssueCharsHaveNoUnderscore(s: string)
    requires forall c :: c in s ==> IsIssueChar(c)
    ensures UNDERSCORE !in s
  {
  }

  lemma StableToken(token: string)
    requires COMMA !in token
    ensures Stable(IssueBase(token))
  {
    IssueBaseStable(token);
    IssueCharsHaveNoUnderscore(IssueBase(token));
  }

  lemma StableAlnum(s: string)
    requires s != "" && |s| < BASE_SIZE && forall i :: 0 <= i < |s| ==> IsAlnum(s[i])
    ensures Stable(s)
  {
    hide Runs, Filter;
    assert forall c :: c in s ==> IsIssueChar(c) && c != COMMA && c != UNDERSCORE;
    RunLengthIs(s, UNDERSCORE, |s|);
    assert s[..|s|] == s;
    FilterAll(IsIssueChar, s);
    OneRun(s);
  }

  lemma StableDeepSleep()
    ensures Stable(DEEP_SLEEP)
  {
    hide Stable;
    StableAlnum(DEEP_SLEEP);
  }

  /** The tokens of a split hold no comma. */
  lemma TokensPlain(m: Message)
    requires m.mtype == EVENT_MSG
    ensures forall i :: 0 <= i < |Tokens(m)| ==> COMMA !in Tokens(m)[i]
  {
    forall i | 0 <= i < |Tokens(m)|
      ensures COMMA !in Tokens(m)[i]
    {
      if Runs(m.mdata, COMMA) != [] {
        assert Tokens(m)[i] in Runs(m.mdata, COMMA);
      }
    }
  }

  lemma {:induction false} DistinctCounts(origins: seq<Origin>)
    requires forall i, j :: 0 <= i < j < |origins| ==> origins[i] != origins[j]
    ensures forall o :: o in multiset(origins) ==> multiset(origins)[o] == 1
  {
    if origins == [] {
    } else {
      var init, last := origins[..|origins| - 1], origins[|origins| - 1];
      DistinctCounts(init);
      assert origins == init + [last];
      assert last !in init;
    }
  }

  lemma LabelledGrows(m: Message, tokens: seq<string>, origins: seq<Origin>, n: nat)
    requires Labelled(m, tokens, origins, n)
    ensures Labelled(m, tokens, origins, n + 1)
  {
  }

  lemma TokensHaveNoNul(m: Message)
    requires NUL !in m.mdata
    ensures forall t :: t in Tokens(m) ==> NUL !in t
  {
  }

  lemma StableHasNoNul(base: string)
    requires Stable(base)
    ensures NUL !in base
  {
    IssueBaseStable(base);
  }

  // ----- messages from outside -----

  predicate External(m: Message) {
    !m.inDynamic && NUL !in m.mdata && (m.mtype == DEEPSLEEP_EVENT_MSG ==> m == WAKE_MESSAGE)
  }

  lemma FreshLabels(m: Message, id: nat)
    requires External(m)
    ensures Labelled(m, Tokens(m), OriginsOf(id, m), id + 1)
    ensures forall o :: o in multiset(OriginsOf(id, m)) ==> o.message == id && multiset(OriginsOf(id, m))[o] == 1
  {
    hide IssueBase, Split, Stable;
    TokensHaveNoNul(m);
    if m.mtype == EVENT_MSG {
      TokensPlain(m);
      forall i | 0 <= i < |Tokens(m)|
        ensures Stable(IssueBase(Tokens(m)[i]))
      {
        StableToken(Tokens(m)[i]);
      }
    }
    StableDeepSleep();
    DistinctCounts(OriginsOf(id, m));
  }

  lemma QueueLabelsPush(queue: seq<Queued>, q: Queued, n: nat)
    requires QueueLabels(queue, n) && Labelled(q.msg, Tokens(q.msg), q.origins, n)
    ensures QueueLabels(queue + [q], n)
  {
    hide Labelled, Tokens;
  }

  lemma QueueLabelsGrow(queue: seq<Queued>, n: nat)
    requires QueueLabels(queue, n)
    ensures QueueLabels(queue, n + 1)
  {
    hide Labelled, Tokens;
    forall q | q in queue
      ensures Labelled(q.msg, Tokens(q.msg), q.origins, n + 1)
    {
      LabelledGrows(q.msg, Tokens(q.msg), q.origins, n);
    }
  }

  lemma EntriesGrow(cache: seq<Pending>, sent: Option<Pending>, handler: Handler, n: nat, k: nat, n': nat, k': nat)
    requires Entries(cache, sent, handler, n, k) && n <= n' && k <= k'
    ensures Entries(cache, sent, handler, n', k')
  {
    hide Stable, CacheString;
  }

  lemma FreshSources(external: multiset<Origin>, completions: multiset<Origin>, added: multiset<Origin>, n: nat)
    requires Sources(external, completions, n)
    requires forall o :: o in added ==> o.message == n && added[o] == 1
    ensures Sources(external + added, completions, n + 1)
  {
    forall o | o in external + added
      ensures (external + added)[o] == 1 && o.message < n + 1
    {
      if o in external {
        assert o !in added;
      }
    }
  }

  lemma AuthorityPush(queue: seq<Queued>, m: Message, origins: seq<Origin>, logs: Logs, q: Queued, more: Logs)
    requires Authority(queue, m, origins, logs)
    requires more.requested == logs.requested
    requires logs.external + logs.completions + MessageWork(q.msg, q.origins) <= more.external + more.completions
    ensures Authority(queue + [q], m, origins, more)
  {
    hide MessageWork, QueueWork;
    QueueWorkPush(queue, q);
  }

  lemma PushKeepsInv(s: State, m: Message)
    requires Inv(s) && External(m)
    ensures Inv(Push(s, m))
  {
    hide QueueLabels, Labelled, Tokens, OriginsOf, Entries, Authority, Sources, Balance;
    var n, origins, s' := s.nextMsg, OriginsOf(s.nextMsg, m), Push(s, m);
    FreshLabels(m, n);
    QueueLabelsGrow(s.queue, n);
    QueueLabelsPush(s.queue, Queued(m, origins), n + 1);
    LabelledGrows(s.recv.msg, s.recv.tokens, s.recv.origins, n);
    EntriesGrow(s.cache, s.recv.sent, s.handler, n, s.nextNode, n + 1, s.nextNode);
    FreshSources(s.logs.external, s.logs.completions, multiset(origins), n);
    AuthorityPush(s.queue, s.recv.msg, s.recv.origins, s.logs, Queued(m, origins), s'.logs);
    BalanceOfLogs(s.cache, s.recv.sent, s.handler, s.logs, s'.logs);
  }

  lemma BalanceOfLogs(cache: seq<Pending>, sent: Option<Pending>, handler: Handler, logs: Logs, logs': Logs)
    requires Balance(cache, sent, handler, logs)
    requires logs'.requested == logs.requested && logs'.failed == logs.failed && logs'.recorded == logs.recorded
             && logs'.delivered == logs.delivered && logs'.dropped == logs.dropped
    ensures Balance(cache, sent, handler, logs')
  {
  }

  // ----- the install event handler -----

  /** The message made from an entry is labelled by the request the entry came from: the flag and the base have
      survived the cache. */
  lemma FollowUpLabels(e: Pending, nextMsg: nat, nextNode: nat, path: string)
    requires EntryOk(e, nextMsg, nextNode)
    ensures var m := InstalledMessage(e.item.issueString, path);
            && Labelled(m, Tokens(m), [e.origin], nextMsg)
            && m.appendMode == e.origin.append && m.mdata == e.origin.base
            && (MayRequest(m) <==> m.appendMode)
  {
    hide Split, IssueBase, InstalledMessage, CacheString;
    InstalledShape(e.origin.base, e.origin.append, path);
    StableHasNoNul(e.origin.base);
  }

  /** The follow-up of a request: its base, and dynamic or append as it was asked for. */
  lemma InstalledShape(base: string, append: bool, path: string)
    requires UNDERSCORE !in base
    ensures var m := InstalledMessage(CacheString(base, append), path);
            && m.mdata == base && m.appendMode == append && m.inDynamic == !append
            && m.mtype == (if base == DEEP_SLEEP && !append then DEEPSLEEP_EVENT_MSG else EVENT_MSG)
            && (m.mtype == DEEPSLEEP_EVENT_MSG ==> m.dsEvent == PKG_INSTALL_COMPLETE)
  {
    hide EndsWith, Untagged;
    CacheStringReadsBack(base, append);
    assert !EndsWith(DEEP_SLEEP, APPEND_SUFFIX) by { NotTagged(); }
  }

  lemma NotTagged()
    ensures !EndsWith(DEEP_SLEEP, APPEND_SUFFIX)
  {
    assert DEEP_SLEEP[|DEEP_SLEEP| - 5..][0] == 'S';
  }

  /** Delivering or dropping an entry moves it from the cache side of the balance to the other, while it is in hand. */
  lemma BalanceAct(cache: seq<Pending>, sent: Option<Pending>, e: Pending, complete: bool, path: string,
                   logs: Logs, more: Logs)
    requires Balance(cache, sent, Matched(e, complete, path), logs)
    requires more.requested == logs.requested && more.recorded == logs.recorded && more.failed == logs.failed
    requires more.delivered + more.dropped == logs.delivered + logs.dropped + multiset{e.origin}
    ensures Balance(cache, sent, Handled(e), more)
  {
    MoveIn(logs.recorded, CacheOrigins(cache), logs.delivered, logs.dropped, more.delivered, more.dropped,
           multiset{e.origin});
  }

  lemma MoveIn(r: multiset<Origin>, c: multiset<Origin>, d: multiset<Origin>, p: multiset<Origin>,
               d': multiset<Origin>, p': multiset<Origin>, x: multiset<Origin>)
    requires r + multiset{} == c + d + p && d' + p' == d + p + x
    ensures r + x == c + d' + p'
  {
    forall o: Origin
      ensures (r + x)[o] == (c + d' + p')[o]
    {
      assert (r + multiset{})[o] == (c + d + p)[o] && (d' + p')[o] == (d + p + x)[o];
    }
  }

  lemma Cancel(r: multiset<Origin>, c: multiset<Origin>, d: multiset<Origin>, p: multiset<Origin>, x: multiset<Origin>)
    requires r + x == (c + x) + d + p
    ensures r + multiset{} == c + d + p
  {
    forall o: Origin
      ensures (r + multiset{})[o] == (c + d + p)[o]
    {
      assert (r + x)[o] == ((c + x) + d + p)[o];
    }
  }

  lemma AddOn(r: multiset<Origin>, h: multiset<Origin>, c: multiset<Origin>, d: multiset<Origin>, p: multiset<Origin>,
              x: multiset<Origin>)
    requires r + h == c + d + p
    ensures (r + x) + h == (x + c) + d + p
  {
    forall o: Origin
      ensures ((r + x) + h)[o] == ((x + c) + d + p)[o]
    {
      assert (r + h)[o] == (c + d + p)[o];
    }
  }

  lemma EntriesAct(cache: seq<Pending>, sent: Option<Pending>, h: Handler, h': Handler, n: nat, k: nat)
    requires Entries(cache, sent, h, n, k) && (h'.Idle? || h'.entry in cache)
    ensures Entries(cache, sent, h', n, k)
  {
  }

  lemma ActKeepsInv(s: State)
    requires Inv(s) && s.handler.Matched?
    ensures Inv(Act(s, s.handler.entry, s.handler.complete, s.handler.path))
  {
    hide QueueLabels, Labelled, Tokens, InstalledMessage, Authority, Balance, EntryOk, Distinct;
    var e, s' := s.handler.entry, Act(s, s.handler.entry, s.handler.complete, s.handler.path);
    EntriesAct(s.cache, s.recv.sent, s.handler, s'.handler, s.nextMsg, s.nextNode);
    if s.handler.complete {
      var q := Queued(InstalledMessage(e.item.issueString, s.handler.path), [e.origin]);
      FollowUpLabels(e, s.nextMsg, s.nextNode, s.handler.path);
      QueueLabelsPush(s.queue, q, s.nextMsg);
      assert multiset([e.origin]) == multiset{e.origin};
      AuthorityPush(s.queue, s.recv.msg, s.recv.origins, s.logs, q, s'.logs);
    } else {
      AuthorityOfLogs(s.queue, s.recv.msg, s.recv.origins, s.logs, s'.logs);
    }
    BalanceAct(s.cache, s.recv.sent, e, s.handler.complete, s.handler.path, s.logs, s'.logs);
  }

  lemma AuthorityOfLogs(queue: seq<Queued>, m: Message, origins: seq<Origin>, logs: Logs, logs': Logs)
    requires Authority(queue, m, origins, logs)
    requires logs'.requested == logs.requested && logs'.external == logs.external
    requires logs'.completions == logs.completions
    ensures Authority(queue, m, origins, logs')
  {
  }

  lemma EntriesWithout(cache: seq<Pending>, sent: Option<Pending>, h: Handler, n: nat, k: nat, at: nat)
    requires Entries(cache, sent, h, n, k) && at < |cache|
    ensures Entries(Without(cache, at), sent, Idle, n, k)
  {
    hide EntryOk, Without;
    WithoutDistinct(cache, at);
  }

  lemma BalanceWithout(cache: seq<Pending>, sent: Option<Pending>, at: nat, logs: Logs)
    requires at < |cache| && Balance(cache, sent, Handled(cache[at]), logs)
    ensures Balance(Without(cache, at), sent, Idle, logs)
  {
    CacheOriginsWithout(cache, at);
    Cancel(logs.recorded, CacheOrigins(Without(cache, at)), logs.delivered, logs.dropped, multiset{cache[at].origin});
  }

  lemma RemoveKeepsInv(s: State)
    requires Inv(s) && s.handler.Handled?
    ensures Inv(Step(s, RemoveEntry).value)
  {
    hide QueueLabels, Labelled, Authority, Balance, Sources, EntryOk;
    var k :| 0 <= k < |s.cache| && s.cache[k] == s.handler.entry;
    DropIdAt(s.cache, k);
    EntriesWithout(s.cache, s.recv.sent, s.handler, s.nextMsg, s.nextNode, k);
    BalanceWithout(s.cache, s.recv.sent, k, s.logs);
  }

  lemma MatchKeepsInv(s: State, pkg: string, complete: bool, path: string)
    requires Inv(s) && s.handler.Idle?
    ensures Inv(Step(s, InstallEvent(pkg, complete, path)).value)
  {
    hide QueueLabels, Labelled, Authority, Sources, EntryOk, Distinct, Entries, CacheOrigins;
    var s' := Step(s, InstallEvent(pkg, complete, path)).value;
    EntriesAct(s.cache, s.recv.sent, s.handler, s'.handler, s.nextMsg, s.nextNode);
  }

  // ----- the receiver -----

  lemma ReceiveKeepsInv(s: State)
    requires Inv(s) && Step(s, Receive).Some?
    ensures Inv(Step(s, Receive).value)
  {
    hide Entries, Sources, Balance, MayRequest, Tokens, QueueWork, Stable;
    QueueWorkPop(s.queue);
    assert s.queue[0] in s.queue;
    assert forall q :: q in s.queue[1..] ==> q in s.queue;
    assert s.recv.origins == [] && multiset(s.recv.origins) == multiset{};
  }

  lemma RecordKeepsInv(s: State)
    requires Inv(s) && s.recv.sent.Some?
    ensures Inv(Step(s, RecordRequest).value)
  {
    hide QueueLabels, Labelled, Authority, Sources, Balance, Entries;
    var s' := Step(s, RecordRequest).value;
    var p := s.recv.sent.value;
    RecordEntries(s.cache, p, s.handler, s.nextMsg, s.nextNode);
    RecordBalance(s.cache, p, s.handler, s.logs, s'.logs);
    AuthorityOfLogs(s.queue, s.recv.msg, s.recv.origins, s.logs, s'.logs);
  }

  lemma RecordEntries(cache: seq<Pending>, p: Pending, h: Handler, n: nat, k: nat)
    requires Entries(cache, Some(p), h, n, k)
    ensures Entries([p] + cache, None, h, n, k)
  {
    hide EntryOk;
    var c := [p] + cache;
    forall i, j | 0 <= i < j < |c|
      ensures c[i].id != c[j].id
    {
      assert c[j] == cache[j - 1] && c[j] in cache;
      assert i > 0 ==> c[i] == cache[i - 1];
    }
  }

  lemma RecordBalance(cache: seq<Pending>, p: Pending, h: Handler, logs: Logs, logs': Logs)
    requires Balance(cache, Some(p), h, logs)
    requires logs' == logs.(recorded := logs.recorded + multiset{p.origin})
    ensures Balance([p] + cache, None, h, logs')
  {
    CacheOriginsPush(p, cache);
    AddOn(logs.recorded, InHand(h), CacheOrigins(cache), logs.delivered, logs.dropped, multiset{p.origin});
    assert logs.recorded + logs.failed + multiset{p.origin}
           == (logs.recorded + multiset{p.origin}) + logs.failed + multiset{};
  }

  /** The receiver goes on to its next token. */
  function NextToken(s: State): State
    requires s.recv.tokens != [] && s.recv.origins != []
  {
    s.(recv := s.recv.(tokens := s.recv.tokens[1..], origins := s.recv.origins[1..]))
  }

  lemma FirstWork(m: Message, origins: seq<Origin>)
    requires origins != []
    ensures MessageWork(m, origins) ==
            MessageWork(m, origins[1..]) + (if MayRequest(m) then multiset{origins[0]} else multiset{})
  {
    assert origins == [origins[0]] + origins[1..];
  }

  lemma LabelledRest(m: Message, tokens: seq<string>, origins: seq<Origin>, n: nat)
    requires Labelled(m, tokens, origins, n) && tokens != []
    ensures Labelled(m, tokens[1..], origins[1..], n)
    ensures OriginOk(origins[0], n) && origins[0].append == m.appendMode && origins[0].base == TokenBase(m, tokens[0])
  {
    hide OriginOk, TokenBase;
    assert forall t :: t in tokens[1..] ==> t in tokens;
  }

  lemma NextTokenKeepsInv(s: State)
    requires Inv(s) && s.recv.tokens != [] && s.recv.origins != []
    ensures Inv(NextToken(s))
  {
    hide QueueLabels, Labelled, QueueWork, MessageWork, Sources, Balance, Entries;
    LabelledRest(s.recv.msg, s.recv.tokens, s.recv.origins, s.nextMsg);
    FirstWork(s.recv.msg, s.recv.origins);
  }

  lemma RequestAuthority(queue: seq<Queued>, m: Message, origins: seq<Origin>, logs: Logs, logs': Logs)
    requires origins != [] && Authority(queue, m, origins, logs) && MayRequest(m)
    requires logs'.requested == logs.requested + multiset{origins[0]}
    requires logs'.external == logs.external && logs'.completions == logs.completions
    ensures Authority(queue, m, origins[1..], logs')
  {
    hide QueueWork, MessageWork, MayRequest;
    FirstWork(m, origins);
  }

  lemma RequestEntries(cache: seq<Pending>, h: Handler, n: nat, k: nat, key: string, issue: string, o: Origin)
    requires Entries(cache, None, h, n, k) && OriginOk(o, n) && issue == CacheString(o.base, o.append)
    ensures Entries(cache, Some(Pending(k, Item(key, issue), o)), h, n, k + 1)
  {
    hide OriginOk, CacheString;
    EntriesGrow(cache, None, h, n, k, n, k + 1);
    assert forall p :: p in cache ==> EntryOk(p, n, k);
  }

  lemma RequestBalance(cache: seq<Pending>, sent: Option<Pending>, h: Handler, logs: Logs, logs': Logs, o: Origin)
    requires Balance(cache, None, h, logs)
    requires if sent.Some? then sent.value.origin == o && logs' == logs.(requested := logs.requested + multiset{o})
             else logs' == logs.(requested := logs.requested + multiset{o}, failed := logs.failed + multiset{o})
    ensures Balance(cache, sent, h, logs')
  {
    hide CacheOrigins;
    assert logs.requested == logs.recorded + logs.failed;
    assert logs'.requested == logs'.recorded + logs'.failed + SentOrigin(sent);
  }

  lemma RequestKeepsInv(s: State, key: string, issue: string, setOk: bool)
    requires Inv(s) && s.recv.tokens != [] && s.recv.origins != [] && s.recv.sent.None?
    requires MayRequest(s.recv.msg)
    requires issue == CacheString(s.recv.origins[0].base, s.recv.origins[0].append)
    ensures Inv(Request(NextToken(s), key, issue, s.recv.origins[0], setOk))
  {
    hide QueueLabels, Labelled, MayRequest, Sources, Entries, Authority, Balance;
    var o, s' := s.recv.origins[0], Request(NextToken(s), key, issue, s.recv.origins[0], setOk);
    LabelledRest(s.recv.msg, s.recv.tokens, s.recv.origins, s.nextMsg);
    RequestAuthority(s.queue, s.recv.msg, s.recv.origins, s.logs, s'.logs);
    RequestEntries(s.cache, s.handler, s.nextMsg, s.nextNode, key, issue, o);
    RequestBalance(s.cache, s'.recv.sent, s.handler, s.logs, s'.logs, o);
  }

  /** Only an append request, or one that is not marked dynamic, is routed to a download. */
  lemma DownloadsAreAllowed(m: Message, token: string, p: Profiles)
    requires m.mtype == EVENT_MSG && CommandMessage(m, token).Some?
    requires Route(CommandMessage(m, token).value, p) == Download
    ensures MayRequest(m)
  {
  }

  lemma ProcessKeepsInv(s: State, p: Profiles, profileName: string, setOk: bool)
    requires Inv(s) && s.recv.tokens != [] && s.recv.origins != [] && s.recv.sent.None?
    requires Process(s, p, profileName, setOk).Some?
    ensures Inv(Process(s, p, profileName, setOk).value)
  {
    hide Inv, Route, HasNodes, CategoryOf, PackageKey, IssueBase, CacheString, Request;
    NextTokenKeepsInv(s);
    var m, token, origin := s.recv.msg, s.recv.tokens[0], s.recv.origins[0];
    FirstLabel(s);
    match m.mtype
    case EVENT_WEBCFG_MSG =>
    case DEEPSLEEP_EVENT_MSG =>
      if m.dsEvent == DOWNLOAD_PKG_INITIATE {
        RequestKeepsInv(s, PackageKey("", true, profileName), CacheString(m.mdata, m.appendMode), setOk);
      }
    case EVENT_MSG =>
      var cm := CommandMessage(m, token);
      if cm.Some? && HasNodes(cm.value.mdata) && Route(cm.value, p) == Download {
        DownloadsAreAllowed(m, token, p);
        RequestKeepsInv(s, PackageKey(CategoryOf(cm.value.mdata), false, profileName),
                        CacheString(cm.value.mdata, m.appendMode), setOk);
      }
  }

  lemma FirstLabel(s: State)
    requires Inv(s) && s.recv.tokens != [] && s.recv.origins != []
    ensures s.recv.origins[0].append == s.recv.msg.appendMode
    ensures s.recv.origins[0].base == TokenBase(s.recv.msg, s.recv.tokens[0])
    ensures s.recv.msg.mtype == DEEPSLEEP_EVENT_MSG ==> s.recv.tokens[0] == s.recv.msg.mdata
  {
    assert s.recv.tokens[0] in s.recv.tokens;
  }

  // ----- every state of every run -----

  lemma StepKeepsInv(s: State, a: Action)
    requires Inv(s) && Step(s, a).Some?
    ensures Inv(Step(s, a).value)
  {
    hide Inv, Process, Act, Push, DropId;
    match a
    case PushIssues(text, webcfg) =>
      PushKeepsInv(s, IssueMessage(text, if webcfg then EVENT_WEBCFG_MSG else EVENT_MSG));
    case DeepSleepWake =>
      assert NUL !in WAKE_MESSAGE.mdata;
      PushKeepsInv(s, WAKE_MESSAGE);
    case InstallEvent(pkg, complete, path) => MatchKeepsInv(s, pkg, complete, path);
    case ActOnEvent => ActKeepsInv(s);
    case RemoveEntry => RemoveKeepsInv(s);
    case Receive => ReceiveKeepsInv(s);
    case ProcessToken(profiles, profileName, setOk) => ProcessKeepsInv(s, profiles, profileName, setOk);
    case RecordRequest => RecordKeepsInv(s);
  }

  lemma {:induction false} RunKeepsInv(actions: seq<Action>)
    requires Run(actions).Some?
    ensures Inv(Run(actions).value)
  {
    if actions == [] {
    } else {
      hide Inv, Step;
      RunKeepsInv(actions[..|actions| - 1]);
      StepKeepsInv(Run(actions[..|actions| - 1]).value, actions[|actions| - 1]);
    }
  }

  // ----- the main results -----

  /** At most once: whatever the threads do, a token that was not an append request leads to at most one download
      request; an append request to at most one more than it had completions. */
  lemma AtMostOneDownload(actions: seq<Action>, o: Origin)
    requires Run(actions).Some?
    ensures var logs := Run(actions).value.logs;
            && logs.requested[o] <= 1 + logs.completions[o]
            && (!o.append ==> logs.requested[o] <= 1)
  {
    hide Run, QueueLabels, Labelled, Entries, Balance;
    RunKeepsInv(actions);
    var s := Run(actions).value;
    var logs := s.logs;
    AuthorityAt(s.queue, s.recv.msg, s.recv.origins, logs, o);
    assert logs.external[o] <= 1 by { assert o in logs.external || logs.external[o] == 0; }
    assert !o.append ==> o !in logs.completions;
  }

  lemma AuthorityAt(queue: seq<Queued>, m: Message, origins: seq<Origin>, logs: Logs, o: Origin)
    requires Authority(queue, m, origins, logs)
    ensures logs.requested[o] <= logs.external[o] + logs.completions[o]
  {
    hide QueueWork, MessageWork;
    assert (logs.requested + QueueWork(queue) + MessageWork(m, origins))[o] <= (logs.external + logs.completions)[o];
  }

  /** Requests never exceed the tokens received (deep-sleep initiations among them) plus the append completions. */
  lemma TotalRequests(actions: seq<Action>)
    requires Run(actions).Some?
    ensures var logs := Run(actions).value.logs; |logs.requested| <= |logs.external| + |logs.completions|
  {
    hide Run, QueueLabels, Labelled, Entries, Balance;
    RunKeepsInv(actions);
    var s := Run(actions).value;
    forall o: Origin
      ensures s.logs.requested[o] <= (s.logs.external + s.logs.completions)[o]
    {
      AuthorityAt(s.queue, s.recv.msg, s.recv.origins, s.logs, o);
    }
    SubsetSize(s.logs.requested, s.logs.external + s.logs.completions);
  }

  lemma SubsetSize(a: multiset<Origin>, b: multiset<Origin>)
    requires a <= b
    ensures |a| <= |b|
  {
    assert b == a + (b - a);
  }

  /** Conservation: a request that was made failed, is about to be recorded, waits in the cache, was delivered or was
      dropped, each exactly once; an entry in the handler's hand is still in the cache. */
  lemma Conservation(actions: seq<Action>)
    requires Run(actions).Some?
    ensures var s := Run(actions).value;
            && s.logs.requested == s.logs.recorded + s.logs.failed + SentOrigin(s.recv.sent)
            && s.logs.recorded + InHand(s.handler) == CacheOrigins(s.cache) + s.logs.delivered + s.logs.dropped
            && (s.handler.Idle? ==> |s.logs.recorded| == |s.cache| + |s.logs.delivered| + |s.logs.dropped|)
  {
    hide Run, QueueLabels, Labelled, Entries, Authority, CacheOrigins;
    RunKeepsInv(actions);
    var s := Run(actions).value;
    CacheOriginsSize(s.cache);
    assert s.logs.recorded + multiset{} == s.logs.recorded;
  }

  lemma {:induction false} CacheOriginsSize(cache: seq<Pending>)
    ensures |CacheOrigins(cache)| == |cache|
  {
    if cache == [] {
    } else {
      CacheOriginsSize(cache[1..]);
    }
  }

  /** The append flag survives the cache: in every state, the tag of a cached issue string says how its request was
      made, taking it off gives the base of the request, and no queued message is both dynamic and an append. */
  lemma AppendFlagSurvives(actions: seq<Action>)
    requires Run(actions).Some?
    ensures var s := Run(actions).value;
            && (forall p :: p in s.cache ==>
                  && EndsWith(p.item.issueString, APPEND_SUFFIX) == p.origin.append
                  && Untagged(p.item.issueString) == p.origin.base)
            && (forall q :: q in s.queue ==>
                  && !(q.msg.inDynamic && q.msg.appendMode)
                  && |q.origins| == |Tokens(q.msg)|
                  && forall i :: 0 <= i < |q.origins| ==>
                       && q.origins[i].append == q.msg.appendMode
                       && q.origins[i].base == TokenBase(q.msg, Tokens(q.msg)[i]))
  {
    hide Run, Authority, Balance, Tokens, TokenBase, Untagged, EndsWith;
    RunKeepsInv(actions);
    var s := Run(actions).value;
    forall p | p in s.cache
      ensures EndsWith(p.item.issueString, APPEND_SUFFIX) == p.origin.append
      ensures Untagged(p.item.issueString) == p.origin.base
    {
      assert EntryOk(p, s.nextMsg, s.nextNode);
      CacheStringReadsBack(p.origin.base, p.origin.append);
    }
  }

  // ----- one install event -----

  /** What the receiver and the outside world can do while an event is being handled. */
  predicate Concurrent(a: Action) {
    !a.InstallEvent? && !a.ActOnEvent? && !a.RemoveEntry?
  }

  function RunFrom(s: State, actions: seq<Action>): Option<State> {
    if actions == [] then Some(s)
    else
      var before := RunFrom(s, actions[..|actions| - 1]);
      if before.None? then None else Step(before.value, actions[|actions| - 1])
  }

  predicate Extends(cache: seq<Pending>, base: seq<Pending>) {
    |cache| >= |base| && cache[|cache| - |base|..] == base
  }

  /** Meanwhile the cache only grows at its front. */
  lemma {:induction false} ConcurrentSteps(s: State, actions: seq<Action>)
    requires Inv(s) && RunFrom(s, actions).Some? && forall a :: a in actions ==> Concurrent(a)
    ensures var t := RunFrom(s, actions).value;
            Inv(t) && t.handler == s.handler && Extends(t.cache, s.cache)
            && t.logs.delivered == s.logs.delivered && t.logs.dropped == s.logs.dropped
  {
    hide Inv, Step;
    if actions == [] {
      assert s.cache[0..] == s.cache;
    } else {
      var init := actions[..|actions| - 1];
      ConcurrentSteps(s, init);
      var t, a := RunFrom(s, init).value, actions[|actions| - 1];
      assert a in actions;
      StepKeepsInv(t, a);
      ConcurrentStep(t, a);
    }
  }

  lemma ConcurrentStep(s: State, a: Action)
    requires Concurrent(a) && Step(s, a).Some?
    ensures var t := Step(s, a).value;
            t.handler == s.handler && (t.cache == s.cache || (t.cache != [] && t.cache[1..] == s.cache))
            && t.logs.delivered == s.logs.delivered && t.logs.dropped == s.logs.dropped
  {
    hide CommandMessage, Route, HasNodes, CategoryOf, PackageKey, CacheString, IssueMessage, Tokens, OriginsOf;
  }

  lemma ExtendsWithout(c: seq<Pending>, mid: seq<Pending>, base: seq<Pending>, k: nat)
    requires Extends(c, mid) && Extends(mid, base) && k < |base|
    ensures var n := |c| - |base|; n >= 0 && c[n + k] == base[k] && Extends(Without(c, n + k), Without(base, k))
  {
    var n := |c| - |base|;
    assert c[n..] == base by { assert c[|c| - |mid|..][|mid| - |base|..] == c[n..]; }
    assert Without(c, n + k)[n..] == Without(base, k);
  }

  /** Handling an install event for a cached package, with anything else happening in between: exactly the newest
      entry for the package leaves the cache, and exactly one message is delivered for it, or the request is dropped
      when the installation did not complete. */
  lemma InstallEpisode(pkg: string, complete: bool, path: string, xs: seq<Action>, ys: seq<Action>,
                       s: State, s1: State, s2: State, s3: State, s4: State, t: State)
    requires Inv(s) && FirstMatch(ItemsOf(s.cache), pkg).Some?
    requires Step(s, InstallEvent(pkg, complete, path)) == Some(s1)
    requires RunFrom(s1, xs) == Some(s2) && forall a :: a in xs ==> Concurrent(a)
    requires Step(s2, ActOnEvent) == Some(s3)
    requires RunFrom(s3, ys) == Some(s4) && forall a :: a in ys ==> Concurrent(a)
    requires Step(s4, RemoveEntry) == Some(t)
    ensures var k := FirstMatch(ItemsOf(s.cache), pkg).value;
            var origin := multiset{s.cache[k].origin};
            && Inv(t) && t.handler.Idle? && Extends(t.cache, Without(s.cache, k))
            && (if complete then t.logs.delivered == s.logs.delivered + origin && t.logs.dropped == s.logs.dropped
                else t.logs.delivered == s.logs.delivered && t.logs.dropped == s.logs.dropped + origin)
            && s3.queue == if complete
                           then s2.queue + [Queued(InstalledMessage(s.cache[k].item.issueString, path),
                                                   [s.cache[k].origin])]
                           else s2.queue
  {
    hide Inv, RunFrom, Without, Extends, InstalledMessage, Process, Push;
    var k := FirstMatch(ItemsOf(s.cache), pkg).value;
    StepKeepsInv(s, InstallEvent(pkg, complete, path));
    ConcurrentSteps(s1, xs);
    StepKeepsInv(s2, ActOnEvent);
    ConcurrentSteps(s3, ys);
    StepKeepsInv(s4, RemoveEntry);
    ExtendsWithout(s4.cache, s3.cache, s.cache, k);
    InvDistinct(s4);
    DropIdAt(s4.cache, |s4.cache| - |s.cache| + k);
  }

  lemma InvDistinct(s: State)
    requires Inv(s)
    ensures Distinct(s.cache)
  {
  }
}
