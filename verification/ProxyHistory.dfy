/** Whole runs of the proxy: the state of ProxyState together with everything that ever
    happened, so that safety over all runs can be stated. Each received query has a fate,
    each sent reply is recorded with the query it was sent for. */
module ProxyHistory {
  import opened Words
  import opened Options
  import opened CStrings
  import opened DnsWire
  import opened DnsResponse
  import opened Decision
  import opened QueryLog
  import opened ProxyState

  /** A datagram received from a client: the receive buffer, its length, when it came, and the
      settings and lists that were in force. */
  datatype Query = Query(sock: int, client: SockAddr, buf: seq<byte>, len: nat, at: int, decider: Decider)

  datatype Fate = Waiting | BlockedByList | Relayed | RefusedFull | TimedOut

  /** A reply to a client; a relayed one remembers which query its sender was answering
      and the datagram the sender sent. */
  datatype Reply = Reply(query: nat, packet: Packet, at: int, answering: Option<nat>, received: seq<byte>)

  /** What bears on the choice of the upstream, in order: a query timed out, a reply was relayed,
      the upstream configuration was applied. */
  datatype Mark = Expiry | Answer | Reset

  /** A reason to log: a query arrived, or timed out. */
  datatype Note = Note(id: nat, query: Query, outcome: Outcome, env: LogEnv, hour: nat)

  function OutcomeOf(f: Fate): Outcome {
    match f
    case BlockedByList => Outcome.Blocked
    case RefusedFull => Outcome.ServFail
    case TimedOut => Outcome.ServFail
    case Waiting => Outcome.Forwarded
    case Relayed => Outcome.Forwarded
  }

  /** owner maps an occupied slot to its query, home a forwarded query to its slot (|pending|
      for the others), via a forwarded query to the upstream socket it left through; answered
      holds the queries that upstream datagrams have claimed to answer. trace is what bears on
      the choice of the upstream, notes what there was to log. */
  datatype Hist = Hist(s: State, queries: seq<Query>, fates: seq<Fate>, owner: seq<nat>, home: seq<nat>,
                       via: seq<int>, replies: seq<Reply>, answered: set<nat>,
                       failovers: nat, resets: nat, lastSweep: int, clock: int,
                       trace: seq<Mark>, notes: seq<Note>)

  datatype Event =
    | ClientDatagram(sock: int, client: SockAddr, buf: seq<byte>, n: int,
                     now: int, hour: nat, sendOk: bool, log: LogEnv)
    | UpstreamDatagram(buf: seq<byte>, n: int, now: int, answering: nat)
    | SweepTick(now: int, envs: seq<SlotEnv>)
    | UpstreamConfigApplied(connectOk: bool)
    | Reloaded(decider: Decider)

  ghost predicate HistOk(h: Hist) {
    && StateOk(h.s)
    && |h.fates| == |h.queries| == |h.home| == |h.via|
    && |h.owner| == |h.s.pending|
    && forall i :: 0 <= i < |h.s.pending| && h.s.pending[i].inUse ==> h.owner[i] < |h.queries|
  }

  /** Datagrams fit the receive buffer; the clock does not run backwards. */
  ghost predicate Possible(h: Hist, e: Event) {
    match e
    case ClientDatagram(_, _, buf, n, now, _, _, _) => Received(buf, n) && h.clock <= now
    case UpstreamDatagram(buf, n, now, _) => Received(buf, n) && h.clock <= now
    case SweepTick(now, envs) => |envs| == |h.s.pending| && h.clock <= now
    case _ => true
  }

  // ---------------------------------------------------------------- transitions

  ghost function OnClient(h: Hist, e: Event): (r: Hist)
    requires HistOk(h) && e.ClientDatagram? && Possible(h, e)
    ensures HistOk(r)
  {
    var step := ClientStep(h.s, e.sock, e.client, e.buf, e.n, e.now, e.hour, e.sendOk, e.log);
    var g := h.(s := step.state, clock := e.now);
    if e.n <= 0 then g
    else
      var id, slot := |h.queries|, FirstFree(h.s.pending);
      var query := Query(e.sock, e.client, e.buf, e.n, e.now, h.s.decider);
      var fate := if IsBlocked(h.s, e.buf, e.n) then BlockedByList
                  else if slot == |h.s.pending| then RefusedFull
                  else Waiting;
      var seen := g.(queries := h.queries + [query], fates := h.fates + [fate],
                     notes := h.notes + [Note(id, query, OutcomeOf(fate), e.log, e.hour)]);
      if IsBlocked(h.s, e.buf, e.n) || slot == |h.s.pending| then
        seen.(home := h.home + [|h.s.pending|],
              via := h.via + [-1],
              replies := h.replies + [Reply(id, step.sent[0], e.now, None, [])])
      else
        seen.(home := h.home + [slot],
              via := h.via + [h.s.upstreamSock],
              owner := h.owner[slot := id])
  }

  ghost function OnUpstream(h: Hist, e: Event): (r: Hist)
    requires HistOk(h) && e.UpstreamDatagram? && Possible(h, e)
    ensures HistOk(r)
  {
    var step := UpstreamStep(h.s, e.buf, e.n);
    var g := h.(s := step.state, clock := e.now,
                answered := if e.n > 0 then h.answered + {e.answering} else h.answered);
    if !Matches(h.s, e.buf, e.n) then g
    else
      var id := h.owner[U16(e.buf[0], e.buf[1])];
      g.(fates := h.fates[id := Relayed], trace := h.trace + [Answer],
         replies := h.replies + [Reply(id, step.sent[0], e.now, Some(e.answering), e.buf[..e.n])])
  }

  ghost function OnSweepSlot(c: Config, h: Hist, i: nat, env: SlotEnv): (r: Hist)
    requires HistOk(h) && i < |h.s.pending|
    ensures HistOk(r) && |r.s.pending| == |h.s.pending|
  {
    var step := SweepSlot(c, h.s, i, h.clock, env);
    var g := h.(s := step.state);
    if !Expired(c, h.s.pending[i], h.clock) then g
    else
      g.(fates := h.fates[h.owner[i] := TimedOut], trace := h.trace + [Expiry],
         notes := h.notes + [Note(h.owner[i], h.queries[h.owner[i]], OutcomeOf(TimedOut), env.log, 0)],
         replies := h.replies + [Reply(h.owner[i], step.sent[0], h.clock, None, [])],
         failovers := h.failovers + if step.state.upstreamIndex != h.s.upstreamIndex then 1 else 0)
  }

  ghost function OnSweepUpTo(c: Config, h: Hist, i: nat, envs: seq<SlotEnv>): (r: Hist)
    requires HistOk(h) && i <= |h.s.pending| == |envs|
    ensures HistOk(r) && |r.s.pending| == |h.s.pending|
    ensures r.s == SweepUpTo(c, h.s, i, h.clock, envs).state && r.clock == h.clock
  {
    if i == 0 then h else OnSweepSlot(c, OnSweepUpTo(c, h, i - 1, envs), i - 1, envs[i - 1])
  }

  ghost function OnSweep(c: Config, h: Hist, e: Event): (r: Hist)
    requires HistOk(h) && e.SweepTick? && Possible(h, e)
    ensures HistOk(r)
  {
    OnSweepUpTo(c, h.(clock := e.now), |h.s.pending|, e.envs).(lastSweep := e.now)
  }

  ghost function Apply(c: Config, h: Hist, e: Event): (r: Hist)
    requires HistOk(h)
    ensures HistOk(r)
  {
    if !Possible(h, e) then h
    else
      match e
      case ClientDatagram(_, _, _, _, _, _, _, _) => OnClient(h, e)
      case UpstreamDatagram(_, _, _, _) => OnUpstream(h, e)
      case SweepTick(_, _) => OnSweep(c, h, e)
      case UpstreamConfigApplied(ok) =>
        h.(s := ApplyUpstreamConfig(h.s, ok), resets := h.resets + 1, trace := h.trace + [Reset])
      case Reloaded(d) => h.(s := h.s.(decider := d))
  }

  ghost function Run(c: Config, h: Hist, events: seq<Event>): (r: Hist)
    requires HistOk(h)
    ensures HistOk(r)
  {
    if events == [] then h else Apply(c, Run(c, h, events[..|events| - 1]), events[|events| - 1])
  }

  /** dns_proxy_start: a fresh table, the first upstream connected. */
  ghost predicate Start(h: Hist) {
    && StateOk(h.s)
    && (forall i :: 0 <= i < |h.s.pending| ==> !h.s.pending[i].inUse)
    && h.s.upstreamIndex == 0 && h.s.consecutiveTimeouts == 0
    && h.s.stats == Stats(0, 0, 0, 0) && h.s.blockedHours == []
    && |h.owner| == |h.s.pending|
    && h.queries == [] && h.fates == [] && h.home == [] && h.via == [] && h.replies == []
    && h.answered == {} && h.failovers == 0 && h.resets == 0 && h.lastSweep == h.clock
    && h.trace == [] && h.notes == [] && h.s.log == []
    && (h.s.upstreamSock >= 0 ==> h.s.peer == 0)
  }

  // ------------------------------------------------- slots and queries correspond

  /** The slot holds this query: whom to answer, under which id, and its exact bytes. */
  ghost predicate Holds(p: Slot, q: Query) {
    && p.replySock == q.sock && p.client == q.client && p.sentAt == q.at && p.queryLen == q.len
    && Received(q.buf, q.len) && q.len > 0 && SlotOk(p)
    && p.clientTxid == U16(q.buf[0], q.buf[1])
    && SetTxid(p.queryBuf, p.clientTxid)[..q.len] == q.buf[..q.len]
  }

  ghost predicate SlotLinked(h: Hist, i: nat)
    requires HistOk(h) && i < |h.s.pending|
  {
    h.s.pending[i].inUse ==>
      && h.fates[h.owner[i]].Waiting?
      && h.home[h.owner[i]] == i
      && Holds(h.s.pending[i], h.queries[h.owner[i]])
  }

  ghost predicate QueryLinked(h: Hist, id: nat)
    requires HistOk(h) && id < |h.queries|
  {
    h.fates[id].Waiting? ==>
      h.home[id] < |h.s.pending| && h.s.pending[h.home[id]].inUse && h.owner[h.home[id]] == id
  }

  /** Waiting queries and occupied slots are in one-to-one correspondence. */
  ghost predicate Linked(h: Hist) {
    && HistOk(h)
    && (forall i :: 0 <= i < |h.s.pending| ==> SlotLinked(h, i))
    && (forall id :: 0 <= id < |h.queries| ==> QueryLinked(h, id))
  }

  lemma ClientLinked(h: Hist, e: Event)
    requires Linked(h) && e.ClientDatagram? && Possible(h, e)
    ensures Linked(OnClient(h, e))
  {
    var r := OnClient(h, e);
    if e.n > 0 && !IsBlocked(h.s, e.buf, e.n) && FirstFree(h.s.pending) < |h.s.pending| {
      var slot := FirstFree(h.s.pending);
      StoredQueryRestored(h.s.pending[slot], slot, e.sock, e.client, e.buf, e.n, e.now);
    }
    forall i | 0 <= i < |r.s.pending| ensures SlotLinked(r, i) {
      assert SlotLinked(h, i);
    }
    forall id | 0 <= id < |r.queries| ensures QueryLinked(r, id) {
      assert id < |h.queries| ==> QueryLinked(h, id);
    }
  }

  /** Releasing a slot: its query is no longer waiting, nothing else changes. */
  lemma ReleaseLinked(h: Hist, r: Hist, i: nat, fate: Fate)
    requires Linked(h) && i < |h.s.pending| && h.s.pending[i].inUse && !fate.Waiting?
    requires HistOk(r) && |r.s.pending| == |h.s.pending| && !r.s.pending[i].inUse
    requires forall j :: 0 <= j < |h.s.pending| && j != i ==> r.s.pending[j] == h.s.pending[j]
    requires r.queries == h.queries && r.owner == h.owner && r.home == h.home
    requires r.fates == h.fates[h.owner[i] := fate]
    ensures Linked(r)
  {
    assert SlotLinked(h, i);
    forall j | 0 <= j < |r.s.pending| ensures SlotLinked(r, j) {
      assert SlotLinked(h, j);
    }
    forall id | 0 <= id < |r.queries| ensures QueryLinked(r, id) {
      assert QueryLinked(h, id);
    }
  }

  lemma UpstreamLinked(h: Hist, e: Event)
    requires Linked(h) && e.UpstreamDatagram? && Possible(h, e)
    ensures Linked(OnUpstream(h, e))
  {
    if Matches(h.s, e.buf, e.n) {
      ReleaseLinked(h, OnUpstream(h, e), U16(e.buf[0], e.buf[1]), Relayed);
    } else {
      SameTableLinked(h, OnUpstream(h, e));
    }
  }

  lemma SameTableLinked(h: Hist, r: Hist)
    requires Linked(h) && HistOk(r)
    requires r.s.pending == h.s.pending && r.queries == h.queries && r.fates == h.fates
    requires r.owner == h.owner && r.home == h.home
    ensures Linked(r)
  {
    forall i | 0 <= i < |r.s.pending| ensures SlotLinked(r, i) {
      assert SlotLinked(h, i);
    }
    forall id | 0 <= id < |r.queries| ensures QueryLinked(r, id) {
      assert QueryLinked(h, id);
    }
  }

  lemma SweepSlotLinked(c: Config, h: Hist, i: nat, env: SlotEnv)
    requires Linked(h) && i < |h.s.pending|
    ensures Linked(OnSweepSlot(c, h, i, env))
  {
    if Expired(c, h.s.pending[i], h.clock) {
      ReleaseLinked(h, OnSweepSlot(c, h, i, env), i, TimedOut);
    }
  }

  // --------------------------------------------------- one right reply per query

  function RepliesTo(replies: seq<Reply>, id: nat): nat {
    if replies == [] then 0
    else RepliesTo(replies[..|replies| - 1], id) + if replies[|replies| - 1].query == id then 1 else 0
  }

  lemma RepliesToMore(replies: seq<Reply>, r: Reply, id: nat)
    ensures RepliesTo(replies + [r], id) == RepliesTo(replies, id) + if r.query == id then 1 else 0
  {
    assert (replies + [r])[..|replies|] == replies;
  }

  ghost predicate IsBlockAnswer(q: Query, bytes: seq<byte>)
    requires Received(q.buf, q.len)
  {
    && Parse(q.buf[..q.len]).Some?
    && IsBlockReply(q.decider.zeroAddress, bytes, q.buf[..q.len], Parse(q.buf[..q.len]).value)
  }

  /** A reply goes back through the socket and to the address its query came from, under
      the id its client chose, and carries what that query's fate calls for. */
  ghost predicate Fits(r: Reply, q: Query, fate: Fate) {
    && r.packet.ToClient? && r.packet.sock == q.sock && r.packet.client == q.client
    && Received(q.buf, q.len) && q.len > 0 && q.at <= r.at
    && match fate
       case Waiting => false
       case BlockedByList => IsBlockAnswer(q, r.packet.bytes)
       case Relayed =>
         && |r.packet.bytes| == |r.received| > 0
         && r.packet.bytes[0] == q.buf[0] && (|r.received| > 1 ==> r.packet.bytes[1] == q.buf[1])
         && (|r.received| > 2 ==> r.packet.bytes[2..] == r.received[2..])
       case RefusedFull => IsErrorReply(r.packet.bytes, q.buf[..q.len], 2)
       case TimedOut => IsErrorReply(r.packet.bytes, q.buf[..q.len], 2)
  }

  ghost predicate QueryAnswered(h: Hist, id: nat)
    requires |h.fates| == |h.queries| && id < |h.queries|
  {
    RepliesTo(h.replies, id) == if h.fates[id].Waiting? then 0 else 1
  }

  ghost predicate ReplyFits(h: Hist, k: nat)
    requires |h.fates| == |h.queries| && k < |h.replies|
  {
    h.replies[k].query < |h.queries| &&
    Fits(h.replies[k], h.queries[h.replies[k].query], h.fates[h.replies[k].query])
  }

  /** Every query has been answered exactly once, or is still waiting and has not. */
  ghost predicate Answered(h: Hist) {
    && |h.fates| == |h.queries|
    && (forall id :: 0 <= id < |h.queries| ==> QueryAnswered(h, id))
    && (forall k :: 0 <= k < |h.replies| ==> ReplyFits(h, k))
  }

  lemma NoStrayReplies(h: Hist)
    requires Answered(h)
    ensures RepliesTo(h.replies, |h.queries|) == 0
  {
    NoStrayRepliesIn(h, h.replies);
  }

  lemma {:induction false} NoStrayRepliesIn(h: Hist, replies: seq<Reply>)
    requires Answered(h) && replies <= h.replies
    ensures RepliesTo(replies, |h.queries|) == 0
  {
    if replies != [] {
      NoStrayRepliesIn(h, replies[..|replies| - 1]);
      assert replies[|replies| - 1] == h.replies[|replies| - 1] && ReplyFits(h, |replies| - 1);
    }
  }

  /** A waiting query gets its one reply. */
  lemma SettleAnswered(h: Hist, r: Hist, id: nat, fate: Fate, reply: Reply)
    requires Answered(h) && id < |h.queries| && h.fates[id].Waiting? && !fate.Waiting?
    requires r.queries == h.queries && r.fates == h.fates[id := fate] && r.replies == h.replies + [reply]
    requires reply.query == id && Fits(reply, h.queries[id], fate)
    ensures Answered(r)
  {
    forall j | 0 <= j < |r.queries| ensures QueryAnswered(r, j) {
      RepliesToMore(h.replies, reply, j);
      assert QueryAnswered(h, j);
    }
    forall k | 0 <= k < |r.replies| ensures ReplyFits(r, k) {
      if k < |h.replies| {
        assert ReplyFits(h, k);
        if h.replies[k].query == id {
          assert false;
        }
      }
    }
  }

  /** A new query arrives, and is answered on the spot unless it waits. */
  lemma ArrivalAnswered(h: Hist, r: Hist, q: Query, fate: Fate, replies: seq<Reply>)
    requires Answered(h)
    requires r.queries == h.queries + [q] && r.fates == h.fates + [fate] && r.replies == h.replies + replies
    requires if fate.Waiting? then replies == []
             else |replies| == 1 && replies[0].query == |h.queries| && Fits(replies[0], q, fate)
    ensures Answered(r)
  {
    NoStrayReplies(h);
    forall j | 0 <= j < |r.queries| ensures QueryAnswered(r, j) {
      if fate.Waiting? {
        assert r.replies == h.replies;
      } else {
        RepliesToMore(h.replies, replies[0], j);
        assert r.replies == h.replies + [replies[0]];
      }
      assert j < |h.queries| ==> QueryAnswered(h, j);
    }
    forall k | 0 <= k < |r.replies| ensures ReplyFits(r, k) {
      assert k < |h.replies| ==> ReplyFits(h, k);
    }
  }

  lemma SameRepliesAnswered(h: Hist, r: Hist)
    requires Answered(h) && r.queries == h.queries && r.fates == h.fates && r.replies == h.replies
    ensures Answered(r)
  {
    forall j | 0 <= j < |r.queries| ensures QueryAnswered(r, j) {
      assert QueryAnswered(h, j);
    }
    forall k | 0 <= k < |r.replies| ensures ReplyFits(r, k) {
      assert ReplyFits(h, k);
    }
  }

  lemma ClientAnswered(h: Hist, e: Event)
    requires Linked(h) && Answered(h) && e.ClientDatagram? && Possible(h, e)
    ensures Answered(OnClient(h, e))
  {
    var r := OnClient(h, e);
    if e.n > 0 {
      var q := Query(e.sock, e.client, e.buf, e.n, e.now, h.s.decider);
      if IsBlocked(h.s, e.buf, e.n) {
        BlockResponseIsRight(h.s.decider.zeroAddress, e.buf, e.n, Parse(e.buf[..e.n]).value);
        assert IsBlockAnswer(q, r.replies[|h.replies|].packet.bytes);
        ArrivalAnswered(h, r, q, BlockedByList, [r.replies[|h.replies|]]);
      } else if FirstFree(h.s.pending) == |h.s.pending| {
        ErrorResponseIsReply(e.buf[..e.n], SERVFAIL);
        ArrivalAnswered(h, r, q, RefusedFull, [r.replies[|h.replies|]]);
      } else {
        assert r.replies == h.replies + [];
        ArrivalAnswered(h, r, q, Waiting, []);
      }
    } else {
      SameRepliesAnswered(h, r);
    }
  }

  lemma UpstreamAnswered(h: Hist, e: Event)
    requires Linked(h) && Answered(h) && Arrived(h) && e.UpstreamDatagram? && Possible(h, e)
    ensures Answered(OnUpstream(h, e))
  {
    var r := OnUpstream(h, e);
    if Matches(h.s, e.buf, e.n) {
      var slot := U16(e.buf[0], e.buf[1]);
      assert SlotLinked(h, slot);
      SettleAnswered(h, r, h.owner[slot], Relayed, r.replies[|h.replies|]);
    } else {
      SameRepliesAnswered(h, r);
    }
  }

  /** No query comes from the future. */
  ghost predicate Arrived(h: Hist) {
    forall id :: 0 <= id < |h.queries| ==> h.queries[id].at <= h.clock
  }

  lemma SweepSlotAnswered(c: Config, h: Hist, i: nat, env: SlotEnv)
    requires Linked(h) && Answered(h) && Arrived(h) && i < |h.s.pending|
    ensures Answered(OnSweepSlot(c, h, i, env))
  {
    var r := OnSweepSlot(c, h, i, env);
    if Expired(c, h.s.pending[i], h.clock) {
      assert SlotLinked(h, i);
      ErrorResponseIsReply(h.queries[h.owner[i]].buf[..h.queries[h.owner[i]].len], SERVFAIL);
      SettleAnswered(h, r, h.owner[i], TimedOut, r.replies[|h.replies|]);
    }
  }

  // ---------------------------------------------------------------- conservation

  function Count(fates: seq<Fate>, f: Fate): nat {
    if fates == [] then 0
    else Count(fates[..|fates| - 1], f) + if fates[|fates| - 1] == f then 1 else 0
  }

  lemma CountMore(fates: seq<Fate>, g: Fate, f: Fate)
    ensures Count(fates + [g], f) == Count(fates, f) + if g == f then 1 else 0
  {
    assert (fates + [g])[..|fates|] == fates;
  }

  lemma {:induction false} CountChanged(fates: seq<Fate>, id: nat, g: Fate, f: Fate)
    requires id < |fates|
    ensures Count(fates[id := g], f) + (if fates[id] == f then 1 else 0) == Count(fates, f) + if g == f then 1 else 0
  {
    if id < |fates| - 1 {
      CountChanged(fates[..|fates| - 1], id, g, f);
      assert fates[id := g][..|fates| - 1] == fates[..|fates| - 1][id := g];
    } else {
      assert fates[id := g][..|fates| - 1] == fates[..|fates| - 1];
    }
  }

  lemma {:induction false} EveryFateCounted(fates: seq<Fate>)
    ensures |fates| == Count(fates, Waiting) + Count(fates, BlockedByList) + Count(fates, Relayed) +
                       Count(fates, RefusedFull) + Count(fates, TimedOut)
  {
    if fates != [] {
      EveryFateCounted(fates[..|fates| - 1]);
    }
  }

  function InUse(pending: seq<Slot>): nat {
    if pending == [] then 0
    else InUse(pending[..|pending| - 1]) + if pending[|pending| - 1].inUse then 1 else 0
  }

  lemma {:induction false} InUseChanged(pending: seq<Slot>, i: nat, p: Slot)
    requires i < |pending|
    ensures InUse(pending[i := p]) + (if pending[i].inUse then 1 else 0) == InUse(pending) + if p.inUse then 1 else 0
  {
    if i < |pending| - 1 {
      InUseChanged(pending[..|pending| - 1], i, p);
      assert pending[i := p][..|pending| - 1] == pending[..|pending| - 1][i := p];
    } else {
      assert pending[i := p][..|pending| - 1] == pending[..|pending| - 1];
    }
  }

  lemma {:induction false} NothingInUse(pending: seq<Slot>)
    requires forall i :: 0 <= i < |pending| ==> !pending[i].inUse
    ensures InUse(pending) == 0
  {
    if pending != [] {
      NothingInUse(pending[..|pending| - 1]);
    }
  }

  /** The 32-bit statistics are the numbers of queries of each fate, modulo 2^32. */
  ghost predicate Counted(h: Hist) {
    && h.s.stats.total == |h.fates| % M32
    && h.s.stats.blocked == Count(h.fates, BlockedByList) % M32
    && h.s.stats.servfail == (Count(h.fates, RefusedFull) + Count(h.fates, TimedOut)) % M32
    && h.s.stats.forwarded == (Count(h.fates, Waiting) + Count(h.fates, Relayed) + Count(h.fates, TimedOut)) % M32
    && InUse(h.s.pending) == Count(h.fates, Waiting)
    && |h.s.blockedHours| == Count(h.fates, BlockedByList)
  }

  lemma ArrivalCounted(h: Hist, r: Hist, fate: Fate)
    requires Counted(h) && |r.fates| == |h.fates| + 1 && (fate.BlockedByList? || fate.RefusedFull? || fate.Waiting?)
    requires forall f: Fate :: Count(r.fates, f) == Count(h.fates, f) + if fate == f then 1 else 0
    requires var s, t := h.s.stats, r.s.stats;
             && t.total == Inc(s.total)
             && t.blocked == (if fate.BlockedByList? then Inc(s.blocked) else s.blocked)
             && t.servfail == (if fate.RefusedFull? then Inc(s.servfail) else s.servfail)
             && t.forwarded == (if fate.Waiting? then Inc(s.forwarded) else s.forwarded)
    requires InUse(r.s.pending) == InUse(h.s.pending) + if fate.Waiting? then 1 else 0
    requires |r.s.blockedHours| == |h.s.blockedHours| + if fate.BlockedByList? then 1 else 0
    ensures Counted(r)
  {
    var fates := h.fates;
    IncIsPlusOne(|fates|);
    IncIsPlusOne(Count(fates, BlockedByList));
    IncIsPlusOne(Count(fates, RefusedFull) + Count(fates, TimedOut));
    IncIsPlusOne(Count(fates, Waiting) + Count(fates, Relayed) + Count(fates, TimedOut));
    assert Count(r.fates, Relayed) == Count(fates, Relayed) && Count(r.fates, TimedOut) == Count(fates, TimedOut);
  }

  lemma IncIsPlusOne(n: nat)
    ensures Inc(n % M32) == (n + 1) % M32
  {
  }

  lemma ClientCounted(h: Hist, e: Event)
    requires Linked(h) && Counted(h) && e.ClientDatagram? && Possible(h, e)
    ensures Counted(OnClient(h, e))
  {
    var r := OnClient(h, e);
    if e.n > 0 {
      forall f: Fate ensures Count(r.fates, f) == Count(h.fates, f) + if r.fates[|h.fates|] == f then 1 else 0 {
        CountMore(h.fates, r.fates[|h.fates|], f);
      }
      var slot := FirstFree(h.s.pending);
      if IsBlocked(h.s, e.buf, e.n) {
        ArrivalCounted(h, r, BlockedByList);
      } else if slot == |h.s.pending| {
        ArrivalCounted(h, r, RefusedFull);
      } else {
        InUseChanged(h.s.pending, slot, r.s.pending[slot]);
        ArrivalCounted(h, r, Waiting);
      }
    }
  }

  lemma ReleaseCounts(h: Hist, i: nat, p: Slot, fate: Fate)
    requires Linked(h) && i < |h.s.pending| && h.s.pending[i].inUse && !p.inUse && !fate.Waiting?
    ensures var fates := h.fates[h.owner[i] := fate];
            && InUse(h.s.pending[i := p]) == InUse(h.s.pending) - 1
            && Count(fates, Waiting) == Count(h.fates, Waiting) - 1
            && Count(fates, fate) == Count(h.fates, fate) + 1
            && forall f: Fate :: !f.Waiting? && f != fate ==> Count(fates, f) == Count(h.fates, f)
  {
    assert SlotLinked(h, i);
    InUseChanged(h.s.pending, i, p);
    forall f: Fate ensures Count(h.fates[h.owner[i] := fate], f) + (if f.Waiting? then 1 else 0) ==
                           Count(h.fates, f) + if f == fate then 1 else 0
    {
      CountChanged(h.fates, h.owner[i], fate, f);
    }
  }

  lemma ReleaseCounted(h: Hist, r: Hist, i: nat, fate: Fate)
    requires Linked(h) && Counted(h) && i < |h.s.pending| && h.s.pending[i].inUse
    requires fate.Relayed? || fate.TimedOut?
    requires r.fates == h.fates[h.owner[i] := fate]
    requires |r.s.pending| == |h.s.pending| && !r.s.pending[i].inUse
    requires r.s.pending == h.s.pending[i := r.s.pending[i]]
    requires r.s.blockedHours == h.s.blockedHours
    requires r.s.stats == if fate.TimedOut? then h.s.stats.(servfail := Inc(h.s.stats.servfail)) else h.s.stats
    ensures Counted(r)
  {
    ReleaseCounts(h, i, r.s.pending[i], fate);
    IncIsPlusOne(Count(h.fates, RefusedFull) + Count(h.fates, TimedOut));
    assert Count(r.fates, BlockedByList) == Count(h.fates, BlockedByList);
    assert Count(r.fates, RefusedFull) == Count(h.fates, RefusedFull);
  }

  lemma UpstreamCounted(h: Hist, e: Event)
    requires Linked(h) && Counted(h) && e.UpstreamDatagram? && Possible(h, e)
    ensures Counted(OnUpstream(h, e))
  {
    if Matches(h.s, e.buf, e.n) {
      ReleaseCounted(h, OnUpstream(h, e), U16(e.buf[0], e.buf[1]), Relayed);
    }
  }

  lemma SweepSlotCounted(c: Config, h: Hist, i: nat, env: SlotEnv)
    requires Linked(h) && Counted(h) && i < |h.s.pending|
    ensures Counted(OnSweepSlot(c, h, i, env))
  {
    if Expired(c, h.s.pending[i], h.clock) {
      ReleaseCounted(h, OnSweepSlot(c, h, i, env), i, TimedOut);
    }
  }

  // ------------------------------------------------------------------- failover

  /** Failovers never outrun timeouts, and account for all of them while no reply and no
      reset has cleared the counter. */
  ghost predicate Failing(c: Config, h: Hist) {
    && h.s.upstreamIndex <= 1
    && h.s.consecutiveTimeouts < c.failThreshold
    && h.failovers * c.failThreshold + h.s.consecutiveTimeouts <= Count(h.fates, TimedOut)
    && (h.resets == 0 && Count(h.fates, Relayed) == 0 ==>
          h.failovers * c.failThreshold + h.s.consecutiveTimeouts == Count(h.fates, TimedOut))
    && (h.resets == 0 ==> h.s.upstreamIndex == h.failovers % 2)
  }

  lemma ClientFailing(c: Config, h: Hist, e: Event)
    requires Linked(h) && Failing(c, h) && e.ClientDatagram? && Possible(h, e)
    ensures Failing(c, OnClient(h, e))
  {
    var r := OnClient(h, e);
    if e.n > 0 {
      CountMore(h.fates, r.fates[|h.fates|], Relayed);
      CountMore(h.fates, r.fates[|h.fates|], TimedOut);
    }
  }

  lemma UpstreamFailing(c: Config, h: Hist, e: Event)
    requires Linked(h) && Failing(c, h) && e.UpstreamDatagram? && Possible(h, e)
    ensures Failing(c, OnUpstream(h, e))
  {
    if Matches(h.s, e.buf, e.n) {
      var slot := U16(e.buf[0], e.buf[1]);
      ReleaseCounts(h, slot, h.s.pending[slot].(inUse := false), Relayed);
    }
  }

  lemma SweepSlotFailing(c: Config, h: Hist, i: nat, env: SlotEnv)
    requires Linked(h) && Failing(c, h) && i < |h.s.pending|
    ensures Failing(c, OnSweepSlot(c, h, i, env))
  {
    if Expired(c, h.s.pending[i], h.clock) {
      var r := OnSweepSlot(c, h, i, env);
      ReleaseCounts(h, i, r.s.pending[i], TimedOut);
      OneTimeoutFailing(c, h, r);
    }
  }

  lemma OneTimeoutFailing(c: Config, h: Hist, r: Hist)
    requires Failing(c, h)
    requires Count(r.fates, TimedOut) == Count(h.fates, TimedOut) + 1
    requires Count(r.fates, Relayed) == Count(h.fates, Relayed) && r.resets == h.resets
    requires var over := h.s.consecutiveTimeouts + 1 >= c.failThreshold;
             && r.failovers == h.failovers + (if over then 1 else 0)
             && r.s.consecutiveTimeouts == (if over then 0 else h.s.consecutiveTimeouts + 1)
             && r.s.upstreamIndex == (if over then 1 - h.s.upstreamIndex else h.s.upstreamIndex)
    ensures Failing(c, r)
  {
    var T, n := c.failThreshold, h.failovers;
    assert (n + 1) * T == n * T + T;
  }

  // ----------------------------------------------------------------------- time

  /** No waiting query was already overdue at the last sweep. */
  ghost predicate Timely(c: Config, h: Hist) {
    && Arrived(h)
    && h.lastSweep <= h.clock
    && forall i :: 0 <= i < |h.s.pending| && h.s.pending[i].inUse ==> h.lastSweep < h.s.pending[i].sentAt + c.timeoutUs
  }

  lemma ClientTimely(c: Config, h: Hist, e: Event)
    requires HistOk(h) && Timely(c, h) && e.ClientDatagram? && Possible(h, e) && c.timeoutUs > 0
    ensures Timely(c, OnClient(h, e))
  {
  }

  lemma UpstreamTimely(c: Config, h: Hist, e: Event)
    requires HistOk(h) && Timely(c, h) && e.UpstreamDatagram? && Possible(h, e)
    ensures Timely(c, OnUpstream(h, e))
  {
  }

  // ------------------------------------------------------- routes to the upstream

  /** Only forwarded queries have a slot and a socket; sockets are numbered as opened. */
  ghost predicate Routed(h: Hist) {
    && HistOk(h)
    && forall id :: 0 <= id < |h.queries| ==>
         && (h.home[id] < |h.s.pending| <==> !h.fates[id].BlockedByList? && !h.fates[id].RefusedFull?)
         && h.via[id] < h.s.connects
  }

  lemma ClientRouted(h: Hist, e: Event)
    requires Routed(h) && e.ClientDatagram? && Possible(h, e)
    ensures Routed(OnClient(h, e))
  {
  }

  lemma UpstreamRouted(h: Hist, e: Event)
    requires Linked(h) && Routed(h) && e.UpstreamDatagram? && Possible(h, e)
    ensures Routed(OnUpstream(h, e))
  {
    if Matches(h.s, e.buf, e.n) {
      assert SlotLinked(h, U16(e.buf[0], e.buf[1]));
    }
  }

  lemma SweepSlotRouted(c: Config, h: Hist, i: nat, env: SlotEnv)
    requires Linked(h) && Routed(h) && i < |h.s.pending|
    ensures Routed(OnSweepSlot(c, h, i, env))
  {
    assert SlotLinked(h, i);
  }

  // ----------------------------------------------------------- every reachable state

  ghost predicate Inv(c: Config, h: Hist) {
    Linked(h) && Answered(h) && Counted(h) && Failing(c, h) && Timely(c, h) && Routed(h)
  }

  predicate ConfigOk(c: Config) {
    c.timeoutUs > 0 && c.failThreshold >= 1
  }

  lemma StartInv(c: Config, h: Hist)
    requires ConfigOk(c) && Start(h)
    ensures HistOk(h) && Inv(c, h)
  {
    NothingInUse(h.s.pending);
    assert forall i :: 0 <= i < |h.s.pending| ==> SlotLinked(h, i);
  }

  /** What survives every iteration of the sweep loop. */
  ghost predicate SweepInv(c: Config, h: Hist) {
    Linked(h) && Answered(h) && Counted(h) && Failing(c, h) && Arrived(h) && Routed(h)
  }

  lemma SweepSlotKeepsInv(c: Config, h: Hist, i: nat, env: SlotEnv)
    requires SweepInv(c, h) && i < |h.s.pending|
    ensures SweepInv(c, OnSweepSlot(c, h, i, env))
  {
    SweepSlotLinked(c, h, i, env);
    SweepSlotAnswered(c, h, i, env);
    SweepSlotCounted(c, h, i, env);
    SweepSlotFailing(c, h, i, env);
    SweepSlotRouted(c, h, i, env);
    assert Arrived(OnSweepSlot(c, h, i, env));
  }

  /** What every iteration keeps, the sweep keeps. */
  lemma {:induction false} SweepInduction(c: Config, h: Hist, i: nat, envs: seq<SlotEnv>, P: Hist -> bool)
    requires HistOk(h) && i <= |h.s.pending| == |envs| && P(h)
    requires forall g: Hist, j: nat, env: SlotEnv ::
               HistOk(g) && j < |g.s.pending| && P(g) ==> P(OnSweepSlot(c, g, j, env))
    ensures P(OnSweepUpTo(c, h, i, envs))
  {
    if i > 0 {
      SweepInduction(c, h, i - 1, envs, P);
    }
  }

  lemma SweepUpToKeepsInv(c: Config, h: Hist, i: nat, envs: seq<SlotEnv>)
    requires SweepInv(c, h) && i <= |h.s.pending| == |envs|
    ensures SweepInv(c, OnSweepUpTo(c, h, i, envs))
  {
    var P := (g: Hist) => SweepInv(c, g);
    forall g: Hist, j: nat, env: SlotEnv | HistOk(g) && j < |g.s.pending| && P(g)
      ensures P(OnSweepSlot(c, g, j, env))
    {
      SweepSlotKeepsInv(c, g, j, env);
    }
    SweepInduction(c, h, i, envs, P);
  }

  lemma TickedInv(c: Config, h: Hist, now: int)
    requires Inv(c, h) && h.clock <= now
    ensures SweepInv(c, h.(clock := now))
  {
    var g := h.(clock := now);
    SameTableLinked(h, g);
    SameRepliesAnswered(h, g);
  }

  lemma SweptInv(c: Config, h: Hist)
    requires SweepInv(c, h)
    requires forall i :: 0 <= i < |h.s.pending| ==> !Expired(c, h.s.pending[i], h.clock)
    ensures Inv(c, h.(lastSweep := h.clock))
  {
    var r := h.(lastSweep := h.clock);
    SameTableLinked(h, r);
    SameRepliesAnswered(h, r);
  }

  lemma SweepKeepsInv(c: Config, h: Hist, e: Event)
    requires Inv(c, h) && e.SweepTick? && Possible(h, e)
    ensures Inv(c, OnSweep(c, h, e))
  {
    TickedInv(c, h, e.now);
    SweepUpToKeepsInv(c, h.(clock := e.now), |h.s.pending|, e.envs);
    SweepLeavesNothingExpired(c, h.s, e.now, e.envs);
    var swept := OnSweepUpTo(c, h.(clock := e.now), |h.s.pending|, e.envs);
    assert swept.s == Sweep(c, h.s, e.now, e.envs).state;
    SweptInv(c, swept);
  }

  lemma OthersKeepInv(c: Config, h: Hist, s: State, resets: nat, trace: seq<Mark>)
    requires ConfigOk(c) && Inv(c, h) && StateOk(s)
    requires s.pending == h.s.pending && s.stats == h.s.stats && s.blockedHours == h.s.blockedHours
    requires s.connects >= h.s.connects
    requires
      || (resets == h.resets && s.upstreamIndex == h.s.upstreamIndex &&
          s.consecutiveTimeouts == h.s.consecutiveTimeouts)
      || (resets == h.resets + 1 && s.upstreamIndex == 0 && s.consecutiveTimeouts == 0)
    ensures Inv(c, h.(s := s, resets := resets, trace := trace))
  {
    var r := h.(s := s, resets := resets, trace := trace);
    SameTableLinked(h, r);
    SameRepliesAnswered(h, r);
  }

  lemma ApplyKeepsInv(c: Config, h: Hist, e: Event)
    requires ConfigOk(c) && Inv(c, h)
    ensures Inv(c, Apply(c, h, e))
  {
    if Possible(h, e) {
      match e
      case ClientDatagram(_, _, _, _, _, _, _, _) =>
        ClientLinked(h, e);
        ClientAnswered(h, e);
        ClientCounted(h, e);
        ClientFailing(c, h, e);
        ClientTimely(c, h, e);
        ClientRouted(h, e);
      case UpstreamDatagram(_, _, _, _) =>
        UpstreamLinked(h, e);
        UpstreamAnswered(h, e);
        UpstreamCounted(h, e);
        UpstreamFailing(c, h, e);
        UpstreamTimely(c, h, e);
        UpstreamRouted(h, e);
      case SweepTick(_, _) =>
        SweepKeepsInv(c, h, e);
      case UpstreamConfigApplied(ok) =>
        OthersKeepInv(c, h, ApplyUpstreamConfig(h.s, ok), h.resets + 1, h.trace + [Reset]);
      case Reloaded(d) =>
        OthersKeepInv(c, h, h.s.(decider := d), h.resets, h.trace);
    }
  }

  lemma {:induction false} RunKeepsInv(c: Config, h: Hist, events: seq<Event>)
    requires ConfigOk(c) && Start(h)
    ensures HistOk(h) && Inv(c, Run(c, h, events))
  {
    StartInv(c, h);
    if events != [] {
      RunKeepsInv(c, h, events[..|events| - 1]);
      ApplyKeepsInv(c, Run(c, h, events[..|events| - 1]), events[|events| - 1]);
    }
  }

  // =============================================================== main results

  /** The statistics balance, with the occupied slots, modulo the 32-bit counters. */
  ghost predicate Accounted(h: Hist) {
    && h.s.stats.total ==
       (h.s.stats.blocked + Count(h.fates, Relayed) + h.s.stats.servfail + InUse(h.s.pending)) % M32
    && h.s.stats.forwarded == (Count(h.fates, Relayed) + Count(h.fates, TimedOut) + InUse(h.s.pending)) % M32
    && |h.queries| == |h.fates|
  }

  lemma CountedIsAccounted(h: Hist)
    requires Counted(h) && |h.queries| == |h.fates|
    ensures Accounted(h)
  {
    EveryFateCounted(h.fates);
    SumModulo(Count(h.fates, BlockedByList), Count(h.fates, RefusedFull) + Count(h.fates, TimedOut),
              Count(h.fates, Relayed) + Count(h.fates, Waiting));
  }

  /** Conservation over every run: each client datagram has exactly one fate, and
      received = blocked + relayed + SERVFAILed + still in a slot. */
  lemma EveryQueryIsAccountedFor(c: Config, h0: Hist, events: seq<Event>)
    requires ConfigOk(c) && Start(h0)
    ensures HistOk(h0) && Accounted(Run(c, h0, events))
  {
    RunKeepsInv(c, h0, events);
    CountedIsAccounted(Run(c, h0, events));
  }

  lemma SumModulo(a: nat, b: nat, x: nat)
    ensures (a % M32 + b % M32 + x) % M32 == (a + b + x) % M32
  {
  }

  /** At most one response, to the right client, over every run: a query still waiting has
      had no reply, any other exactly one, through its own socket and address, under its
      own id, with the bytes its fate calls for. */
  lemma EveryReplyIsTheOnlyRightOne(c: Config, h0: Hist, events: seq<Event>)
    requires ConfigOk(c) && Start(h0)
    ensures HistOk(h0)
    ensures var h := Run(c, h0, events);
            && (forall id :: 0 <= id < |h.queries| ==>
                  RepliesTo(h.replies, id) == if h.fates[id].Waiting? then 0 else 1)
            && (forall k :: 0 <= k < |h.replies| ==>
                  h.replies[k].query < |h.queries| &&
                  Fits(h.replies[k], h.queries[h.replies[k].query], h.fates[h.replies[k].query]))
  {
    RunKeepsInv(c, h0, events);
    AnsweredUnfolds(Run(c, h0, events));
  }

  lemma AnsweredUnfolds(h: Hist)
    requires Answered(h)
    ensures forall id :: 0 <= id < |h.queries| ==>
              RepliesTo(h.replies, id) == if h.fates[id].Waiting? then 0 else 1
    ensures forall k :: 0 <= k < |h.replies| ==>
              h.replies[k].query < |h.queries| &&
              Fits(h.replies[k], h.queries[h.replies[k].query], h.fates[h.replies[k].query])
  {
    forall id | 0 <= id < |h.queries|
      ensures RepliesTo(h.replies, id) == if h.fates[id].Waiting? then 0 else 1
    {
      assert QueryAnswered(h, id);
    }
    forall k | 0 <= k < |h.replies|
      ensures h.replies[k].query < |h.queries| &&
              Fits(h.replies[k], h.queries[h.replies[k].query], h.fates[h.replies[k].query])
    {
      assert ReplyFits(h, k);
    }
  }

  // ---------------------------------------------------------------- verdicts

  /** What the decider in force said of a query. */
  predicate BlockedByDecider(q: Query)
    requires Received(q.buf, q.len)
  {
    Parse(q.buf[..q.len]).Some? && Blocks(q.decider, CStr(Parse(q.buf[..q.len]).value.qname))
  }

  ghost predicate DecidedRightly(h: Hist) {
    && |h.fates| == |h.queries|
    && forall id :: 0 <= id < |h.queries| ==>
         Received(h.queries[id].buf, h.queries[id].len) &&
         (h.fates[id].BlockedByList? <==> BlockedByDecider(h.queries[id]))
  }

  lemma ClientDecidedRightly(h: Hist, e: Event)
    requires HistOk(h) && DecidedRightly(h) && e.ClientDatagram? && Possible(h, e)
    ensures DecidedRightly(OnClient(h, e))
  {
  }

  lemma UpstreamDecidedRightly(h: Hist, e: Event)
    requires Linked(h) && DecidedRightly(h) && e.UpstreamDatagram? && Possible(h, e)
    ensures DecidedRightly(OnUpstream(h, e))
  {
    if Matches(h.s, e.buf, e.n) {
      assert SlotLinked(h, U16(e.buf[0], e.buf[1]));
    }
  }

  lemma SlotDecidedRightly(c: Config, h: Hist, i: nat, env: SlotEnv)
    requires Linked(h) && DecidedRightly(h) && i < |h.s.pending|
    ensures DecidedRightly(OnSweepSlot(c, h, i, env))
  {
    assert SlotLinked(h, i);
  }

  lemma SweepDecidedRightly(c: Config, h: Hist, i: nat, envs: seq<SlotEnv>)
    requires SweepInv(c, h) && DecidedRightly(h) && i <= |h.s.pending| == |envs|
    ensures DecidedRightly(OnSweepUpTo(c, h, i, envs))
  {
    var P := (g: Hist) => SweepInv(c, g) && DecidedRightly(g);
    forall g: Hist, j: nat, env: SlotEnv | HistOk(g) && j < |g.s.pending| && P(g)
      ensures P(OnSweepSlot(c, g, j, env))
    {
      SweepSlotKeepsInv(c, g, j, env);
      SlotDecidedRightly(c, g, j, env);
    }
    SweepInduction(c, h, i, envs, P);
  }

  /** Over every run a query is answered from the block list exactly when the settings and lists
      in force when it came block its name. */
  lemma {:induction false} EveryVerdictIsTheDeciders(c: Config, h0: Hist, events: seq<Event>)
    requires ConfigOk(c) && Start(h0)
    ensures HistOk(h0) && DecidedRightly(Run(c, h0, events))
  {
    StartInv(c, h0);
    if events != [] {
      var h, e := Run(c, h0, events[..|events| - 1]), events[|events| - 1];
      EveryVerdictIsTheDeciders(c, h0, events[..|events| - 1]);
      RunKeepsInv(c, h0, events[..|events| - 1]);
      if Possible(h, e) {
        match e
        case ClientDatagram(_, _, _, _, _, _, _, _) => ClientDecidedRightly(h, e);
        case UpstreamDatagram(_, _, _, _) => UpstreamDecidedRightly(h, e);
        case SweepTick(now, envs) =>
          TickedInv(c, h, now);
          SweepDecidedRightly(c, h.(clock := now), |h.s.pending|, envs);
        case _ =>
      }
    }
  }

  /** All deciders that were or are in force have a property. */
  ghost predicate DecidersAre(h: Hist, P: Decider -> bool) {
    P(h.s.decider) && forall id :: 0 <= id < |h.queries| ==> P(h.queries[id].decider)
  }

  lemma SweepKeepsDeciders(c: Config, h: Hist, i: nat, envs: seq<SlotEnv>, P: Decider -> bool)
    requires HistOk(h) && DecidersAre(h, P) && i <= |h.s.pending| == |envs|
    ensures DecidersAre(OnSweepUpTo(c, h, i, envs), P)
  {
    var Q := (g: Hist) => DecidersAre(g, P);
    forall g: Hist, j: nat, env: SlotEnv | HistOk(g) && j < |g.s.pending| && Q(g)
      ensures Q(OnSweepSlot(c, g, j, env))
    {
    }
    SweepInduction(c, h, i, envs, Q);
  }

  /** Deciders come from the start and from reloads only. */
  lemma {:induction false} RunKeepsDeciders(c: Config, h0: Hist, events: seq<Event>, P: Decider -> bool)
    requires HistOk(h0) && DecidersAre(h0, P)
    requires forall e :: e in events && e.Reloaded? ==> P(e.decider)
    ensures DecidersAre(Run(c, h0, events), P)
  {
    if events != [] {
      var init, e := events[..|events| - 1], events[|events| - 1];
      assert e in events;
      RunKeepsDeciders(c, h0, init, P);
      var h := Run(c, h0, init);
      if Possible(h, e) && e.SweepTick? {
        SweepKeepsDeciders(c, h.(clock := e.now), |h.s.pending|, e.envs, P);
      }
    }
  }

  // ------------------------------------------------------------- correlation

  /** A reply as a well-behaved network delivers it: to a forwarded query, echoing the id it
      left under, at most one per query, and not after the sweep gave that query up. */
  ghost predicate Disciplined(h: Hist, e: Event)
    requires HistOk(h)
  {
    e.UpstreamDatagram? && e.n > 0 && Possible(h, e) ==>
      && e.answering < |h.queries|
      && h.home[e.answering] < |h.s.pending|
      && U16(e.buf[0], e.buf[1]) == h.home[e.answering]
      && e.answering !in h.answered
      && !h.fates[e.answering].TimedOut?
  }

  ghost predicate DisciplinedRun(c: Config, h: Hist, events: seq<Event>)
    requires HistOk(h)
  {
    events != [] ==>
      && DisciplinedRun(c, h, events[..|events| - 1])
      && Disciplined(Run(c, h, events[..|events| - 1]), events[|events| - 1])
  }

  /** Every relayed reply answers the very query whose client it was sent to, and every
      query claimed to be answered was answered. */
  ghost predicate Correlated(h: Hist) {
    && |h.fates| == |h.queries|
    && (forall k :: 0 <= k < |h.replies| && h.replies[k].answering.Some? ==>
          h.replies[k].answering.value == h.replies[k].query)
    && (forall id :: 0 <= id < |h.queries| ==> (h.fates[id].Relayed? <==> id in h.answered))
    && (forall id :: id in h.answered ==> id < |h.queries|)
  }

  /** Which query a datagram reaches. In every reachable state, a reply that echoes the id
      under which a query was forwarded is relayed to that query's client exactly when the
      query is still waiting; a late one goes to another query's client exactly when the slot
      is in use again, and is dropped otherwise. */
  lemma ReplyReachesItsQuery(h: Hist, e: Event)
    requires Linked(h) && e.UpstreamDatagram? && e.n > 0 && Possible(h, e)
    requires e.answering < |h.queries| && h.home[e.answering] < |h.s.pending|
    requires U16(e.buf[0], e.buf[1]) == h.home[e.answering]
    ensures var r := OnUpstream(h, e);
            && (h.fates[e.answering].Waiting? <==>
                  |r.replies| == |h.replies| + 1 && r.replies[|h.replies|].query == e.answering)
            && (!h.fates[e.answering].Waiting? && h.s.pending[h.home[e.answering]].inUse <==>
                  |r.replies| == |h.replies| + 1 && r.replies[|h.replies|].query != e.answering)
  {
    assert QueryLinked(h, e.answering);
    if Matches(h.s, e.buf, e.n) {
      assert SlotLinked(h, U16(e.buf[0], e.buf[1]));
    }
  }

  lemma ClientKeepsCorrelation(h: Hist, e: Event)
    requires HistOk(h) && Correlated(h) && e.ClientDatagram? && Possible(h, e)
    ensures Correlated(OnClient(h, e))
  {
  }

  lemma UpstreamKeepsCorrelation(h: Hist, e: Event)
    requires Linked(h) && Routed(h) && Correlated(h) && Disciplined(h, e) && e.UpstreamDatagram? && Possible(h, e)
    ensures Correlated(OnUpstream(h, e))
  {
    if e.n > 0 {
      ReplyReachesItsQuery(h, e);
    }
  }

  lemma ApplyKeepsCorrelation(c: Config, h: Hist, e: Event)
    requires ConfigOk(c) && Inv(c, h) && Correlated(h) && Disciplined(h, e)
    ensures Correlated(Apply(c, h, e))
  {
    if Possible(h, e) {
      match e
      case ClientDatagram(_, _, _, _, _, _, _, _) => ClientKeepsCorrelation(h, e);
      case UpstreamDatagram(_, _, _, _) => UpstreamKeepsCorrelation(h, e);
      case SweepTick(now, envs) =>
        TickedInv(c, h, now);
        SweepKeepsCorrelation(c, h.(clock := now), |h.s.pending|, envs);
      case _ =>
    }
  }

  ghost predicate SweepCorrelated(c: Config, h: Hist) {
    SweepInv(c, h) && Correlated(h)
  }

  lemma SlotKeepsCorrelation(c: Config, h: Hist, i: nat, env: SlotEnv)
    requires SweepCorrelated(c, h) && i < |h.s.pending|
    ensures SweepCorrelated(c, OnSweepSlot(c, h, i, env))
  {
    SweepSlotKeepsInv(c, h, i, env);
    assert SlotLinked(h, i);
  }

  lemma SweepKeepsCorrelation(c: Config, h: Hist, i: nat, envs: seq<SlotEnv>)
    requires SweepCorrelated(c, h) && i <= |h.s.pending| == |envs|
    ensures SweepCorrelated(c, OnSweepUpTo(c, h, i, envs))
  {
    var P := (g: Hist) => SweepCorrelated(c, g);
    forall g: Hist, j: nat, env: SlotEnv | HistOk(g) && j < |g.s.pending| && P(g)
      ensures P(OnSweepSlot(c, g, j, env))
    {
      SlotKeepsCorrelation(c, g, j, env);
    }
    SweepInduction(c, h, i, envs, P);
  }

  /** Over every run on such a network, across slot reuse, failover and configuration
      resets, replies are never crossed. */
  lemma {:induction false} RepliesAreNeverCrossed(c: Config, h0: Hist, events: seq<Event>)
    requires ConfigOk(c) && Start(h0)
    ensures HistOk(h0)
    ensures DisciplinedRun(c, h0, events) ==> Correlated(Run(c, h0, events))
  {
    StartInv(c, h0);
    if events != [] && DisciplinedRun(c, h0, events) {
      var before := events[..|events| - 1];
      RepliesAreNeverCrossed(c, h0, before);
      RunKeepsInv(c, h0, before);
      ApplyKeepsCorrelation(c, Run(c, h0, before), events[|events| - 1]);
    }
  }

  // ------------------------------------------------------------ closed sockets

  /** A datagram can only arrive on the open socket, as the answer to a query that left
      through it. */
  ghost predicate OnOpenSocket(h: Hist, e: Event)
    requires HistOk(h)
  {
    e.UpstreamDatagram? && e.n > 0 && Possible(h, e) ==>
      e.answering < |h.queries| && h.via[e.answering] == h.s.upstreamSock >= 0
  }

  ghost predicate ConnectedRun(c: Config, h: Hist, events: seq<Event>)
    requires HistOk(h)
  {
    events != [] ==>
      && ConnectedRun(c, h, events[..|events| - 1])
      && Disciplined(Run(c, h, events[..|events| - 1]), events[|events| - 1])
      && OnOpenSocket(Run(c, h, events[..|events| - 1]), events[|events| - 1])
  }

  lemma {:induction false} ConnectedIsDisciplined(c: Config, h: Hist, events: seq<Event>)
    requires HistOk(h) && ConnectedRun(c, h, events)
    ensures DisciplinedRun(c, h, events)
  {
    if events != [] {
      ConnectedIsDisciplined(c, h, events[..|events| - 1]);
    }
  }

  /** Still waiting, or given up. */
  ghost predicate Unanswered(f: Fate) {
    f.Waiting? || f.TimedOut?
  }

  /** A query without an answer from upstream that left through no open socket. */
  ghost predicate Stranded(h: Hist, id: nat)
    requires HistOk(h)
  {
    id < |h.queries| && Unanswered(h.fates[id]) && (h.via[id] != h.s.upstreamSock || h.via[id] < 0)
  }

  lemma ClientKeepsStranded(h: Hist, e: Event, id: nat)
    requires HistOk(h) && Stranded(h, id) && e.ClientDatagram? && Possible(h, e)
    ensures Stranded(OnClient(h, e), id)
  {
  }

  lemma UpstreamKeepsStranded(h: Hist, e: Event, id: nat)
    requires Linked(h) && Routed(h) && Correlated(h) && Stranded(h, id) && e.UpstreamDatagram? && Possible(h, e)
    requires Disciplined(h, e) && OnOpenSocket(h, e)
    ensures Stranded(OnUpstream(h, e), id)
  {
    if Matches(h.s, e.buf, e.n) {
      assert SlotLinked(h, U16(e.buf[0], e.buf[1]));
      assert QueryLinked(h, e.answering);
    }
  }

  lemma SlotKeepsStranded(c: Config, h: Hist, i: nat, env: SlotEnv, id: nat)
    requires Routed(h) && Stranded(h, id) && i < |h.s.pending|
    ensures Stranded(OnSweepSlot(c, h, i, env), id)
  {
  }

  lemma SweepKeepsStranded(c: Config, h: Hist, i: nat, envs: seq<SlotEnv>, id: nat)
    requires SweepInv(c, h) && Stranded(h, id) && i <= |h.s.pending| == |envs|
    ensures Stranded(OnSweepUpTo(c, h, i, envs), id)
  {
    var P := (g: Hist) => SweepInv(c, g) && Stranded(g, id);
    forall g: Hist, j: nat, env: SlotEnv | HistOk(g) && j < |g.s.pending| && P(g)
      ensures P(OnSweepSlot(c, g, j, env))
    {
      SweepSlotKeepsInv(c, g, j, env);
      SlotKeepsStranded(c, g, j, env, id);
    }
    SweepInduction(c, h, i, envs, P);
  }

  lemma ApplyKeepsStranded(c: Config, h: Hist, e: Event, id: nat)
    requires Inv(c, h) && Correlated(h) && Disciplined(h, e) && OnOpenSocket(h, e) && Stranded(h, id)
    ensures Stranded(Apply(c, h, e), id)
  {
    if Possible(h, e) {
      match e
      case ClientDatagram(_, _, _, _, _, _, _, _) => ClientKeepsStranded(h, e, id);
      case UpstreamDatagram(_, _, _, _) => UpstreamKeepsStranded(h, e, id);
      case SweepTick(now, envs) =>
        TickedInv(c, h, now);
        SweepKeepsStranded(c, h.(clock := now), |h.s.pending|, envs, id);
      case _ =>
    }
  }

  /** Once stranded, never relayed: over every run on such a network it stays unanswered by
      the upstream, whatever happens later. */
  lemma {:induction false} StrandedForever(c: Config, h0: Hist, events: seq<Event>, k: nat, id: nat)
    requires ConfigOk(c) && Start(h0) && k <= |events|
    ensures HistOk(h0)
    ensures ConnectedRun(c, h0, events) && Stranded(Run(c, h0, events[..k]), id) ==> Stranded(Run(c, h0, events), id)
  {
    StartInv(c, h0);
    if k == |events| {
      assert events[..k] == events;
    } else if ConnectedRun(c, h0, events) && Stranded(Run(c, h0, events[..k]), id) {
      var before := events[..|events| - 1];
      assert before[..k] == events[..k];
      StrandedForever(c, h0, before, k, id);
      RunKeepsInv(c, h0, before);
      ConnectedIsDisciplined(c, h0, before);
      RepliesAreNeverCrossed(c, h0, before);
      ApplyKeepsStranded(c, Run(c, h0, before), events[|events| - 1], id);
    }
  }

  /** The event reconnects: a configuration reset, or a sweep that fails over. */
  ghost predicate Reconnects(c: Config, h: Hist, e: Event)
    requires HistOk(h)
  {
    Possible(h, e) && (e.UpstreamConfigApplied? || (e.SweepTick? && Apply(c, h, e).failovers > h.failovers))
  }

  /** Either no failover yet in this sweep, or the socket is closed or newer than `connects`. */
  ghost predicate Moved(h: Hist, failovers: nat, connects: nat) {
    h.failovers == failovers || h.s.upstreamSock == -1 || h.s.upstreamSock >= connects
  }

  lemma SweepMoves(c: Config, h: Hist, i: nat, envs: seq<SlotEnv>)
    requires HistOk(h) && i <= |h.s.pending| == |envs|
    ensures Moved(OnSweepUpTo(c, h, i, envs), h.failovers, h.s.connects)
  {
    var failovers, connects := h.failovers, h.s.connects;
    var P := (g: Hist) => g.s.connects >= connects && Moved(g, failovers, connects);
    forall g: Hist, j: nat, env: SlotEnv | HistOk(g) && j < |g.s.pending| && P(g)
      ensures P(OnSweepSlot(c, g, j, env))
    {
      SlotMoves(c, g, j, env, failovers, connects);
    }
    SweepInduction(c, h, i, envs, P);
  }

  lemma SlotMoves(c: Config, h: Hist, i: nat, env: SlotEnv, failovers: nat, connects: nat)
    requires HistOk(h) && i < |h.s.pending| && h.s.connects >= connects && Moved(h, failovers, connects)
    ensures var r := OnSweepSlot(c, h, i, env);
            r.s.connects >= connects && Moved(r, failovers, connects)
  {
  }

  /** Queries are neither added nor re-routed by a sweep, and never answered by one. */
  lemma SweepRoutesNothing(c: Config, h: Hist, i: nat, envs: seq<SlotEnv>, id: nat)
    requires HistOk(h) && i <= |h.s.pending| == |envs| && id < |h.queries| && Unanswered(h.fates[id])
    ensures var r := OnSweepUpTo(c, h, i, envs);
            |r.queries| == |h.queries| && r.via == h.via && Unanswered(r.fates[id])
  {
    var n, via := |h.queries|, h.via;
    var P := (g: Hist) => |g.fates| == |g.queries| == n && g.via == via && Unanswered(g.fates[id]);
    forall g: Hist, j: nat, env: SlotEnv | HistOk(g) && j < |g.s.pending| && P(g)
      ensures P(OnSweepSlot(c, g, j, env))
    {
    }
    SweepInduction(c, h, i, envs, P);
  }

  /** A reconnect strands every query in flight. */
  lemma ReconnectStrands(c: Config, h: Hist, e: Event, id: nat)
    requires ConfigOk(c) && Inv(c, h) && Reconnects(c, h, e)
    requires id < |h.queries| && Unanswered(h.fates[id])
    ensures Stranded(Apply(c, h, e), id)
  {
    if e.SweepTick? {
      var g := h.(clock := e.now);
      SweepMoves(c, g, |h.s.pending|, e.envs);
      SweepRoutesNothing(c, g, |h.s.pending|, e.envs, id);
    }
  }

  /** Closing the old socket: over every run on such a network, a query that is in flight when
      the proxy fails over or is reconfigured is never relayed afterwards; it is waiting or its
      client got the SERVFAIL of its timeout. */
  lemma FailoverStrandsQueriesInFlight(c: Config, h0: Hist, events: seq<Event>, k: nat, id: nat)
    requires ConfigOk(c) && Start(h0) && k < |events|
    ensures HistOk(h0)
    ensures var h, r := Run(c, h0, events[..k]), Run(c, h0, events);
            ConnectedRun(c, h0, events) && Reconnects(c, h, events[k]) &&
            id < |h.queries| && h.fates[id].Waiting? ==>
              id < |r.queries| && Unanswered(r.fates[id])
  {
    StartInv(c, h0);
    var h := Run(c, h0, events[..k]);
    if ConnectedRun(c, h0, events) && Reconnects(c, h, events[k]) && id < |h.queries| && h.fates[id].Waiting? {
      RunKeepsInv(c, h0, events[..k]);
      ReconnectStrands(c, h, events[k], id);
      assert events[..k + 1][..k] == events[..k] && events[..k + 1][k] == events[k];
      StrandedForever(c, h0, events, k + 1, id);
    }
  }

  /** Without the discipline the slot number is not enough: with one slot, a reply that
      arrives after its query timed out goes to the next client. */
  lemma LateReplyIsMisdelivered(c: Config, h0: Hist, first: Event, tick: Event, second: Event, late: Event)
    requires ConfigOk(c) && Start(h0) && |h0.s.pending| == 1 && !h0.s.decider.enabled
    requires first.ClientDatagram? && first.n > 0 && Received(first.buf, first.n) && h0.clock <= first.now
    requires tick.SweepTick? && |tick.envs| == 1 && first.now + c.timeoutUs <= tick.now
    requires second.ClientDatagram? && second.n > 0 && Received(second.buf, second.n) && tick.now <= second.now
    requires late.UpstreamDatagram? && late.n > 0 && Received(late.buf, late.n) && second.now <= late.now
    requires U16(late.buf[0], late.buf[1]) == 0 && late.answering == 0
    ensures HistOk(h0)
    ensures var h := Run(c, h0, [first, tick, second, late]);
            |h.replies| == 2 && h.replies[1].answering == Some(0) && h.replies[1].query == 1 &&
            h.replies[1].packet.ToClient? && h.replies[1].packet.client == second.client
  {
    var h1 := Apply(c, h0, first);
    OneSlotArrival(h0, first);
    var h2 := Apply(c, h1, tick);
    OneSlotSweep(c, h1, tick);
    var h3 := Apply(c, h2, second);
    OneSlotArrival(h2, second);
    RunOfFour(c, h0, first, tick, second, late);
  }

  lemma OneSlotArrival(h: Hist, e: Event)
    requires HistOk(h) && e.ClientDatagram? && Possible(h, e) && e.n > 0
    requires |h.s.pending| == 1 && !h.s.pending[0].inUse && !h.s.decider.enabled
    ensures var r := OnClient(h, e);
            && |r.s.pending| == 1 && r.s.pending[0].inUse && r.s.pending[0].client == e.client
            && r.s.pending[0].sentAt == e.now && r.s.decider == h.s.decider
            && r.owner == [|h.queries|] && |r.queries| == |h.queries| + 1
            && r.replies == h.replies && r.clock == e.now
  {
    OneSlotStored(h.s, e);
    ArrivalForwarded(h, e);
    assert h.owner[0 := |h.queries|] == [|h.queries|];
  }

  lemma ArrivalForwarded(h: Hist, e: Event)
    requires HistOk(h) && e.ClientDatagram? && Possible(h, e) && e.n > 0
    requires !IsBlocked(h.s, e.buf, e.n) && FirstFree(h.s.pending) < |h.s.pending|
    ensures var r := OnClient(h, e);
            && r.s == ClientStep(h.s, e.sock, e.client, e.buf, e.n, e.now, e.hour, e.sendOk, e.log).state
            && r.owner == h.owner[FirstFree(h.s.pending) := |h.queries|] && |r.queries| == |h.queries| + 1
            && r.replies == h.replies && r.clock == e.now
  {
  }

  lemma OneSlotStored(s: State, e: Event)
    requires StateOk(s) && e.ClientDatagram? && Received(e.buf, e.n) && e.n > 0
    requires |s.pending| == 1 && !s.pending[0].inUse && !s.decider.enabled
    ensures FirstFree(s.pending) == 0 && !IsBlocked(s, e.buf, e.n)
    ensures var r := ClientStep(s, e.sock, e.client, e.buf, e.n, e.now, e.hour, e.sendOk, e.log).state;
            && |r.pending| == 1 && r.pending[0].inUse && r.pending[0].client == e.client
            && r.pending[0].sentAt == e.now && r.decider == s.decider
  {
  }

  lemma OneSlotSweep(c: Config, h: Hist, tick: Event)
    requires HistOk(h) && tick.SweepTick? && Possible(h, tick) && |h.s.pending| == 1
    requires Expired(c, h.s.pending[0], tick.now)
    ensures var r := OnSweep(c, h, tick);
            && !r.s.pending[0].inUse && |r.replies| == |h.replies| + 1
            && r.queries == h.queries && r.clock == tick.now && r.owner == h.owner
            && r.s.decider == h.s.decider && |r.s.pending| == 1
  {
    var g := h.(clock := tick.now);
    assert OnSweepUpTo(c, g, 0, tick.envs) == g;
    assert OnSweepUpTo(c, g, 1, tick.envs) == OnSweepSlot(c, g, 0, tick.envs[0]);
  }

  lemma RunOfFour(c: Config, h: Hist, a: Event, b: Event, d: Event, e: Event)
    requires HistOk(h)
    ensures Run(c, h, [a, b, d, e]) == Apply(c, Apply(c, Apply(c, Apply(c, h, a), b), d), e)
  {
    assert [a, b, d, e][..3] == [a, b, d] && [a, b, d][..2] == [a, b] && [a, b][..1] == [a] && [a][..0] == [];
    assert Run(c, h, []) == h;
    assert Run(c, h, [a]) == Apply(c, h, a);
    assert Run(c, h, [a, b]) == Apply(c, Run(c, h, [a]), b);
    assert Run(c, h, [a, b, d]) == Apply(c, Run(c, h, [a, b]), d);
  }

  // ----------------------------------------------------------------- deadlines

  /** Events happen while the last sweep is at most d old. */
  ghost predicate Paced(h: Hist, e: Event, d: nat) {
    match e
    case ClientDatagram(_, _, _, _, now, _, _, _) => now <= h.lastSweep + d
    case UpstreamDatagram(_, _, now, _) => now <= h.lastSweep + d
    case SweepTick(now, _) => now <= h.lastSweep + d
    case _ => true
  }

  ghost predicate PacedRun(c: Config, h: Hist, events: seq<Event>, d: nat)
    requires HistOk(h)
  {
    events != [] ==>
      && PacedRun(c, h, events[..|events| - 1], d)
      && Paced(Run(c, h, events[..|events| - 1]), events[|events| - 1], d)
  }

  ghost predicate ReplyInTime(c: Config, h: Hist, d: nat, k: nat)
    requires |h.fates| == |h.queries| && k < |h.replies| && h.replies[k].query < |h.queries|
  {
    var r, q := h.replies[k], h.queries[h.replies[k].query];
    && r.at < q.at + c.timeoutUs + d
    && (h.fates[r.query].TimedOut? ==> q.at + c.timeoutUs <= r.at)
  }

  /** No query waits as long as the timeout plus one sweep interval, no reply was later
      than that, and none was a timeout before its time. */
  ghost predicate InTime(c: Config, h: Hist, d: nat) {
    && Answered(h)
    && h.clock <= h.lastSweep + d
    && (forall id :: 0 <= id < |h.queries| && h.fates[id].Waiting? ==> h.clock < h.queries[id].at + c.timeoutUs + d)
    && (forall k :: 0 <= k < |h.replies| ==> ReplyFits(h, k) && ReplyInTime(c, h, d, k))
  }

  lemma WaitingInTime(c: Config, h: Hist, d: nat)
    requires Inv(c, h) && h.clock <= h.lastSweep + d
    ensures forall id :: 0 <= id < |h.queries| && h.fates[id].Waiting? ==> h.clock < h.queries[id].at + c.timeoutUs + d
  {
    forall id | 0 <= id < |h.queries| && h.fates[id].Waiting?
      ensures h.clock < h.queries[id].at + c.timeoutUs + d
    {
      assert QueryLinked(h, id);
      assert SlotLinked(h, h.home[id]);
    }
  }

  /** A reply to a waiting query, sent while the last sweep is at most d old. */
  lemma SettledInTime(c: Config, h: Hist, r: Hist, d: nat, id: nat, fate: Fate)
    requires Answered(h) && Answered(r) && id < |h.queries| && h.fates[id].Waiting?
    requires forall k :: 0 <= k < |h.replies| ==> ReplyFits(h, k) && ReplyInTime(c, h, d, k)
    requires r.queries == h.queries && r.fates == h.fates[id := fate]
    requires |r.replies| == |h.replies| + 1 && r.replies[..|h.replies|] == h.replies
    requires var last := r.replies[|h.replies|];
             && last.query == id && last.at < h.queries[id].at + c.timeoutUs + d
             && (fate.TimedOut? ==> h.queries[id].at + c.timeoutUs <= last.at)
    ensures forall k :: 0 <= k < |r.replies| ==> ReplyFits(r, k) && ReplyInTime(c, r, d, k)
  {
    forall k | 0 <= k < |r.replies| ensures ReplyFits(r, k) && ReplyInTime(c, r, d, k) {
      assert ReplyFits(r, k);
      if k < |h.replies| {
        assert r.replies[k] == r.replies[..|h.replies|][k] == h.replies[k];
        assert ReplyFits(h, k) && ReplyInTime(c, h, d, k);
      }
    }
  }

  lemma ClientInTime(c: Config, h: Hist, e: Event, d: nat)
    requires ConfigOk(c) && Inv(c, h) && InTime(c, h, d) && e.ClientDatagram? && Possible(h, e) && Paced(h, e, d)
    ensures InTime(c, OnClient(h, e), d)
  {
    var r := OnClient(h, e);
    ApplyKeepsInv(c, h, e);
    WaitingInTime(c, r, d);
    ArrivedInTime(c, h, r, d);
  }

  /** A new query, answered at once or not yet. */
  lemma ArrivedInTime(c: Config, h: Hist, r: Hist, d: nat)
    requires c.timeoutUs > 0 && Answered(h) && Answered(r)
    requires forall k :: 0 <= k < |h.replies| ==> ReplyFits(h, k) && ReplyInTime(c, h, d, k)
    requires h.queries <= r.queries && h.fates <= r.fates && h.replies <= r.replies
    requires forall k :: |h.replies| <= k < |r.replies| ==>
               && |h.queries| <= r.replies[k].query < |r.queries|
               && r.replies[k].at == r.queries[r.replies[k].query].at
               && !r.fates[r.replies[k].query].TimedOut?
    ensures forall k :: 0 <= k < |r.replies| ==> ReplyFits(r, k) && ReplyInTime(c, r, d, k)
  {
    forall k | 0 <= k < |r.replies| ensures ReplyFits(r, k) && ReplyInTime(c, r, d, k) {
      assert ReplyFits(r, k);
      if k < |h.replies| {
        assert ReplyFits(h, k) && ReplyInTime(c, h, d, k);
        assert r.replies[k] == h.replies[k];
      }
    }
  }

  lemma UpstreamInTime(c: Config, h: Hist, e: Event, d: nat)
    requires ConfigOk(c) && Inv(c, h) && InTime(c, h, d) && e.UpstreamDatagram? && Possible(h, e) && Paced(h, e, d)
    ensures InTime(c, OnUpstream(h, e), d)
  {
    var r := OnUpstream(h, e);
    ApplyKeepsInv(c, h, e);
    WaitingInTime(c, r, d);
    if Matches(h.s, e.buf, e.n) {
      var slot := U16(e.buf[0], e.buf[1]);
      assert SlotLinked(h, slot);
      SettledInTime(c, h, r, d, h.owner[slot], Relayed);
    } else {
      forall k | 0 <= k < |r.replies| ensures ReplyFits(r, k) && ReplyInTime(c, r, d, k) {
        assert ReplyFits(h, k) && ReplyInTime(c, h, d, k);
      }
    }
  }

  /** All replies sent so far in time, and every slot still to be swept young enough. */
  ghost predicate SweepingInTime(c: Config, h: Hist, d: nat) {
    && SweepInv(c, h)
    && (forall i :: 0 <= i < |h.s.pending| && h.s.pending[i].inUse ==>
          h.clock < h.s.pending[i].sentAt + c.timeoutUs + d)
    && (forall k :: 0 <= k < |h.replies| ==> ReplyFits(h, k) && ReplyInTime(c, h, d, k))
  }

  lemma SweepSlotInTime(c: Config, h: Hist, i: nat, env: SlotEnv, d: nat)
    requires SweepingInTime(c, h, d) && i < |h.s.pending|
    ensures SweepingInTime(c, OnSweepSlot(c, h, i, env), d)
  {
    SweepSlotKeepsInv(c, h, i, env);
    if Expired(c, h.s.pending[i], h.clock) {
      assert SlotLinked(h, i);
      SettledInTime(c, h, OnSweepSlot(c, h, i, env), d, h.owner[i], TimedOut);
    }
  }

  lemma SweepUpToInTime(c: Config, h: Hist, i: nat, envs: seq<SlotEnv>, d: nat)
    requires SweepingInTime(c, h, d) && i <= |h.s.pending| == |envs|
    ensures SweepingInTime(c, OnSweepUpTo(c, h, i, envs), d)
  {
    var P := (g: Hist) => SweepingInTime(c, g, d);
    forall g: Hist, j: nat, env: SlotEnv | HistOk(g) && j < |g.s.pending| && P(g)
      ensures P(OnSweepSlot(c, g, j, env))
    {
      SweepSlotInTime(c, g, j, env, d);
    }
    SweepInduction(c, h, i, envs, P);
  }

  lemma SweepInTime(c: Config, h: Hist, e: Event, d: nat)
    requires ConfigOk(c) && Inv(c, h) && InTime(c, h, d) && e.SweepTick? && Possible(h, e) && Paced(h, e, d)
    ensures InTime(c, OnSweep(c, h, e), d)
  {
    var g := h.(clock := e.now);
    TickedInv(c, h, e.now);
    forall k | 0 <= k < |g.replies| ensures ReplyFits(g, k) && ReplyInTime(c, g, d, k) {
      assert ReplyFits(h, k) && ReplyInTime(c, h, d, k);
    }
    SweepUpToInTime(c, g, |h.s.pending|, e.envs, d);
    var swept, r := OnSweepUpTo(c, g, |h.s.pending|, e.envs), OnSweep(c, h, e);
    SweepKeepsInv(c, h, e);
    WaitingInTime(c, r, d);
    forall k | 0 <= k < |r.replies| ensures ReplyFits(r, k) && ReplyInTime(c, r, d, k) {
      assert ReplyFits(swept, k) && ReplyInTime(c, swept, d, k);
    }
  }

  lemma OthersInTime(c: Config, h: Hist, r: Hist, d: nat)
    requires Inv(c, r) && InTime(c, h, d)
    requires r.queries == h.queries && r.fates == h.fates && r.replies == h.replies
    requires r.clock == h.clock && r.lastSweep == h.lastSweep
    ensures InTime(c, r, d)
  {
    forall k | 0 <= k < |r.replies| ensures ReplyFits(r, k) && ReplyInTime(c, r, d, k) {
      assert ReplyFits(h, k) && ReplyInTime(c, h, d, k);
    }
  }

  lemma ApplyInTime(c: Config, h: Hist, e: Event, d: nat)
    requires ConfigOk(c) && Inv(c, h) && InTime(c, h, d) && Paced(h, e, d)
    ensures InTime(c, Apply(c, h, e), d)
  {
    if Possible(h, e) {
      match e
      case ClientDatagram(_, _, _, _, _, _, _, _) => ClientInTime(c, h, e, d);
      case UpstreamDatagram(_, _, _, _) => UpstreamInTime(c, h, e, d);
      case SweepTick(_, _) => SweepInTime(c, h, e, d);
      case _ =>
        ApplyKeepsInv(c, h, e);
        OthersInTime(c, h, Apply(c, h, e), d);
    }
  }

  /** If successive sweeps are at most d apart, every query is answered, or given up with
      SERVFAIL no earlier than the timeout, strictly before its arrival + timeout + d. */
  lemma {:induction false} EveryReplyIsInTime(c: Config, h0: Hist, events: seq<Event>, d: nat)
    requires ConfigOk(c) && Start(h0)
    ensures HistOk(h0)
    ensures PacedRun(c, h0, events, d) ==> InTime(c, Run(c, h0, events), d)
  {
    StartInv(c, h0);
    if events != [] && PacedRun(c, h0, events, d) {
      var before := events[..|events| - 1];
      EveryReplyIsInTime(c, h0, before, d);
      RunKeepsInv(c, h0, before);
      ApplyInTime(c, Run(c, h0, before), events[|events| - 1], d);
    }
  }

  /** Over every run failovers are paid for by timeouts, exactly so until a reply or a
      configuration reset clears the counter, and the upstream index is always 0 or 1. */
  lemma FailoversArePaidFor(c: Config, h0: Hist, events: seq<Event>)
    requires ConfigOk(c) && Start(h0)
    ensures HistOk(h0)
    ensures var h := Run(c, h0, events);
            var spent := h.failovers * c.failThreshold + h.s.consecutiveTimeouts;
            && h.s.upstreamIndex <= 1
            && h.s.consecutiveTimeouts < c.failThreshold
            && spent <= Count(h.fates, TimedOut)
            && (h.resets == 0 && Count(h.fates, Relayed) == 0 ==> spent == Count(h.fates, TimedOut))
            && (h.resets == 0 ==> h.s.upstreamIndex == h.failovers % 2)
  {
    RunKeepsInv(c, h0, events);
  }
}
