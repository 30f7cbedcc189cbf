/** Which upstream the proxy uses, over whole runs: counted from the timeouts, replies and
    configuration changes that happened, apart from the steps that do the counting. */
module ProxyFailover {
  import opened Words
  import opened Options
  import opened CStrings
  import opened DnsWire
  import opened ProxyState
  import opened ProxyHistory

  /** How many timeouts there were since the last relayed reply or configuration change. */
  function Streak(trace: seq<Mark>): nat {
    if trace == [] || !trace[|trace| - 1].Expiry? then 0 else Streak(trace[..|trace| - 1]) + 1
  }

  /** The mark at the end of the trace completes another T timeouts in a row. */
  predicate Completes(T: nat, trace: seq<Mark>)
    requires T > 0 && trace != []
  {
    trace[|trace| - 1].Expiry? && Streak(trace) % T == 0
  }

  /** How often that happened. */
  function Completed(T: nat, trace: seq<Mark>): nat
    requires T > 0
  {
    if trace == [] then 0 else Completed(T, trace[..|trace| - 1]) + if Completes(T, trace) then 1 else 0
  }

  /** ... since the last configuration change. */
  function CompletedSinceReset(T: nat, trace: seq<Mark>): nat
    requires T > 0
  {
    if trace == [] || trace[|trace| - 1].Reset? then 0
    else CompletedSinceReset(T, trace[..|trace| - 1]) + if Completes(T, trace) then 1 else 0
  }

  function Marks(trace: seq<Mark>, m: Mark): nat {
    if trace == [] then 0 else Marks(trace[..|trace| - 1], m) + if trace[|trace| - 1] == m then 1 else 0
  }

  /** A streak of n or more means that the last n marks are timeouts. */
  lemma {:induction false} StreakMeans(trace: seq<Mark>, n: nat)
    requires n <= |trace|
    ensures Streak(trace) <= |trace|
    ensures Streak(trace) >= n <==> forall j :: |trace| - n <= j < |trace| ==> trace[j].Expiry?
  {
    if n > 0 && trace[|trace| - 1].Expiry? {
      StreakMeans(trace[..|trace| - 1], n - 1);
    } else if trace != [] {
      StreakMeans(trace[..|trace| - 1], 0);
    }
  }

  /** The proxy's counter, index and connects, from the trace alone. */
  ghost predicate Clockwork(T: nat, connects: nat, h: Hist)
    requires T > 0
  {
    && h.s.consecutiveTimeouts == Streak(h.trace) % T
    && h.failovers == Completed(T, h.trace)
    && h.s.upstreamIndex == CompletedSinceReset(T, h.trace) % 2
    && h.s.connects == connects + Completed(T, h.trace) + h.resets
    && (h.s.upstreamSock >= 0 ==> h.s.peer == h.s.upstreamIndex)
  }

  /** The trace holds what happened to the queries. */
  ghost predicate Traced(h: Hist) {
    && Marks(h.trace, Expiry) == Count(h.fates, TimedOut)
    && Marks(h.trace, Answer) == Count(h.fates, Relayed)
    && Marks(h.trace, Reset) == h.resets
  }

  lemma OneMore(T: nat, trace: seq<Mark>, m: Mark)
    requires T > 0
    ensures var more := trace + [m];
            && Streak(more) == (if m.Expiry? then Streak(trace) + 1 else 0)
            && Completed(T, more) == Completed(T, trace) + (if Completes(T, more) then 1 else 0)
            && CompletedSinceReset(T, more) ==
               (if m.Reset? then 0 else CompletedSinceReset(T, trace) + if Completes(T, more) then 1 else 0)
            && forall k: Mark :: Marks(more, k) == Marks(trace, k) + if m == k then 1 else 0
  {
    assert (trace + [m])[..|trace|] == trace;
  }

  lemma ParityStep(n: nat)
    ensures (n + 1) % 2 == (if n % 2 == 0 then 1 else 0)
  {
  }

  lemma ExpiryTurns(T: nat, connects: nat, h: Hist, r: Hist)
    requires T > 0 && Clockwork(T, connects, h) && r.trace == h.trace + [Expiry] && r.resets == h.resets
    requires var over := h.s.consecutiveTimeouts + 1 >= T;
             && r.s.consecutiveTimeouts == (if over then 0 else h.s.consecutiveTimeouts + 1)
             && r.s.upstreamIndex == (if over then if h.s.upstreamIndex == 0 then 1 else 0 else h.s.upstreamIndex)
             && r.failovers == h.failovers + (if over then 1 else 0)
             && r.s.connects == h.s.connects + (if over then 1 else 0)
             && (r.s.upstreamSock >= 0 ==> r.s.peer == r.s.upstreamIndex)
    ensures Clockwork(T, connects, r)
  {
    OneMore(T, h.trace, Expiry);
    NextMultiple(Streak(h.trace), T);
    ParityStep(CompletedSinceReset(T, h.trace));
  }

  lemma SlotTurns(c: Config, connects: nat, h: Hist, i: nat, env: SlotEnv)
    requires ConfigOk(c) && HistOk(h) && i < |h.s.pending| && Clockwork(c.failThreshold, connects, h)
    ensures Clockwork(c.failThreshold, connects, OnSweepSlot(c, h, i, env))
  {
    if Expired(c, h.s.pending[i], h.clock) {
      ExpiryTurns(c.failThreshold, connects, h, OnSweepSlot(c, h, i, env));
    }
  }

  lemma SlotTraced(c: Config, h: Hist, i: nat, env: SlotEnv)
    requires Linked(h) && Traced(h) && i < |h.s.pending|
    ensures Traced(OnSweepSlot(c, h, i, env))
  {
    if Expired(c, h.s.pending[i], h.clock) {
      var r := OnSweepSlot(c, h, i, env);
      ReleaseCounts(h, i, r.s.pending[i], TimedOut);
      OneMore(1, h.trace, Expiry);
    }
  }

  lemma SweepTurns(c: Config, connects: nat, h: Hist, i: nat, envs: seq<SlotEnv>)
    requires ConfigOk(c) && SweepInv(c, h) && i <= |h.s.pending| == |envs|
    requires Clockwork(c.failThreshold, connects, h) && Traced(h)
    ensures Clockwork(c.failThreshold, connects, OnSweepUpTo(c, h, i, envs)) && Traced(OnSweepUpTo(c, h, i, envs))
  {
    var P := (g: Hist) => SweepInv(c, g) && Clockwork(c.failThreshold, connects, g) && Traced(g);
    forall g: Hist, j: nat, env: SlotEnv | HistOk(g) && j < |g.s.pending| && P(g)
      ensures P(OnSweepSlot(c, g, j, env))
    {
      SweepSlotKeepsInv(c, g, j, env);
      SlotTurns(c, connects, g, j, env);
      SlotTraced(c, g, j, env);
    }
    SweepInduction(c, h, i, envs, P);
  }

  lemma ClientTurns(T: nat, connects: nat, h: Hist, e: Event)
    requires T > 0 && HistOk(h) && Clockwork(T, connects, h) && Traced(h) && e.ClientDatagram? && Possible(h, e)
    ensures Clockwork(T, connects, OnClient(h, e)) && Traced(OnClient(h, e))
  {
    var r := OnClient(h, e);
    if e.n > 0 {
      CountMore(h.fates, r.fates[|h.fates|], TimedOut);
      CountMore(h.fates, r.fates[|h.fates|], Relayed);
    }
  }

  lemma AnswerTurns(T: nat, connects: nat, h: Hist, r: Hist)
    requires T > 0 && Clockwork(T, connects, h) && r.trace == h.trace + [Answer]
    requires r.resets == h.resets && r.failovers == h.failovers && r.s.consecutiveTimeouts == 0
    requires r.s.upstreamIndex == h.s.upstreamIndex && r.s.connects == h.s.connects
    requires r.s.upstreamSock == h.s.upstreamSock && r.s.peer == h.s.peer
    ensures Clockwork(T, connects, r)
  {
    OneMore(T, h.trace, Answer);
  }

  lemma AnswerTraced(h: Hist, r: Hist, i: nat)
    requires Linked(h) && Traced(h) && i < |h.s.pending| && h.s.pending[i].inUse
    requires r.trace == h.trace + [Answer] && r.resets == h.resets && r.fates == h.fates[h.owner[i] := Relayed]
    ensures Traced(r)
  {
    OneMore(1, h.trace, Answer);
    ReleaseCounts(h, i, h.s.pending[i].(inUse := false), Relayed);
  }

  lemma UpstreamTurns(T: nat, connects: nat, h: Hist, e: Event)
    requires T > 0 && Linked(h) && Clockwork(T, connects, h) && Traced(h) && e.UpstreamDatagram? && Possible(h, e)
    ensures Clockwork(T, connects, OnUpstream(h, e)) && Traced(OnUpstream(h, e))
  {
    if Matches(h.s, e.buf, e.n) {
      AnswerTurns(T, connects, h, OnUpstream(h, e));
      AnswerTraced(h, OnUpstream(h, e), U16(e.buf[0], e.buf[1]));
    }
  }

  lemma ResetTurns(T: nat, connects: nat, h: Hist, ok: bool)
    requires T > 0 && Clockwork(T, connects, h) && Traced(h)
    ensures var r := h.(s := ApplyUpstreamConfig(h.s, ok), resets := h.resets + 1, trace := h.trace + [Reset]);
            Clockwork(T, connects, r) && Traced(r)
  {
    OneMore(T, h.trace, Reset);
  }

  lemma TickTurns(c: Config, connects: nat, h: Hist, e: Event)
    requires ConfigOk(c) && Inv(c, h) && e.SweepTick? && Possible(h, e)
    requires Clockwork(c.failThreshold, connects, h) && Traced(h)
    ensures Clockwork(c.failThreshold, connects, OnSweep(c, h, e)) && Traced(OnSweep(c, h, e))
  {
    TickedInv(c, h, e.now);
    SweepTurns(c, connects, h.(clock := e.now), |h.s.pending|, e.envs);
  }

  lemma ApplyTurns(c: Config, connects: nat, h: Hist, e: Event)
    requires ConfigOk(c) && Inv(c, h) && Clockwork(c.failThreshold, connects, h) && Traced(h)
    ensures Clockwork(c.failThreshold, connects, Apply(c, h, e)) && Traced(Apply(c, h, e))
  {
    if Possible(h, e) {
      match e
      case ClientDatagram(_, _, _, _, _, _, _, _) => ClientTurns(c.failThreshold, connects, h, e);
      case UpstreamDatagram(_, _, _, _) => UpstreamTurns(c.failThreshold, connects, h, e);
      case SweepTick(_, _) => TickTurns(c, connects, h, e);
      case UpstreamConfigApplied(ok) => ResetTurns(c.failThreshold, connects, h, ok);
      case Reloaded(_) =>
    }
  }

  /** Over every run the timeout counter is the number of timeouts since the last relayed reply,
      failover or configuration change; the proxy fails over exactly at every T-th timeout in a
      row; it uses the first upstream after an even number of failovers since the last
      configuration change, else the second; it connects once for each of both, and an open
      socket is one to the upstream in use. */
  lemma {:induction false} CounterIsStreak(c: Config, h0: Hist, events: seq<Event>)
    requires ConfigOk(c) && Start(h0)
    ensures HistOk(h0)
    ensures Clockwork(c.failThreshold, h0.s.connects, Run(c, h0, events)) && Traced(Run(c, h0, events))
  {
    StartInv(c, h0);
    if events != [] {
      CounterIsStreak(c, h0, events[..|events| - 1]);
      RunKeepsInv(c, h0, events[..|events| - 1]);
      ApplyTurns(c, h0.s.connects, Run(c, h0, events[..|events| - 1]), events[|events| - 1]);
    }
  }

  /** Every failover has its T timeouts directly before it, with no relayed reply and no
      configuration change between them. */
  lemma FailoverTakesTimeouts(T: nat, trace: seq<Mark>, k: nat)
    requires T > 0 && k < |trace|
    requires Completed(T, trace[..k + 1]) > Completed(T, trace[..k])
    ensures k + 1 >= T && forall j :: k + 1 - T <= j <= k ==> trace[j].Expiry?
  {
    var t := trace[..k + 1];
    assert t[..k] == trace[..k];
    StreakMeans(t, 0);
    AtLeastOne(Streak(t), T);
    StreakMeans(t, T);
    forall j | k + 1 - T <= j <= k ensures trace[j].Expiry? {
      assert t[j].Expiry?;
    }
  }

  lemma AtLeastOne(n: nat, T: nat)
    requires T > 0 && n > 0 && n % T == 0
    ensures n >= T
  {
  }

  // ------------------------------------------------------------------- sockets

  /** A successful connect leaves an open socket that no query has left through; a failed one
      leaves none. */
  lemma ConnectOpensSocket(c: Config, h: Hist, connectOk: bool)
    requires Inv(c, h)
    ensures var sock := Reconnect(h.s, connectOk).upstreamSock;
            (sock >= 0 <==> connectOk) && (sock < 0 ==> sock == -1) && (connectOk ==> sock !in h.via)
  {
  }

  /** What leaves when a query is forwarded: if the send succeeds on an open socket, the client's
      datagram under its slot's number through the socket recorded for the query; else nothing. */
  lemma ForwardedQueryIsSent(c: Config, h: Hist, e: Event)
    requires Inv(c, h) && e.ClientDatagram? && Possible(h, e) && e.n > 0
    ensures var r, id := OnClient(h, e), |h.queries|;
            var sent := ClientStep(h.s, e.sock, e.client, e.buf, e.n, e.now, e.hour, e.sendOk, e.log).sent;
            r.fates[id].Waiting? ==>
              if e.sendOk && h.s.upstreamSock >= 0
              then |sent| == 1 && IsForward(sent[0], e.buf[..e.n], r.via[id], r.home[id])
              else sent == []
  {
    var r := OnClient(h, e);
    var slot := FirstFree(h.s.pending);
    if r.fates[|h.queries|].Waiting? {
      ForwardedBytes(h.s.pending[slot], slot, e);
    }
  }

  ghost predicate IsForward(p: Packet, query: seq<byte>, sock: int, slot: nat)
    requires query != []
  {
    && p.ToUpstream? && p.upstream == sock && |p.bytes| == |query|
    && (|query| >= 2 ==> U16(p.bytes[0], p.bytes[1]) == slot)
    && (|query| > 2 ==> p.bytes[2..] == query[2..])
  }

  lemma ForwardedBytes(p: Slot, slot: nat, e: Event)
    requires e.ClientDatagram? && Received(e.buf, e.n) && e.n > 0 && SlotOk(p) && slot < M16
    ensures var bytes := Occupied(p, slot, e.sock, e.client, e.buf, e.n, e.now).queryBuf[..e.n];
            && |bytes| == e.n
            && (e.n >= 2 ==> U16(bytes[0], bytes[1]) == slot)
            && (e.n > 2 ==> bytes[2..] == e.buf[..e.n][2..])
  {
    var stored := Occupied(p, slot, e.sock, e.client, e.buf, e.n, e.now).queryBuf;
    if e.n > 2 {
      assert stored[2..] == (e.buf[..e.n] + p.queryBuf[e.n..])[2..];
      assert stored[..e.n][2..] == stored[2..][..e.n - 2];
    }
  }
}
