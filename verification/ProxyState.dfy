/** The proxy of components/dns_proxy/dns_proxy.c as a state and one function per step:
    a client datagram, an upstream datagram, one slot of the timeout sweep, a reset of the
    upstream configuration. What the code reads from its environment (clocks, send and
    connect results, the log mutex) is a parameter. */
module ProxyState {
  import opened Words
  import opened Options
  import opened CStrings
  import opened DnsWire
  import opened DnsResponse
  import opened Decision
  import opened QueryLog

  datatype Config = Config(timeoutUs: int, failThreshold: nat)

  /** pending_query_t */
  datatype Slot = Slot(inUse: bool, replySock: int, client: SockAddr, clientTxid: nat,
                       sentAt: int, queryLen: nat, queryBuf: seq<byte>)

  datatype Stats = Stats(total: nat, blocked: nat, forwarded: nat, servfail: nat)

  /** upstreamSock is -1 when closed; every successful connect yields a new number, and peer is the
      index of the upstream it was made to. */
  datatype State = State(pending: seq<Slot>, upstreamIndex: nat, consecutiveTimeouts: nat,
                         upstreamSock: int, connects: nat, peer: nat, stats: Stats,
                         blockedHours: seq<nat>, log: seq<Entry>, decider: Decider)

  datatype Packet = ToClient(sock: int, client: SockAddr, bytes: seq<byte>)
                  | ToUpstream(upstream: int, bytes: seq<byte>)

  datatype Step = Step(state: State, sent: seq<Packet>)

  /** One attempt at the log mutex, and the clock read under it. */
  datatype LogEnv = LogEnv(taken: bool, timeUs: int)

  function Inc(n: nat): nat {
    (n + 1) % M32
  }

  predicate SlotOk(p: Slot) {
    |p.queryBuf| == MAX_MSG_LEN && p.clientTxid < M16 && p.queryLen <= MAX_MSG_LEN
  }

  predicate StateOk(s: State) {
    && 0 < |s.pending| <= M16
    && (forall i :: 0 <= i < |s.pending| ==> SlotOk(s.pending[i]))
    && -1 <= s.upstreamSock < s.connects
  }

  /** A received datagram: the 512-byte buffer after recv, of which n bytes are the message. */
  predicate Received(buf: seq<byte>, n: int) {
    |buf| == MAX_MSG_LEN && n <= MAX_MSG_LEN
  }

  function Logged(log: seq<Entry>, env: LogEnv, client: SockAddr, q: Option<Question>, result: Outcome): seq<Entry> {
    if q.Some? && env.taken then log + [EntryFor(env.timeUs, client, q.value.qname, q.value.qtype, result)] else log
  }

  function FirstFree(pending: seq<Slot>): (r: nat)
    ensures r <= |pending|
    ensures r < |pending| ==> !pending[r].inUse
    ensures forall i :: 0 <= i < r ==> pending[i].inUse
  {
    if pending == [] then 0
    else
      var before := FirstFree(pending[..|pending| - 1]);
      if before < |pending| - 1 then before
      else if pending[|pending| - 1].inUse then |pending| else |pending| - 1
  }

  // ------------------------------------------------------- client datagrams

  /** What a blocked client gets back. */
  function BlockResponse(zeroAddress: bool, buf: seq<byte>, n: nat, q: Question): seq<byte>
    requires n <= |buf| == MAX_MSG_LEN && HEADER_LEN <= q.end <= n && q.qtype < M16
  {
    var zero := ZeroAnswer(buf, q.end, MAX_MSG_LEN, q.qtype);
    if zeroAddress && zero.Some? then zero.value else ErrorResponse(buf[..n], NXDOMAIN)
  }

  /** The reply a blocked client must get: the zero address for an address query if that is the
      policy, else NXDOMAIN. */
  ghost predicate IsBlockReply(zeroAddress: bool, r: seq<byte>, m: seq<byte>, q: Question) {
    if zeroAddress && (q.qtype == 1 || q.qtype == 28) then IsZeroReply(r, m, q)
    else IsErrorReply(r, m, 3) && Parse(r) == Some(q)
  }

  lemma BlockResponseIsRight(zeroAddress: bool, buf: seq<byte>, n: nat, q: Question)
    requires n <= |buf| == 512 && Parse(buf[..n]) == Some(q)
    ensures HEADER_LEN <= q.end <= n && q.qtype < M16
    ensures IsBlockReply(zeroAddress, BlockResponse(zeroAddress, buf, n, q), buf[..n], q)
  {
    QuestionEndBound(buf[..n]);
    ErrorResponseIsReply(buf[..n], NXDOMAIN);
    ErrorResponseKeepsQuestion(buf[..n], NXDOMAIN);
    if q.qtype == 1 || q.qtype == 28 {
      ZeroAnswerIsCorrect(buf, n, q);
    } else {
      NoZeroAnswer(buf, q);
    }
  }

  predicate IsBlocked(s: State, buf: seq<byte>, n: int)
    requires Received(buf, n) && n > 0
  {
    Parse(buf[..n]).Some? && Blocks(s.decider, CStr(Parse(buf[..n]).value.qname))
  }

  function BlockStep(s: State, sock: int, client: SockAddr, buf: seq<byte>, n: nat, hour: nat, env: LogEnv): Step
    requires Received(buf, n) && n > 0 && Parse(buf[..n]).Some?
  {
    var q := Parse(buf[..n]);
    QuestionEndBound(buf[..n]);
    Step(s.(stats := s.stats.(blocked := Inc(s.stats.blocked)),
            blockedHours := s.blockedHours + [hour],
            log := Logged(s.log, env, client, q, Outcome.Blocked)),
         [ToClient(sock, client, BlockResponse(s.decider.zeroAddress, buf, n, q.value))])
  }

  function RefuseStep(s: State, sock: int, client: SockAddr, buf: seq<byte>, n: nat, env: LogEnv): Step
    requires Received(buf, n) && n > 0
  {
    Step(s.(stats := s.stats.(servfail := Inc(s.stats.servfail)),
            log := Logged(s.log, env, client, Parse(buf[..n]), ServFail)),
         [ToClient(sock, client, ErrorResponse(buf[..n], SERVFAIL))])
  }

  /** The slot after a query was stored in it under the slot's own number. */
  function Occupied(p: Slot, slot: nat, sock: int, client: SockAddr, buf: seq<byte>, n: nat, now: int): (r: Slot)
    requires Received(buf, n) && SlotOk(p) && slot < M16
    ensures SlotOk(r) && r.inUse
  {
    Slot(true, sock, client, U16(buf[0], buf[1]), now, n, SetTxid(buf[..n] + p.queryBuf[n..], slot))
  }

  function ForwardStep(s: State, slot: nat, sock: int, client: SockAddr, buf: seq<byte>, n: nat,
                       now: int, sendOk: bool, env: LogEnv): Step
    requires Received(buf, n) && n > 0 && StateOk(s) && slot < |s.pending|
  {
    var p := Occupied(s.pending[slot], slot, sock, client, buf, n, now);
    Step(s.(pending := s.pending[slot := p],
            stats := s.stats.(forwarded := Inc(s.stats.forwarded)),
            log := Logged(s.log, env, client, Parse(buf[..n]), Forwarded)),
         if sendOk && s.upstreamSock >= 0 then [ToUpstream(s.upstreamSock, p.queryBuf[..n])] else [])
  }

  /** A query that is not blocked: into the first free slot, or refused if there is none. */
  function DispatchStep(s: State, sock: int, client: SockAddr, buf: seq<byte>, n: nat,
                        now: int, sendOk: bool, env: LogEnv): Step
    requires Received(buf, n) && n > 0 && StateOk(s)
  {
    var slot := FirstFree(s.pending);
    if slot == |s.pending| then RefuseStep(s, sock, client, buf, n, env)
    else ForwardStep(s, slot, sock, client, buf, n, now, sendOk, env)
  }

  /** What happens to a datagram once it has been counted. */
  function ServeStep(s: State, sock: int, client: SockAddr, buf: seq<byte>, n: nat,
                     now: int, hour: nat, sendOk: bool, env: LogEnv): Step
    requires Received(buf, n) && n > 0 && StateOk(s)
  {
    if IsBlocked(s, buf, n) then BlockStep(s, sock, client, buf, n, hour, env)
    else DispatchStep(s, sock, client, buf, n, now, sendOk, env)
  }

  function CountReceived(s: State): State {
    s.(stats := s.stats.(total := Inc(s.stats.total)))
  }

  /** handle_client_datagram */
  function ClientStep(s: State, sock: int, client: SockAddr, buf: seq<byte>, n: int,
                      now: int, hour: nat, sendOk: bool, env: LogEnv): Step
    requires Received(buf, n) && StateOk(s)
  {
    if n <= 0 then Step(s, [])
    else ServeStep(CountReceived(s), sock, client, buf, n, now, hour, sendOk, env)
  }

  // ----------------------------------------------------- upstream datagrams

  /** Does an upstream datagram name an occupied slot? */
  predicate Matches(s: State, buf: seq<byte>, n: int)
    requires Received(buf, n)
  {
    n > 0 && U16(buf[0], buf[1]) < |s.pending| && s.pending[U16(buf[0], buf[1])].inUse
  }

  /** handle_upstream_datagram */
  function UpstreamStep(s: State, buf: seq<byte>, n: int): Step
    requires Received(buf, n) && StateOk(s)
  {
    if !Matches(s, buf, n) then Step(s, [])
    else
      var slot := U16(buf[0], buf[1]);
      var p := s.pending[slot];
      Step(s.(pending := s.pending[slot := p.(inUse := false)], consecutiveTimeouts := 0),
           [ToClient(p.replySock, p.client, SetTxid(buf, p.clientTxid)[..n])])
  }

  // ------------------------------------------------------------ the sweep

  /** connect_upstream_socket: the old socket is closed whatever happens next. */
  function Reconnect(s: State, connectOk: bool): State {
    s.(upstreamSock := if connectOk then s.connects else -1, connects := s.connects + 1,
       peer := if connectOk then s.upstreamIndex else s.peer)
  }

  function FailOver(s: State, connectOk: bool): State {
    Reconnect(s.(upstreamIndex := if s.upstreamIndex == 0 then 1 else 0, consecutiveTimeouts := 0), connectOk)
  }

  predicate Expired(c: Config, p: Slot, now: int) {
    p.inUse && now - p.sentAt >= c.timeoutUs
  }

  /** The stored query turned into the SERVFAIL its client gets. */
  function TimeoutResponse(p: Slot): seq<byte>
    requires SlotOk(p)
  {
    ErrorResponse(SetTxid(p.queryBuf, p.clientTxid)[..p.queryLen], SERVFAIL)
  }

  /** The slot afterwards: free, with the response left in its buffer. */
  function Released(p: Slot): Slot
    requires SlotOk(p)
  {
    p.(inUse := false, queryBuf := TimeoutResponse(p) + SetTxid(p.queryBuf, p.clientTxid)[p.queryLen..])
  }

  function CountTimeout(c: Config, s: State, connectOk: bool): State {
    var t := s.consecutiveTimeouts + 1;
    if t >= c.failThreshold then FailOver(s, connectOk) else s.(consecutiveTimeouts := t)
  }

  datatype SlotEnv = SlotEnv(log: LogEnv, connectOk: bool)

  /** One iteration of sweep_timeouts. */
  function SweepSlot(c: Config, s: State, i: nat, now: int, env: SlotEnv): (r: Step)
    requires StateOk(s) && i < |s.pending|
    ensures StateOk(r.state) && |r.state.pending| == |s.pending|
  {
    var p := s.pending[i];
    if !Expired(c, p, now) then Step(s, [])
    else
      var response := TimeoutResponse(p);
      var freed := s.(pending := s.pending[i := Released(p)],
                      stats := s.stats.(servfail := Inc(s.stats.servfail)),
                      log := Logged(s.log, env.log, p.client, Parse(response), ServFail));
      Step(CountTimeout(c, freed, env.connectOk), [ToClient(p.replySock, p.client, response)])
  }

  /** The first i iterations. */
  function SweepUpTo(c: Config, s: State, i: nat, now: int, envs: seq<SlotEnv>): (r: Step)
    requires StateOk(s) && i <= |s.pending| == |envs|
    ensures StateOk(r.state) && |r.state.pending| == |s.pending|
  {
    if i == 0 then Step(s, [])
    else
      var before := SweepUpTo(c, s, i - 1, now, envs);
      var last := SweepSlot(c, before.state, i - 1, now, envs[i - 1]);
      Step(last.state, before.sent + last.sent)
  }

  /** sweep_timeouts */
  function Sweep(c: Config, s: State, now: int, envs: seq<SlotEnv>): Step
    requires StateOk(s) && |s.pending| == |envs|
  {
    SweepUpTo(c, s, |s.pending|, now, envs)
  }

  /** dns_proxy_apply_upstream_config */
  function ApplyUpstreamConfig(s: State, connectOk: bool): State {
    Reconnect(s.(upstreamIndex := 0, consecutiveTimeouts := 0), connectOk)
  }

  // ------------------------------------------------------- laws of one step

  /** After a stored query's id is restored its bytes are the client's own again. */
  lemma StoredQueryRestored(p: Slot, slot: nat, sock: int, client: SockAddr, buf: seq<byte>, n: nat, now: int)
    requires Received(buf, n) && n > 0 && SlotOk(p) && slot < M16
    ensures var r := Occupied(p, slot, sock, client, buf, n, now);
            SetTxid(r.queryBuf, r.clientTxid)[..n] == buf[..n]
  {
    var r := Occupied(p, slot, sock, client, buf, n, now);
    var back := SetTxid(r.queryBuf, r.clientTxid);
    assert back[0] == buf[0] && (n > 1 ==> back[1] == buf[1]);
    assert forall i :: 2 <= i < n ==> back[i] == back[2..][i - 2] == r.queryBuf[2..][i - 2] == buf[i];
  }

  /** Timeout replies are faithful: byte for byte the error response to the datagram the
      client sent, and read for the log as the question that datagram asked. */
  lemma TimeoutResponseIsFaithful(p: Slot, slot: nat, sock: int, client: SockAddr, buf: seq<byte>, n: nat, now: int)
    requires Received(buf, n) && n > 0 && SlotOk(p) && slot < M16
    ensures var r := Occupied(p, slot, sock, client, buf, n, now);
            && TimeoutResponse(r) == ErrorResponse(buf[..n], SERVFAIL)
            && IsErrorReply(TimeoutResponse(r), buf[..n], 2)
            && Parse(TimeoutResponse(r)) == Parse(buf[..n])
  {
    StoredQueryRestored(p, slot, sock, client, buf, n, now);
    ErrorResponseKeepsQuestion(buf[..n], SERVFAIL);
    ErrorResponseIsReply(buf[..n], SERVFAIL);
  }

  /** What goes upstream: never a blocked query; otherwise the client's own datagram, with
      only its id replaced by the number of a slot that was free, so that no two queries
      in flight ever share an id. */
  lemma UpstreamSeesTheQuery(s: State, sock: int, client: SockAddr, buf: seq<byte>, n: int,
                             now: int, hour: nat, sendOk: bool, env: LogEnv, packet: Packet)
    requires Received(buf, n) && StateOk(s)
    requires packet in ClientStep(s, sock, client, buf, n, now, hour, sendOk, env).sent && packet.ToUpstream?
    ensures n > 0 && !IsBlocked(s, buf, n)
    ensures |packet.bytes| == n && (n > 2 ==> packet.bytes[2..] == buf[2..n])
    ensures var r, slot := ClientStep(s, sock, client, buf, n, now, hour, sendOk, env).state, FirstFree(s.pending);
            && slot < |s.pending| && !s.pending[slot].inUse && r.pending[slot].inUse
            && (forall i :: 0 <= i < |s.pending| && i != slot ==> r.pending[i] == s.pending[i])
            && (n >= 2 ==> U16(packet.bytes[0], packet.bytes[1]) == slot)
  {
    var slot := FirstFree(s.pending);
    var p := Occupied(s.pending[slot], slot, sock, client, buf, n, now);
    assert packet.bytes == p.queryBuf[..n];
    if n > 2 {
      assert p.queryBuf[2..] == (buf[..n] + s.pending[slot].queryBuf[n..])[2..];
      assert packet.bytes[2..] == p.queryBuf[2..][..n - 2];
    }
  }

  /** How many of the first i slots a sweep at `now` would expire. */
  function ExpiredBelow(c: Config, s: State, i: nat, now: int): nat
    requires i <= |s.pending|
  {
    if i == 0 then 0 else ExpiredBelow(c, s, i - 1, now) + if Expired(c, s.pending[i - 1], now) then 1 else 0
  }

  function Swept(c: Config, p: Slot, now: int): Slot
    requires SlotOk(p)
  {
    if Expired(c, p, now) then Released(p) else p
  }

  /** The first i slots swept, the others as they were. */
  function SweptBelow(c: Config, pending: seq<Slot>, i: nat, now: int): (r: seq<Slot>)
    requires i <= |pending| && forall j :: 0 <= j < |pending| ==> SlotOk(pending[j])
    ensures |r| == |pending|
    ensures forall j :: 0 <= j < |pending| ==> r[j] == if j < i then Swept(c, pending[j], now) else pending[j]
  {
    seq(|pending|, j requires 0 <= j < |pending| => if j < i then Swept(c, pending[j], now) else pending[j])
  }

  lemma SweptOneMore(c: Config, pending: seq<Slot>, i: nat, now: int)
    requires i < |pending| && forall j :: 0 <= j < |pending| ==> SlotOk(pending[j])
    ensures SweptBelow(c, pending, i + 1, now) == SweptBelow(c, pending, i, now)[i := Swept(c, pending[i], now)]
  {
  }

  /** The sweep frees the expired slots it has reached and touches nothing else. */
  lemma {:induction false} SweepTouchesOnlyExpired(c: Config, s: State, i: nat, now: int, envs: seq<SlotEnv>)
    requires StateOk(s) && i <= |s.pending| == |envs|
    ensures SweepUpTo(c, s, i, now, envs).state.pending == SweptBelow(c, s.pending, i, now)
  {
    if i > 0 {
      SweepTouchesOnlyExpired(c, s, i - 1, now, envs);
      SweptNext(c, s, SweepUpTo(c, s, i - 1, now, envs).state, i - 1, now, envs[i - 1]);
    }
  }

  lemma SweptNext(c: Config, s: State, before: State, i: nat, now: int, env: SlotEnv)
    requires StateOk(s) && StateOk(before) && i < |s.pending|
    requires before.pending == SweptBelow(c, s.pending, i, now)
    ensures SweepSlot(c, before, i, now, env).state.pending == SweptBelow(c, s.pending, i + 1, now)
  {
    SlotTouchesItself(c, before, i, now, env);
    SweptOneMore(c, s.pending, i, now);
  }

  lemma SlotTouchesItself(c: Config, s: State, i: nat, now: int, env: SlotEnv)
    requires StateOk(s) && i < |s.pending|
    ensures SweepSlot(c, s, i, now, env).state.pending == s.pending[i := Swept(c, s.pending[i], now)]
  {
  }

  /** What the timeouts act on: the counter, the upstream in use, the connects made. */
  datatype Upstreams = Upstreams(counter: nat, index: nat, connects: nat)

  function UpstreamsOf(s: State): Upstreams {
    Upstreams(s.consecutiveTimeouts, s.upstreamIndex, s.connects)
  }

  function OneTimeout(T: nat, u: Upstreams): Upstreams {
    if u.counter + 1 >= T then Upstreams(0, if u.index == 0 then 1 else 0, u.connects + 1)
    else Upstreams(u.counter + 1, u.index, u.connects)
  }

  /** ... after k more timeouts. */
  function AfterTimeouts(T: nat, u: Upstreams, k: nat): Upstreams {
    if k == 0 then u else OneTimeout(T, AfterTimeouts(T, u, k - 1))
  }

  function Flip(index: nat, times: nat): nat {
    if times % 2 == 0 then index else if index == 0 then 1 else 0
  }

  lemma {:induction false} TimeoutArithmetic(T: nat, u: Upstreams, k: nat)
    requires u.counter < T && u.index <= 1
    ensures AfterTimeouts(T, u, k) ==
            Upstreams((u.counter + k) % T, Flip(u.index, (u.counter + k) / T), u.connects + (u.counter + k) / T)
  {
    if k == 0 {
      DivModUnique(u.counter, T, 0, u.counter);
    } else {
      TimeoutArithmetic(T, u, k - 1);
      NextMultiple(u.counter + k - 1, T);
    }
  }

  /** What every expiry in a sweep keeps, the sweep keeps, counted by its expiries. */
  lemma {:induction false} CountedSweep(c: Config, s: State, i: nat, now: int, envs: seq<SlotEnv>, P: (State,
                                        nat) -> bool)
    requires StateOk(s) && i <= |s.pending| == |envs| && P(s, 0)
    requires forall r: State, k: nat, j: nat, env: SlotEnv, n: nat
               {:trigger P(r, k), P(SweepSlot(c, r, j, now, env).state, n)} ::
               StateOk(r) && j < |r.pending| && Expired(c, r.pending[j], now) && P(r, k) && n == k + 1 ==>
                 P(SweepSlot(c, r, j, now, env).state, n)
    ensures P(SweepUpTo(c, s, i, now, envs).state, ExpiredBelow(c, s, i, now))
  {
    if i > 0 {
      CountedSweep(c, s, i - 1, now, envs, P);
      CountedSlot(c, SweepUpTo(c, s, i - 1, now, envs).state, ExpiredBelow(c, s, i - 1, now),
                  i - 1, now, envs[i - 1], P);
      CountedNext(c, s, i, now, envs, P);
    }
  }

  lemma CountedSlot(c: Config, s: State, k: nat, i: nat, now: int, env: SlotEnv, P: (State, nat) -> bool)
    requires StateOk(s) && i < |s.pending| && P(s, k)
    requires Expired(c, s.pending[i], now) ==> P(SweepSlot(c, s, i, now, env).state, k + 1)
    ensures P(SweepSlot(c, s, i, now, env).state, if Expired(c, s.pending[i], now) then k + 1 else k)
  {
  }

  lemma CountedNext(c: Config, s: State, i: nat, now: int, envs: seq<SlotEnv>, P: (State, nat) -> bool)
    requires StateOk(s) && 0 < i <= |s.pending| == |envs|
    requires var before, k := SweepUpTo(c, s, i - 1, now, envs).state, ExpiredBelow(c, s, i - 1, now);
             P(SweepSlot(c, before, i - 1, now, envs[i - 1]).state,
               if Expired(c, before.pending[i - 1], now) then k + 1 else k)
    ensures P(SweepUpTo(c, s, i, now, envs).state, ExpiredBelow(c, s, i, now))
  {
    NextSlot(c, s, i, now, envs);
  }

  lemma NextSlot(c: Config, s: State, i: nat, now: int, envs: seq<SlotEnv>)
    requires StateOk(s) && 0 < i <= |s.pending| == |envs|
    ensures var before := SweepUpTo(c, s, i - 1, now, envs).state;
            && SweepUpTo(c, s, i, now, envs).state == SweepSlot(c, before, i - 1, now, envs[i - 1]).state
            && ExpiredBelow(c, s, i, now) ==
               if Expired(c, before.pending[i - 1], now) then ExpiredBelow(c, s, i - 1, now) + 1
               else ExpiredBelow(c, s, i - 1, now)
  {
    SweepTouchesOnlyExpired(c, s, i - 1, now, envs);
  }

  lemma SweepCountsTimeouts(c: Config, s: State, i: nat, now: int, envs: seq<SlotEnv>)
    requires StateOk(s) && i <= |s.pending| == |envs|
    ensures UpstreamsOf(SweepUpTo(c, s, i, now, envs).state) ==
            AfterTimeouts(c.failThreshold, UpstreamsOf(s), ExpiredBelow(c, s, i, now))
  {
    var T, u := c.failThreshold, UpstreamsOf(s);
    var P := (r: State, k: nat) => UpstreamsOf(r) == AfterTimeouts(T, u, k);
    forall r: State, k: nat, j: nat, env: SlotEnv, n: nat
      | StateOk(r) && j < |r.pending| && Expired(c, r.pending[j], now) && P(r, k) && n == k + 1
      ensures P(SweepSlot(c, r, j, now, env).state, n)
    {
      ExpiryCountsTimeout(c, u, r, j, now, env, k);
    }
    CountedSweep(c, s, i, now, envs, P);
  }

  lemma ExpiryCountsTimeout(c: Config, u: Upstreams, s: State, i: nat, now: int, env: SlotEnv, k: nat)
    requires StateOk(s) && i < |s.pending| && Expired(c, s.pending[i], now)
    requires UpstreamsOf(s) == AfterTimeouts(c.failThreshold, u, k)
    ensures UpstreamsOf(SweepSlot(c, s, i, now, env).state) == AfterTimeouts(c.failThreshold, u, k + 1)
  {
  }

  /** A sweep that expires k slots leaves the counter at (c + k) mod T, and has flipped the
      upstream and reconnected (c + k) div T times. */
  lemma SweepFailoverArithmetic(c: Config, s: State, now: int, envs: seq<SlotEnv>)
    requires StateOk(s) && |s.pending| == |envs|
    requires s.upstreamIndex <= 1 && s.consecutiveTimeouts < c.failThreshold
    ensures var r, k := Sweep(c, s, now, envs).state, s.consecutiveTimeouts + ExpiredBelow(c, s, |s.pending|, now);
            && r.consecutiveTimeouts == k % c.failThreshold
            && r.upstreamIndex == Flip(s.upstreamIndex, k / c.failThreshold)
            && r.connects == s.connects + k / c.failThreshold
  {
    SweepCountsTimeouts(c, s, |s.pending|, now, envs);
    TimeoutArithmetic(c.failThreshold, UpstreamsOf(s), ExpiredBelow(c, s, |s.pending|, now));
  }

  lemma NextMultiple(k: nat, T: nat)
    requires T > 0
    ensures k % T + 1 < T ==> (k + 1) % T == k % T + 1 && (k + 1) / T == k / T
    ensures k % T + 1 >= T ==> (k + 1) % T == 0 && (k + 1) / T == k / T + 1
  {
    var q, r := k / T, k % T;
    if r + 1 < T {
      assert k + 1 == q * T + (r + 1);
      DivModUnique(k + 1, T, q, r + 1);
    } else {
      assert k + 1 == (q + 1) * T + 0;
      DivModUnique(k + 1, T, q + 1, 0);
    }
  }

  /** After a sweep nothing that is still pending is old enough to have been expired. */
  lemma SweepLeavesNothingExpired(c: Config, s: State, now: int, envs: seq<SlotEnv>)
    requires StateOk(s) && |s.pending| == |envs|
    ensures forall j :: 0 <= j < |s.pending| ==> !Expired(c, Sweep(c, s, now, envs).state.pending[j], now)
  {
    SweepTouchesOnlyExpired(c, s, |s.pending|, now, envs);
  }
}
