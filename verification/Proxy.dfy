/** The proxy task of components/dns_proxy/dns_proxy.c with its tables updated in place.
    Every method is proved to take exactly the step of ProxyState. */
module Proxy {
  import opened Words
  import opened Options
  import opened CStrings
  import opened DnsWire
  import opened DnsResponse
  import opened Decision
  import opened QueryLog
  import opened ProxyState
  import opened Blocker
  import opened RollingWindow
  import BloomFilter

  class Proxy {
    const config: Config
    const pending: array<Slot>
    var upstreamIndex: nat
    var consecutiveTimeouts: nat
    var upstreamSock: int
    var connects: nat
    var peer: nat
    var total: nat
    var blocked: nat
    var forwarded: nat
    var servfail: nat
    const window: Window
    const log: Log
    const blocker: Blocker
    const wire: Wire

    ghost predicate Valid()
      reads this, pending, window, window.counts, window.hours, log, log.entries, blocker, blocker.Repr()
    {
      && window.Valid() && log.Valid() && blocker.Valid()
      && window.counts !in blocker.Repr() && window.hours !in blocker.Repr() && wire !in blocker.Repr()
      && StateOk(Abs())
    }

    ghost function Abs(): State
      reads this, pending, window, log, blocker, blocker.Repr()
      requires blocker.Valid()
    {
      State(pending[..], upstreamIndex, consecutiveTimeouts, upstreamSock, connects, peer,
            Stats(total, blocked, forwarded, servfail), window.events, log.history, blocker.Dec())
    }

    /** Writing to other memory changes nothing here. */
    twostate lemma Untouched()
      requires old(Valid())
      requires unchanged(this, pending, window, window.counts, window.hours, log, log.entries)
      requires forall o: object :: o in old(blocker.Repr()) ==> unchanged(o)
      ensures Valid() && Abs() == old(Abs())
    {
      assert blocker.Valid() && blocker.Dec() == old(blocker.Dec());
      assert window.Valid() && log.Valid();
      assert Abs() == old(Abs());
    }

    constructor (config: Config, maxPending: nat, logSize: nat, blocker: Blocker)
      requires 0 < maxPending <= M16 && logSize >= 1 && blocker.Valid()
      ensures Valid() && Abs() == InitialState(maxPending, blocker.Dec()) && wire.sent == []
      ensures this.config == config && this.blocker == blocker
    {
      this.config, this.blocker := config, blocker;
      pending := new Slot[maxPending](_ => EmptySlot());
      upstreamIndex, consecutiveTimeouts, upstreamSock, connects, peer := 0, 0, -1, 0, 0;
      total, blocked, forwarded, servfail := 0, 0, 0, 0;
      window := new Window();
      log := new Log(logSize);
      wire := new Wire();
      new;
      assert pending[..] == seq(maxPending, _ => EmptySlot());
    }

    /** dns_proxy_start: the filter and the allowlist are loaded even if a socket then fails. */
    method Start(mutexOk: bool, mapped: Option<seq<byte>>, seed: seq<byte>, sizeMod: nat,
                 found: bool, setting: seq<byte>, bufferMem: bool, entriesMem: bool,
                 listenOk: bool, connectOk: bool, taskOk: bool)
      returns (ok: bool)
      requires Valid() && BloomFilter.SizeType(sizeMod)
      requires found ==> |setting| == 2048 && NUL in setting
      modifies this, blocker, blocker.allow
      ensures Valid() && ok == (mutexOk && listenOk && connectOk && taskOk)
      ensures var zeroed := old(Abs()).(stats := Stats(0, 0, 0, 0));
              var loaded := zeroed.(decider := zeroed.decider.(
                filter := LoadedFilter(mapped, seed, sizeMod),
                allowed := LoadedAllowlist(found, setting, bufferMem, entriesMem)));
              Abs() == if !mutexOk then zeroed else if !listenOk then loaded else Reconnect(loaded, connectOk)
    {
      total, blocked, forwarded, servfail := 0, 0, 0, 0;
      if !mutexOk {
        return false;
      }
      LoadDecider(mapped, seed, sizeMod, found, setting, bufferMem, entriesMem);
      if !listenOk {
        return false;
      }
      ConnectUpstreamSocket(connectOk);
      return connectOk && taskOk;
    }

    method LoadDecider(mapped: Option<seq<byte>>, seed: seq<byte>, sizeMod: nat,
                       found: bool, setting: seq<byte>, bufferMem: bool, entriesMem: bool)
      requires Valid() && BloomFilter.SizeType(sizeMod)
      requires found ==> |setting| == 2048 && NUL in setting
      modifies blocker, blocker.allow
      ensures Valid()
      ensures Abs() == old(Abs()).(decider := old(Abs()).decider.(
                         filter := LoadedFilter(mapped, seed, sizeMod),
                         allowed := LoadedAllowlist(found, setting, bufferMem, entriesMem)))
    {
      blocker.ReloadBloomFilter(mapped, seed, sizeMod);
      blocker.ReloadAllowlist(found, setting, bufferMem, entriesMem);
    }

    method FindFreeSlot() returns (slot: int)
      ensures slot == if FirstFree(pending[..]) == pending.Length then -1 else FirstFree(pending[..])
    {
      for i := 0 to pending.Length
        invariant forall j :: 0 <= j < i ==> pending[j].inUse
      {
        if !pending[i].inUse {
          return i;
        }
      }
      return -1;
    }

    method ConnectUpstreamSocket(connectOk: bool)
      requires Valid()
      modifies this`upstreamSock, this`connects, this`peer
      ensures Valid() && Abs() == Reconnect(old(Abs()), connectOk)
      ensures (upstreamSock >= 0 <==> connectOk) && (connectOk ==> peer == upstreamIndex)
    {
      if upstreamSock >= 0 {
        upstreamSock := -1;  // close
      }
      if connectOk {
        upstreamSock := connects;
        peer := upstreamIndex;
      }
      connects := connects + 1;
    }

    method FailOverUpstream(connectOk: bool)
      requires Valid()
      modifies this`upstreamIndex, this`consecutiveTimeouts, this`upstreamSock, this`connects, this`peer
      ensures Valid() && Abs() == FailOver(old(Abs()), connectOk)
    {
      upstreamIndex := if upstreamIndex == 0 then 1 else 0;
      consecutiveTimeouts := 0;
      ConnectUpstreamSocket(connectOk);
    }

    method ApplyUpstreamConfigNow(connectOk: bool)
      requires Valid()
      modifies this`upstreamIndex, this`consecutiveTimeouts, this`upstreamSock, this`connects, this`peer
      ensures Valid() && Abs() == ApplyUpstreamConfig(old(Abs()), connectOk)
    {
      upstreamIndex := 0;
      consecutiveTimeouts := 0;
      ConnectUpstreamSocket(connectOk);
    }

    /** The abstract state moved by exactly this step, and the step's datagrams were sent. */
    ghost predicate Took(before: State, sentBefore: seq<Packet>, step: Step)
      reads this, pending, wire, window, window.counts, window.hours, log, log.entries, blocker, blocker.Repr()
    {
      Valid() && Abs() == step.state && wire.sent == sentBefore + step.sent
    }

    // ----------------------------------------------------- client datagrams

    /** Statistics, rolling window and log of a query answered from the block list. */
    method CountBlocked(sock: int, client: SockAddr, ghost rx: seq<byte>, ghost n: nat, q: QuestionBuf,
                        hour: nat, env: LogEnv)
      requires Valid() && Received(rx, n) && n > 0 && Parse(rx[..n]).Some?
      requires q.Holds(Parse(rx[..n]).value)
      requires forall e :: e in window.events ==> e <= hour
      modifies this`blocked, window, window.counts, window.hours, log, log.entries
      ensures Valid() && Abs() == BlockStep(old(Abs()), sock, client, rx, n, hour, env).state
    {
      CountBlock();
      RecordBlock(hour);
      LogParsed(client, true, q, Parse(rx[..n]), env, Outcome.Blocked);
    }

    method RecordBlock(hour: nat)
      requires Valid() && forall e :: e in window.events ==> e <= hour
      modifies window, window.counts, window.hours
      ensures Valid() && Abs() == old(Abs()).(blockedHours := old(Abs()).blockedHours + [hour])
    {
      window.Record(hour);
    }

    method LogParsed(client: SockAddr, have: bool, q: QuestionBuf, ghost question: Option<Question>,
                     env: LogEnv, result: Outcome)
      requires Valid() && have == question.Some? && (have ==> q.Holds(question.value))
      modifies log, log.entries
      ensures Valid() && Abs() == old(Abs()).(log := Logged(old(Abs()).log, env, client, question, result))
    {
      if have {
        NameInBuffer(q.qname[..], question.value.qname);
        log.LogQuery(env.taken, env.timeUs, client, q.qname[..], q.qtype, result);
      }
    }

    /** The table is full: SERVFAIL at once. */
    method Refuse(sock: int, client: SockAddr, buf: array<byte>, n: nat, have: bool, q: QuestionBuf, env: LogEnv)
      requires Valid() && Received(buf[..], n) && n > 0 && buf !in blocker.Repr()
      requires have == Parse(buf[..n]).Some? && (have ==> q.Holds(Parse(buf[..n]).value)) && buf != q.qname
      modifies buf, wire, this`servfail, log, log.entries
      ensures Took(old(Abs()), old(wire.sent), RefuseStep(old(Abs()), sock, client, old(buf[..]), n, env))
    {
      ghost var question := Parse(buf[..n]);
      assert buf[..n] == buf[..][..n];
      MakeErrorResponse(buf, n, SERVFAIL);
      wire.Send(ToClient(sock, client, buf[..n]));
      Untouched();
      CountServfail();
      LogParsed(client, have, q, question, env, ServFail);
    }

    /** Stores the query in a free slot under the slot's number and sends it upstream. */
    method Forward(slot: nat, sock: int, client: SockAddr, buf: array<byte>, n: nat, have: bool, q: QuestionBuf,
                   now: int, sendOk: bool, env: LogEnv)
      requires Valid() && Received(buf[..], n) && n > 0 && slot < pending.Length
      requires have == Parse(buf[..n]).Some? && (have ==> q.Holds(Parse(buf[..n]).value))
      modifies wire, pending, this`forwarded, log, log.entries
      ensures Took(old(Abs()), old(wire.sent),
                   ForwardStep(old(Abs()), slot, sock, client, buf[..], n, now, sendOk, env))
    {
      var p := StoreQuery(pending[slot], slot, sock, client, buf, n, now);
      SendUpstream(p, n, sendOk);
      SetSlot(slot, p);
      CountForwarded();
      assert buf[..n] == buf[..][..n];
      LogParsed(client, have, q, Parse(buf[..n]), env, Forwarded);
    }

    method SendUpstream(p: Slot, n: nat, sendOk: bool)
      requires Valid() && n <= |p.queryBuf|
      modifies wire
      ensures Valid() && Abs() == old(Abs())
      ensures wire.sent == old(wire.sent) +
                           if sendOk && upstreamSock >= 0 then [ToUpstream(upstreamSock, p.queryBuf[..n])] else []
    {
      if sendOk && upstreamSock >= 0 {
        wire.Send(ToUpstream(upstreamSock, p.queryBuf[..n]));
      }
      Untouched();
    }

    method StoreQuery(p: Slot, slot: nat, sock: int, client: SockAddr, buf: array<byte>, n: nat,
                      now: int) returns (r: Slot)
      requires Received(buf[..], n) && SlotOk(p) && slot < M16
      ensures r == Occupied(p, slot, sock, client, buf[..], n, now)
    {
      assert buf[..n] == buf[..][..n];
      var clientTxid := GetTxid(buf);
      var stored := buf[..n] + p.queryBuf[n..];
      stored := stored[0 := slot / 256][1 := slot % 256];
      r := Slot(true, sock, client, clientTxid, now, n, stored);
    }

    method CountDatagram()
      requires Valid()
      modifies this`total
      ensures Valid() && Abs() == CountReceived(old(Abs()))
    {
      total := Inc(total);
    }

    method CountForwarded()
      requires Valid()
      modifies this`forwarded
      ensures Valid() && Abs() == old(Abs()).(stats := old(Abs()).stats.(forwarded := Inc(old(Abs()).stats.forwarded)))
    {
      forwarded := Inc(forwarded);
    }

    method CountBlock()
      requires Valid()
      modifies this`blocked
      ensures Valid() && Abs() == old(Abs()).(stats := old(Abs()).stats.(blocked := Inc(old(Abs()).stats.blocked)))
    {
      blocked := Inc(blocked);
    }

    method CountServfail()
      requires Valid()
      modifies this`servfail
      ensures Valid() && Abs() == old(Abs()).(stats := old(Abs()).stats.(servfail := Inc(old(Abs()).stats.servfail)))
    {
      servfail := Inc(servfail);
    }

    method SetSlot(i: nat, p: Slot)
      requires Valid() && i < pending.Length && SlotOk(p)
      modifies pending
      ensures Valid() && Abs() == old(Abs()).(pending := old(Abs()).pending[i := p])
    {
      pending[i] := p;
    }

    /** A query that is not blocked: into a slot if one is free, else refused. */
    method Dispatch(sock: int, client: SockAddr, buf: array<byte>, n: nat, have: bool, q: QuestionBuf,
                    now: int, sendOk: bool, env: LogEnv)
      requires Valid() && Received(buf[..], n) && n > 0 && buf !in blocker.Repr()
      requires have == Parse(buf[..n]).Some? && (have ==> q.Holds(Parse(buf[..n]).value)) && buf != q.qname
      modifies buf, wire, pending, this`servfail, this`forwarded, log, log.entries
      ensures Took(old(Abs()), old(wire.sent),
                   DispatchStep(old(Abs()), sock, client, old(buf[..]), n, now, sendOk, env))
    {
      var slot := FindFreeSlot();
      if slot < 0 {
        Refuse(sock, client, buf, n, have, q, env);
      } else {
        Forward(slot, sock, client, buf, n, have, q, now, sendOk, env);
      }
    }

    /** Everything after the datagram has been counted. */
    method Serve(sock: int, client: SockAddr, buf: array<byte>, n: nat, now: int, hour: nat, sendOk: bool, env: LogEnv)
      requires Valid() && blocker.Probeable() && Received(buf[..], n) && n > 0 && buf !in blocker.Repr()
      requires forall e :: e in window.events ==> e <= hour
      modifies this, buf, pending, wire, window, window.counts, window.hours, log, log.entries
      ensures IsBlocked(old(Abs()), old(buf[..]), n) ==>
                Took(old(Abs()), old(wire.sent), BlockStep(old(Abs()), sock, client, old(buf[..]), n, hour, env))
      ensures !IsBlocked(old(Abs()), old(buf[..]), n) ==>
                Took(old(Abs()), old(wire.sent),
                     DispatchStep(old(Abs()), sock, client, old(buf[..]), n, now, sendOk, env))
    {
      var hit, have, q := Screen(sock, client, buf, n, hour, env);
      if !hit {
        Dispatch(sock, client, buf, n, have, q, now, sendOk, env);
      }
    }

    /** The datagram's question in a buffer of its own. */
    method Question(buf: array<byte>, n: nat) returns (have: bool, q: QuestionBuf)
      requires Valid() && Received(buf[..], n)
      ensures Valid() && Abs() == old(Abs()) && fresh(q) && fresh(q.qname)
      ensures have == Parse(buf[..n]).Some? && (have ==> q.Holds(Parse(buf[..n]).value))
    {
      q := new QuestionBuf();
      have := ParseQuestion(buf, n, q);
      Untouched();
    }

    /** Parses the datagram and answers it here if its name is blocked. */
    method Screen(sock: int, client: SockAddr, buf: array<byte>, n: nat, hour: nat, env: LogEnv)
      returns (hit: bool, have: bool, q: QuestionBuf)
      requires Valid() && blocker.Probeable() && Received(buf[..], n) && n > 0 && buf !in blocker.Repr()
      requires forall e :: e in window.events ==> e <= hour
      modifies buf, wire, this`blocked, window, window.counts, window.hours, log, log.entries
      ensures hit == IsBlocked(old(Abs()), old(buf[..]), n)
      ensures hit ==> Took(old(Abs()), old(wire.sent), BlockStep(old(Abs()), sock, client, old(buf[..]), n, hour, env))
      ensures !hit ==> Valid() && Abs() == old(Abs()) && wire.sent == old(wire.sent) && buf[..] == old(buf[..])
      ensures fresh(q) && fresh(q.qname)
      ensures !hit ==> have == Parse(buf[..n]).Some? && (have ==> q.Holds(Parse(buf[..n]).value))
    {
      ghost var rx := buf[..];
      assert buf[..n] == rx[..n];
      hit := false;
      have, q := Question(buf, n);
      if have {
        hit := AnswerIfBlocked(sock, client, buf, n, q, hour, env);
        assert !hit ==> buf[..n] == rx[..n];
      }
    }

    method AnswerIfBlocked(sock: int, client: SockAddr, buf: array<byte>, n: nat, q: QuestionBuf, hour: nat,
                           env: LogEnv)
      returns (hit: bool)
      requires Valid() && blocker.Probeable() && Received(buf[..], n) && n > 0 && buf !in blocker.Repr()
      requires Parse(buf[..][..n]).Some? && q.Holds(Parse(buf[..][..n]).value) && buf != q.qname
      requires forall e :: e in window.events ==> e <= hour
      modifies buf, wire, this`blocked, window, window.counts, window.hours, log, log.entries
      ensures hit == IsBlocked(old(Abs()), old(buf[..]), n)
      ensures hit ==> Took(old(Abs()), old(wire.sent), BlockStep(old(Abs()), sock, client, old(buf[..]), n, hour, env))
      ensures !hit ==> Valid() && Abs() == old(Abs()) && wire.sent == old(wire.sent) && buf[..] == old(buf[..])
      ensures !hit ==> q.Holds(Parse(buf[..][..n]).value)
    {
      ghost var rx := buf[..];
      QuestionEndBound(rx[..n]);
      hit := blocker.TryBlock(sock, client, buf, n, q, Parse(rx[..n]).value, wire);
      Untouched();
      if hit {
        CountBlocked(sock, client, rx, n, q, hour, env);
      }
    }

    /** handle_client_datagram; rx is the receive buffer after recvfrom returned n. */
    method HandleClientDatagram(sock: int, client: SockAddr, rx: seq<byte>, n: int,
                                now: int, hour: nat, sendOk: bool, env: LogEnv)
      requires Valid() && blocker.Probeable() && Received(rx, n)
      requires forall e :: e in window.events ==> e <= hour
      modifies this, pending, wire, window, window.counts, window.hours, log, log.entries
      ensures Took(old(Abs()), old(wire.sent),
                   ClientStep(old(Abs()), sock, client, rx, n, now, hour, sendOk, env))
    {
      if n <= 0 {
        return;
      }
      var buf := new byte[MAX_MSG_LEN](i requires 0 <= i < |rx| => rx[i]);
      assert buf[..] == rx;
      CountDatagram();
      assert buf[..] == rx;
      Serve(sock, client, buf, n, now, hour, sendOk, env);
    }

    // --------------------------------------------------- upstream datagrams

    /** handle_upstream_datagram; rx is the receive buffer after recv returned n. */
    method HandleUpstreamDatagram(rx: seq<byte>, n: int)
      requires Valid() && Received(rx, n)
      modifies this`consecutiveTimeouts, pending, wire
      ensures Took(old(Abs()), old(wire.sent), UpstreamStep(old(Abs()), rx, n))
    {
      if n <= 0 {
        return;
      }
      var slot := U16(rx[0], rx[1]);
      if slot >= pending.Length || !pending[slot].inUse {
        return;
      }
      var p := pending[slot];
      var reply := SetTxid(rx, p.clientTxid);
      wire.Send(ToClient(p.replySock, p.client, reply[..n]));
      pending[slot] := p.(inUse := false);
      consecutiveTimeouts := 0;
    }

    // ------------------------------------------------------------- the sweep

    /** The stored query becomes the SERVFAIL its client gets, in place. */
    method ExpireQuery(p: Slot) returns (qb: array<byte>)
      requires SlotOk(p)
      ensures fresh(qb) && qb.Length == MAX_MSG_LEN
      ensures qb[..p.queryLen] == TimeoutResponse(p)
      ensures qb[p.queryLen..] == SetTxid(p.queryBuf, p.clientTxid)[p.queryLen..]
    {
      qb := new byte[MAX_MSG_LEN](i requires 0 <= i < |p.queryBuf| => p.queryBuf[i]);
      assert qb[..] == p.queryBuf;
      SetTxidInPlace(qb, p.clientTxid);
      ghost var restored := qb[..];
      assert qb[..p.queryLen] == restored[..p.queryLen] && qb[p.queryLen..] == restored[p.queryLen..];
      MakeErrorResponse(qb, p.queryLen, SERVFAIL);
    }

    /** One iteration of sweep_timeouts. */
    method SweepOne(i: nat, now: int, env: SlotEnv)
      requires Valid() && i < pending.Length
      modifies this, pending, wire, log, log.entries
      ensures Took(old(Abs()), old(wire.sent), SweepSlot(config, old(Abs()), i, now, env))
    {
      if pending[i].inUse && now - pending[i].sentAt >= config.timeoutUs {
        Release(i, env.log);
        CountServfail();
        CountTimeoutNow(env.connectOk);
      }
    }

    /** Answers the client whose query timed out, logs it and frees the slot. */
    method Release(i: nat, env: LogEnv)
      requires Valid() && i < pending.Length
      modifies pending, wire, log, log.entries
      ensures Valid() && var s, p := old(Abs()), old(pending[i]);
              && wire.sent == old(wire.sent) + [ToClient(p.replySock, p.client, TimeoutResponse(p))]
              && Abs() == s.(pending := s.pending[i := Released(p)],
                             log := Logged(s.log, env, p.client, Parse(TimeoutResponse(p)), ServFail))
    {
      var p := pending[i];
      var qb := ExpireQuery(p);
      wire.Send(ToClient(p.replySock, p.client, qb[..p.queryLen]));
      assert qb[..] == qb[..p.queryLen] + qb[p.queryLen..];
      assert Released(p) == p.(inUse := false, queryBuf := qb[..]);
      LogExpired(p, qb, env);
      SetSlot(i, p.(inUse := false, queryBuf := qb[..]));
    }

    /** The expired query is parsed once more for its log entry. */
    method LogExpired(p: Slot, qb: array<byte>, env: LogEnv)
      requires Valid() && SlotOk(p) && qb.Length == MAX_MSG_LEN && qb[..p.queryLen] == TimeoutResponse(p)
      modifies log, log.entries
      ensures Valid() && qb[..] == old(qb[..])
      ensures Abs() == old(Abs()).(log := Logged(old(Abs()).log, env, p.client, Parse(TimeoutResponse(p)), ServFail))
    {
      var have, q := Question(qb, p.queryLen);
      LogParsed(p.client, have, q, Parse(TimeoutResponse(p)), env, ServFail);
    }

    method CountTimeoutNow(connectOk: bool)
      requires Valid()
      modifies this`upstreamIndex, this`consecutiveTimeouts, this`upstreamSock, this`connects, this`peer
      ensures Valid() && Abs() == CountTimeout(config, old(Abs()), connectOk)
    {
      consecutiveTimeouts := consecutiveTimeouts + 1;
      if consecutiveTimeouts >= config.failThreshold {
        FailOverUpstream(connectOk);
      }
    }

    /** sweep_timeouts */
    method SweepTimeouts(now: int, envs: seq<SlotEnv>)
      requires Valid() && |envs| == pending.Length
      modifies this, pending, wire, log, log.entries
      ensures Took(old(Abs()), old(wire.sent), Sweep(config, old(Abs()), now, envs))
    {
      ghost var s, sent := Abs(), wire.sent;
      for i := 0 to pending.Length
        invariant Took(s, sent, SweepUpTo(config, s, i, now, envs))
      {
        SweepOne(i, now, envs[i]);
      }
    }

    /** dns_proxy_get_stats: the lifetime counters and the last 24 hours' blocks. */
    method GetStats(nowHour: nat) returns (stats: Stats, blocked24h: nat)
      requires Valid() && forall e :: e in window.events ==> e <= nowHour
      ensures stats == Abs().stats
      ensures blocked24h == CountWindow(Abs().blockedHours, nowHour) % M32
    {
      stats := Stats(total, blocked, forwarded, servfail);
      blocked24h := window.BlockedLast24h(nowHour);
    }
  }

  /** An empty table, zero counters, the first upstream, no socket. */
  function InitialState(maxPending: nat, decider: Decider): State {
    State(seq(maxPending, _ => EmptySlot()), 0, 0, -1, 0, 0, Stats(0, 0, 0, 0), [], [], decider)
  }

  function EmptySlot(): Slot {
    Slot(false, 0, V4([], 0), 0, 0, 0, Zeros(MAX_MSG_LEN))
  }
}
