/** The objects behind the blocking decision of components/dns_proxy/dns_proxy.c: the
    settings, the loaded bloom filter, the allowlist and the exact list. */
module Blocker {
  import opened Words
  import opened Options
  import opened CStrings
  import opened DnsWire
  import opened DomainList
  import opened Decision
  import opened DnsResponse
  import opened QueryLog
  import opened ProxyState
  import Allowlist
  import BloomFilter

  method LoadFilter(mapped: Option<seq<byte>>, seed: seq<byte>, sizeMod: nat)
    returns (filter: Option<BloomFilter.Filter>, fromSeed: bool)
    requires BloomFilter.SizeType(sizeMod)
    ensures filter == LoadedFilter(mapped, seed, sizeMod) && fromSeed == UsesSeed(mapped, seed, sizeMod)
  {
    if mapped.Some? {
      var r := BloomFilter.Init(mapped.value, sizeMod);
      if r.Ready? {
        return Some(r.filter), false;
      }
    }
    var r := BloomFilter.Init(seed, sizeMod);
    if r.Ready? {
      return Some(r.filter), true;
    }
    return None, false;
  }

  class Blocker {
    var enabled: bool
    var zeroAddress: bool
    var filter: Option<BloomFilter.Filter>
    var fromSeed: bool
    const allow: Allowlist.Allowlist
    const exact: List

    ghost function Repr(): set<object?>
      reads this, allow, exact
    {
      {this, allow, exact, allow.buf, allow.entries, exact.buf, exact.lines}
    }

    ghost predicate Valid()
      reads Repr()
    {
      allow.Valid() && exact.Valid()
    }

    /** What bloom_filter_test demands of the loaded filter; loading does not check it. */
    ghost predicate Probeable()
      reads this
    {
      filter.Some? ==> BloomFilter.Readable(filter.value)
    }

    ghost function Dec(): Decider
      reads Repr()
      requires Valid()
    {
      Decider(enabled, zeroAddress, filter, allow.Names(), exact.Entries())
    }

    constructor (enabled: bool, zeroAddress: bool)
      ensures Valid() && fresh(Repr() - {null})
      ensures Dec() == Decider(enabled, zeroAddress, None, [], [])
    {
      this.enabled, this.zeroAddress := enabled, zeroAddress;
      filter, fromSeed := None, false;
      allow := new Allowlist.Allowlist();
      exact := new List();
      new;
    }

    method ReloadBloomFilter(mapped: Option<seq<byte>>, seed: seq<byte>, sizeMod: nat)
      requires Valid() && BloomFilter.SizeType(sizeMod)
      modifies this`filter, this`fromSeed
      ensures Valid()
      ensures Dec() == old(Dec()).(filter := LoadedFilter(mapped, seed, sizeMod))
      ensures fromSeed == UsesSeed(mapped, seed, sizeMod)
    {
      filter, fromSeed := LoadFilter(mapped, seed, sizeMod);
    }

    /** dns_proxy_reload_allowlist */
    method ReloadAllowlist(found: bool, stored: seq<byte>, bufferMem: bool, entriesMem: bool)
      requires Valid() && (found ==> |stored| == 2048 && NUL in stored)
      modifies allow
      ensures Valid() && fresh(Repr() - old(Repr()) - {null})
      ensures Dec() == old(Dec()).(allowed := LoadedAllowlist(found, stored, bufferMem, entriesMem))
    {
      allow.Reload(found, stored, bufferMem, entriesMem);
    }

    /** The condition at the head of try_block; qname is the parsed name's buffer. */
    method Decide(qname: array<byte>) returns (r: bool)
      requires Valid() && Probeable()
      ensures r == Blocks(Dec(), CStr(qname[..]))
    {
      var name := CStr(qname[..]);
      if !enabled || filter.None? {
        return false;
      }
      var hit := BloomFilter.Test(filter.value, name);
      if !hit {
        return false;
      }
      var allowlisted := allow.IsAllowlisted(name);
      if allowlisted {
        return false;
      }
      var confirm := exact.Confirm(name);
      return confirm != NotBlocked;
    }

    /** try_block: if the name is blocked, answers the client over its own query. */
    method TryBlock(sock: int, client: SockAddr, buf: array<byte>, n: nat, q: QuestionBuf,
                    ghost question: Question, wire: Wire) returns (hit: bool)
      requires Valid() && Probeable() && buf !in Repr() && wire !in Repr()
      requires n <= buf.Length == MAX_MSG_LEN && buf != q.qname && q.Holds(question)
      requires HEADER_LEN <= question.end <= n && question.qtype < M16
      modifies buf, wire
      ensures hit == Blocks(Dec(), CStr(question.qname))
      ensures Valid() && Dec() == old(Dec())
      ensures !hit ==> buf[..] == old(buf[..]) && wire.sent == old(wire.sent)
      ensures hit ==> wire.sent == old(wire.sent) +
                                   [ToClient(sock, client, BlockResponse(zeroAddress, old(buf[..]), n, question))]
    {
      NameInBuffer(q.qname[..], question.qname);
      hit := Decide(q.qname);
      if hit {
        var respLen := AnswerBlocked(buf, n, q, zeroAddress, question);
        wire.Send(ToClient(sock, client, buf[..respLen]));
      }
    }
  }

  /** Every datagram handed to sendto or send. */
  class Wire {
    ghost var sent: seq<Packet>

    constructor ()
      ensures sent == []
    {
      sent := [];
    }

    method Send(packet: Packet)
      modifies this
      ensures sent == old(sent) + [packet]
    {
      sent := sent + [packet];
    }
  }

  /** The answer a blocked client gets, built over its own query. */
  method AnswerBlocked(buf: array<byte>, n: nat, q: QuestionBuf, zeroAddress: bool, ghost question: Question)
    returns (respLen: nat)
    requires n <= buf.Length == MAX_MSG_LEN
    requires HEADER_LEN <= question.end <= n && question.qtype < M16
    requires q.questionEnd == question.end && q.qtype == question.qtype
    modifies buf
    ensures respLen <= buf.Length
    ensures buf[..respLen] == BlockResponse(zeroAddress, old(buf[..]), n, question)
  {
    respLen := n;
    ghost var query := buf[..n];
    if zeroAddress {
      var newLen := MakeZeroAnswer(buf, q.questionEnd, MAX_MSG_LEN, q.qtype);
      if newLen > 0 {
        respLen := newLen;
      } else {
        assert buf[..n] == buf[..][..n] == query;
        MakeErrorResponse(buf, n, NXDOMAIN);
      }
    } else {
      MakeErrorResponse(buf, n, NXDOMAIN);
    }
  }

  lemma NameInBuffer(buffer: seq<byte>, name: Name)
    requires |name| < |buffer| && buffer[..|name|] == name && buffer[|name|] == NUL
    ensures CStr(buffer) == CStr(name)
  {
    assert buffer == name + [NUL] + buffer[|name| + 1..];
    CStrCut(name, buffer[|name| + 1..]);
  }
}
