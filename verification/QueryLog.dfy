/** The recent-query ring buffer of components/dns_proxy/dns_proxy.c against the unbounded
    history of logged queries. */
module QueryLog {
  import opened Words
  import opened CStrings

  datatype Outcome = Forwarded | Blocked | ServFail

  /** AF_INET and AF_INET6 peers; anything else is logged as an all-zero address. */
  datatype SockAddr = V4(ip: seq<byte>, port: nat) | V6(ip: seq<byte>, port: nat) | OtherFamily(raw: seq<byte>)

  datatype ClientAddr = ClientAddr(family: nat, addr: seq<byte>)

  const AF_INET: nat := 2
  const AF_INET6: nat := 10

  /** sockaddr_to_client_addr: the port is dropped. */
  function ToClientAddr(sa: SockAddr): ClientAddr {
    match sa
    case V4(ip, _) => ClientAddr(AF_INET, ip)
    case V6(ip, _) => ClientAddr(AF_INET6, ip)
    case OtherFamily(_) => ClientAddr(0, [])
  }

  datatype Entry = Entry(timeUs: int, client: ClientAddr, qname: Name, qtype: nat, result: Outcome)

  /** strncpy into the 255-byte field, the last byte always the terminator. */
  function Stored(qname: Name): Name {
    if |CStr(qname)| < 255 then CStr(qname) else CStr(qname)[..254]
  }

  function EntryFor(timeUs: int, client: SockAddr, qname: Name, qtype: nat, result: Outcome): Entry {
    Entry(timeUs, ToClientAddr(client), Stored(qname), qtype, result)
  }

  /** The newest `n` entries of a history, newest first. */
  function Newest(history: seq<Entry>, n: nat): (r: seq<Entry>)
    requires n <= |history|
    ensures |r| == n && forall i :: 0 <= i < n ==> r[i] == history[|history| - 1 - i]
  {
    seq(n, i requires 0 <= i < n => history[|history| - 1 - i])
  }

  function Min(a: nat, b: nat): nat {
    if a < b then a else b
  }

  class Log {
    const entries: array<Entry>
    var next: nat
    var count: nat
    ghost var history: seq<Entry>

    ghost predicate Valid()
      reads this, entries
    {
      && entries.Length > 0
      && next == |history| % entries.Length
      && count == Min(|history|, entries.Length)
      && forall k :: |history| - count <= k < |history| ==> entries[k % entries.Length] == history[k]
    }

    constructor (size: nat)
      requires size >= 1
      ensures Valid() && history == [] && entries.Length == size && fresh(entries)
    {
      entries := new Entry[size](_ => Entry(0, ClientAddr(0, []), [], 0, Forwarded));
      next, count, history := 0, 0, [];
    }

    /** `taken` says whether the mutex was obtained in time; if not, nothing is logged. */
    method LogQuery(taken: bool, timeUs: int, client: SockAddr, qname: Name, qtype: nat, result: Outcome)
      requires Valid()
      modifies this, entries
      ensures Valid()
      ensures history == if taken then old(history) + [EntryFor(timeUs, client, qname, qtype, result)]
                         else old(history)
    {
      if !taken {
        return;
      }
      ghost var n, size := |history|, entries.Length;
      forall k | n - count <= k < n && k > n - size ensures k % size != n % size {
        DistinctSlots(k, n, size);
      }
      entries[next] := EntryFor(timeUs, client, qname, qtype, result);
      history := history + [entries[next]];
      NextSlot(n, size);
      next := (next + 1) % entries.Length;
      if count < entries.Length {
        count := count + 1;
      }
    }

    method GetQueryLog(taken: bool, maxEntries: nat) returns (out: seq<Entry>)
      requires Valid()
      ensures out == if taken then Newest(history, Min(Min(|history|, entries.Length), maxEntries)) else []
    {
      if !taken {
        return [];
      }
      var n := if count < maxEntries then count else maxEntries;
      out := [];
      for i := 0 to n
        invariant |out| == i
        invariant forall j :: 0 <= j < i ==> out[j] == history[|history| - 1 - j]
      {
        var idx := (next + entries.Length - 1 - i) % entries.Length;
        SlotBehind(|history|, entries.Length, i);
        out := out + [entries[idx]];
      }
    }
  }

  lemma NextSlot(n: nat, size: nat)
    requires size > 0
    ensures (n % size + 1) % size == (n + 1) % size
  {
    var q, r := n / size, n % size;
    assert n + 1 == q * size + (r + 1);
    if r + 1 < size {
      DivModUnique(n + 1, size, q, r + 1);
    } else {
      assert n + 1 == (q + 1) * size + 0;
      DivModUnique(n + 1, size, q + 1, 0);
    }
  }

  lemma DistinctSlots(k: nat, n: nat, size: nat)
    requires size > 0 && n - size < k < n
    ensures k % size != n % size
  {
    if k % size == n % size {
      var d := n / size - k / size;
      assert n - k == d * size;
      if d >= 1 {
        MulAtLeast(d, size);
      } else {
        MulAtMost(d, size);
      }
    }
  }

  lemma MulAtMost(d: int, size: nat)
    requires d <= 0
    ensures d * size <= 0
  {
  }

  lemma SlotBehind(n: nat, size: nat, i: nat)
    requires size > 0 && i < size && i < n
    ensures (n % size + size - 1 - i) % size == (n - 1 - i) % size
  {
    var q, r := n / size, n % size;
    if r >= 1 + i {
      assert n - 1 - i == q * size + (r - 1 - i);
      DivModUnique(n - 1 - i, size, q, r - 1 - i);
      assert r + size - 1 - i == 1 * size + (r - 1 - i);
      DivModUnique(r + size - 1 - i, size, 1, r - 1 - i);
    } else {
      assert n - 1 - i == (q - 1) * size + (r + size - 1 - i);
      DivModUnique(n - 1 - i, size, q - 1, r + size - 1 - i);
      DivModUnique(r + size - 1 - i, size, 0, r + size - 1 - i);
    }
  }
}
