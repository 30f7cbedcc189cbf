/** The two-stage blocking decision of components/dns_proxy/dns_proxy.c (filter, then
    allowlist, then exact list) and its agreement with plain set membership. */
module Decision {
  import opened Words
  import opened Options
  import opened CStrings
  import opened DnsWire
  import opened DomainList
  import opened BlocklistBuild
  import Allowlist
  import BloomFilter
  import BloomFormat

  /** Everything try_block consults: settings, the loaded filter, allowlist, exact list. */
  datatype Decider = Decider(enabled: bool, zeroAddress: bool, filter: Option<BloomFilter.Filter>,
                             allowed: seq<Name>, exact: seq<Name>)

  /** dns_proxy_reload_bloom_filter: the active partition if it maps and parses, else the
      embedded seed, else none. */
  function LoadedFilter(mapped: Option<seq<byte>>, seed: seq<byte>, sizeMod: nat): Option<BloomFilter.Filter>
    requires BloomFilter.SizeType(sizeMod)
  {
    if mapped.Some? && BloomFilter.Accepted(mapped.value, sizeMod) then Some(BloomFilter.FilterOf(mapped.value))
    else if BloomFilter.Accepted(seed, sizeMod) then Some(BloomFilter.FilterOf(seed))
    else None
  }

  predicate UsesSeed(mapped: Option<seq<byte>>, seed: seq<byte>, sizeMod: nat)
    requires BloomFilter.SizeType(sizeMod)
  {
    !(mapped.Some? && BloomFilter.Accepted(mapped.value, sizeMod)) && BloomFilter.Accepted(seed, sizeMod)
  }

  /** dns_proxy_reload_allowlist: `stored` is what the settings store returned, when `found`. */
  function LoadedAllowlist(found: bool, stored: seq<byte>, bufferMem: bool, entriesMem: bool): seq<Name> {
    if found && bufferMem && entriesMem then Allowlist.Allowed(CStr(stored)) else []
  }

  /** A stored setting of lines and a possibly open last one, ended by a zero byte, whatever the
      rest of the buffer holds. */
  lemma StoredLinesAreAllowed(lines: seq<Name>, last: Name, rest: seq<byte>)
    requires ListableNames(lines) && NUL !in last && NEWLINE !in last && NUL !in JoinLines(lines)
    ensures LoadedAllowlist(true, JoinLines(lines) + last + [NUL] + rest, true, true) ==
            lines + if last == [] then [] else [last]
  {
    CStrOfClean(JoinLines(lines) + last, rest);
    Allowlist.AllowedLines(lines, last);
  }

  predicate Blocks(d: Decider, name: Name) {
    && d.enabled
    && d.filter.Some?
    && BloomFilter.Has(d.filter.value, name)
    && name !in d.allowed
    && !Confirmed(d.exact, name).NotBlocked?
  }

  ghost predicate Normalized(domains: seq<Name>) {
    forall x :: x in domains ==> BloomFormat.Normalize(x) == x
  }

  /** With the filter built from one list and the exact list loaded from another (their
      updates are independent), the blocked names lie between the allowlist-free parts of
      the intersection and of the exact list. */
  lemma BlockedSetIsSandwiched(d: Decider, filterList: seq<Name>, name: Name)
    requires d.enabled && d.filter.Some? && BloomFormat.BuiltFilter(d.filter.value, filterList)
    requires Normalized(filterList)
    requires d.exact != [] && StrictlySorted(d.exact)
    ensures name in filterList && name in d.exact && name !in d.allowed ==> Blocks(d, name)
    ensures Blocks(d, name) ==> name in d.exact && name !in d.allowed
  {
    ConfirmationIsMembership(d.exact, name);
    if name in filterList {
      BloomFormat.NoFalseNegatives(d.filter.value, filterList, name);
    }
  }

  /** When both artifacts come from one list, blocking is exactly membership. */
  lemma BlockingIsMembership(d: Decider, filterList: seq<Name>, name: Name)
    requires d.enabled && d.filter.Some? && BloomFormat.BuiltFilter(d.filter.value, filterList)
    requires Normalized(filterList)
    requires d.exact != [] && StrictlySorted(d.exact)
    requires forall x :: x in filterList <==> x in d.exact
    ensures Blocks(d, name) <==> name in d.exact && name !in d.allowed
  {
    BlockedSetIsSandwiched(d, filterList, name);
  }

  /** Without an exact list the device fails safe: nothing listed slips through. */
  lemma WithoutExactListNothingListedPasses(d: Decider, filterList: seq<Name>, name: Name)
    requires d.enabled && d.filter.Some? && BloomFormat.BuiltFilter(d.filter.value, filterList)
    requires Normalized(filterList) && d.exact == []
    requires name in filterList
    ensures Blocks(d, name) <==> name !in d.allowed
  {
    BloomFormat.NoFalseNegatives(d.filter.value, filterList, name);
  }

  /** The whole path. One published list, its image (with any flash padding after it) in the
      active partition and its index file on the card, loaded whatever the embedded seed is,
      and any allowlist setting: a message is blocked exactly when the name it asks for, as a
      C string, is published and not allowlisted. */
  lemma PublishedListIsEnforced(domains: seq<Name>, mBits: nat, kHashes: nat, nDomains: nat, ts: nat,
                                bits: seq<byte>, padding: seq<byte>, setting: seq<byte>,
                                zeroAddress: bool, m: seq<byte>, seed: seq<byte>, sizeMod: nat)
    requires Published(domains) && BloomFilter.SizeType(sizeMod) && BloomFilter.GeometryFits(mBits, sizeMod)
    requires 0 < mBits < M64 && kHashes < M32 && nDomains < M64 && ts < M64
    requires BloomFormat.Built(bits, domains, mBits, kHashes)
    requires Parse(m).Some?
    ensures var image := BloomFormat.Image(mBits, kHashes, nDomains, ts, bits) + padding;
            var d := Decider(true, zeroAddress, LoadedFilter(Some(image), seed, sizeMod),
                             Allowlist.Allowed(setting), Kept(SplitLines(IndexFile(domains)).lines));
            var name := CStr(Parse(m).value.qname);
            && (Blocks(d, name) <==> name in domains && name !in Allowlist.Allowed(setting))
            && !UsesSeed(Some(image), seed, sizeMod)
  {
    var image := BloomFormat.Image(mBits, kHashes, nDomains, ts, bits) + padding;
    PublishedIndexLoads(domains);
    BloomFormat.ImageIsAccepted(mBits, kHashes, nDomains, ts, bits, padding, sizeMod);
    BloomFormat.ImageIsBuiltFilter(mBits, kHashes, nDomains, ts, bits, padding, domains);
    forall x | x in domains ensures BloomFormat.Normalize(x) == x {
      ListedDomainIsNormal(x);
    }
    var d := Decider(true, zeroAddress, Some(BloomFilter.FilterOf(image)), Allowlist.Allowed(setting), domains);
    BlockingIsMembership(d, domains, CStr(Parse(m).value.qname));
  }

  /** The same for a device whose active partition cannot be mapped or holds no filter, such as a
      new one with blank flash: the embedded image takes over, with the exact list loaded or
      without. */
  lemma SeedListIsEnforced(domains: seq<Name>, mBits: nat, kHashes: nat, nDomains: nat, ts: nat,
                           bits: seq<byte>, setting: seq<byte>, zeroAddress: bool, m: seq<byte>,
                           mapped: Option<seq<byte>>, sizeMod: nat)
    requires Published(domains) && BloomFilter.SizeType(sizeMod) && BloomFilter.GeometryFits(mBits, sizeMod)
    requires 0 < mBits < M64 && kHashes < M32 && nDomains < M64 && ts < M64
    requires BloomFormat.Built(bits, domains, mBits, kHashes)
    requires mapped.Some? ==> !BloomFilter.Accepted(mapped.value, sizeMod)
    requires Parse(m).Some?
    ensures var seed := BloomFormat.Image(mBits, kHashes, nDomains, ts, bits);
            var filter, allowed := LoadedFilter(mapped, seed, sizeMod), Allowlist.Allowed(setting);
            var name := CStr(Parse(m).value.qname);
            && UsesSeed(mapped, seed, sizeMod)
            && (Blocks(Decider(true, zeroAddress, filter, allowed, Kept(SplitLines(IndexFile(domains)).lines)), name)
                <==> name in domains && name !in allowed)
            && (name in domains && name !in allowed ==> Blocks(Decider(true, zeroAddress, filter, allowed, []), name))
  {
    var seed := BloomFormat.Image(mBits, kHashes, nDomains, ts, bits);
    assert seed + [] == seed;
    PublishedIndexLoads(domains);
    BloomFormat.ImageIsAccepted(mBits, kHashes, nDomains, ts, bits, [], sizeMod);
    BloomFormat.ImageIsBuiltFilter(mBits, kHashes, nDomains, ts, bits, [], domains);
    forall x | x in domains ensures BloomFormat.Normalize(x) == x {
      ListedDomainIsNormal(x);
    }
    var filter, allowed := Some(BloomFilter.FilterOf(seed)), Allowlist.Allowed(setting);
    var name := CStr(Parse(m).value.qname);
    BlockingIsMembership(Decider(true, zeroAddress, filter, allowed, domains), domains, name);
    if name in domains {
      WithoutExactListNothingListedPasses(Decider(true, zeroAddress, filter, allowed, []), domains, name);
    }
  }

  /** With neither filter nothing is blocked, and the seed is not reported in use. */
  lemma NoFilterBlocksNothing(mapped: Option<seq<byte>>, seed: seq<byte>, sizeMod: nat, d: Decider, name: Name)
    requires BloomFilter.SizeType(sizeMod) && !BloomFilter.Accepted(seed, sizeMod)
    requires mapped.Some? ==> !BloomFilter.Accepted(mapped.value, sizeMod)
    requires d.filter == LoadedFilter(mapped, seed, sizeMod)
    ensures !Blocks(d, name) && !UsesSeed(mapped, seed, sizeMod)
  {
  }

  /** ... so every spelling of a published domain is blocked unless allowlisted. */
  lemma EverySpellingIsBlocked(d: Decider, filterList: seq<Name>, name: Name, labels: seq<Label>,
                               m: seq<byte>, spelled: seq<Label>)
    requires DomainShape(name, labels) && Spells(spelled, labels) && AsksFor(m, spelled)
    requires d.enabled && d.filter.Some? && BloomFormat.BuiltFilter(d.filter.value, filterList)
    requires name in filterList && name !in d.allowed
    requires d.exact == [] || (StrictlySorted(d.exact) && name in d.exact)
    ensures Parse(m).Some? && Parse(m).value.qname == name && Blocks(d, CStr(Parse(m).value.qname))
  {
    ListedDomainParses(name, labels, m, spelled);
    assert Listable(name);
    ListedDomainIsNormal(name);
    BloomFormat.NoFalseNegatives(d.filter.value, filterList, name);
    ConfirmationIsMembership(d.exact, name);
  }
}
