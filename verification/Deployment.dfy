/** The whole update cycle (blocklist_updater_check_and_apply): flash filter and exact list
    updated one after the other, with power losses and reboots in between, and what the
    proxy then blocks. */
module Deployment {
  import opened Words
  import opened Options
  import opened Slots
  import opened CStrings
  import opened DnsWire
  import opened DomainList
  import opened BlocklistBuild
  import opened Decision
  import BloomFilter
  import BloomFormat
  import opened Delivery
  import Flash = BloomUpdate
  import Sd = ListUpdate

  /** What survives a power loss (flash, card, slot bytes), the mapped filter, and the exact
      list in memory. */
  datatype System = System(device: Flash.Device, card: Sd.Card, exact: seq<Name>)

  /** One run of the updater: both attempts, and whether there was memory to load the list. */
  datatype Env = Env(bloom: Flash.Env, list: Sd.Env, loadOk: bool)

  predicate ListLoads(c: Sd.Card, loadOk: bool) {
    loadOk && Sd.Opened(c).Some? && SplitLines(Sd.Opened(c).value).lines != []
  }

  /** sd_storage_load_domain_list: the old list is gone even if the new one cannot be loaded. */
  function LoadedList(c: Sd.Card, loadOk: bool): seq<Name> {
    if ListLoads(c, loadOk) then Kept(SplitLines(Sd.Opened(c).value).lines) else []
  }

  /** The card as the filter's attempt leaves it. All settings are committed together, so the
      commit of one slot byte takes a waiting other one with it. */
  function CardBetween(card: Sd.Card, bloomOk: bool): Sd.Card {
    if bloomOk then Sd.Committed(card) else card
  }

  /** A successful attempt's commit comes before its last two moments. */
  function DuringBloom(s: System, bloom: Attempt<Flash.Result, Flash.Device>): (r: seq<System>)
    ensures |r| == |bloom.moments|
    ensures forall i :: 0 <= i < |r| ==>
              r[i] == System(bloom.moments[i], CardBetween(s.card, bloom.result.Ok? && i + 2 >= |r|), s.exact)
  {
    seq(|bloom.moments|, i requires 0 <= i < |bloom.moments| =>
      System(bloom.moments[i], CardBetween(s.card, bloom.result.Ok? && i + 2 >= |bloom.moments|), s.exact))
  }

  function DeviceAfter(device: Flash.Device, listOk: bool): Flash.Device {
    if listOk then Flash.Committed(device) else device
  }

  /** ... and before its last one. */
  function DuringList(device: Flash.Device, list: Attempt<Sd.Result, Sd.Card>, exact: seq<Name>): (r: seq<System>)
    ensures |r| == |list.moments|
    ensures forall i :: 0 <= i < |r| ==>
              r[i] == System(DeviceAfter(device, list.result.Ok? && i + 1 == |r|), list.moments[i], exact)
  {
    seq(|list.moments|, i requires 0 <= i < |list.moments| =>
      System(DeviceAfter(device, list.result.Ok? && i + 1 == |list.moments|), list.moments[i], exact))
  }

  /** The list's attempt, made whatever became of the filter's. */
  function ListAttempt(shaHex: seq<byte> -> seq<byte>, s: System, bloomOk: bool, env: Sd.Env)
    : (r: Attempt<Sd.Result, Sd.Card>)
    ensures r.moments != []
  {
    Sd.Update(shaHex, CardBetween(s.card, bloomOk), env)
  }

  function UpdateCycle(p: Flash.Params, shaHex: seq<byte> -> seq<byte>, s: System, env: Env): (r: Attempt<bool, System>)
    requires Flash.DeviceOk(p, s.device) && Flash.EnvOk(p, env.bloom)
    ensures r.moments != []
  {
    var bloom := Flash.Update(p, s.device, env.bloom);
    var list := ListAttempt(shaHex, s, bloom.result.Ok?, env.list);
    var moments := DuringBloom(s, bloom) + DuringList(Last(bloom), list, s.exact);
    var end := System(Flash.Committed(Last(bloom)), Last(list), LoadedList(Last(list), env.loadOk));
    Attempt(bloom.result.Ok? && list.result.Ok? && ListLoads(Last(list), env.loadOk),
            if list.result.Ok? then moments + [end] else moments)
  }

  lemma CycleEnd(p: Flash.Params, shaHex: seq<byte> -> seq<byte>, s: System, env: Env,
                 mid: System, end: System, bloomOk: bool, listOk: bool)
    requires Flash.DeviceOk(p, s.device) && Flash.EnvOk(p, env.bloom)
    requires FlashDone(p, s, env.bloom, mid, bloomOk)
    requires CardDone(shaHex, mid, env.list, env.loadOk, end, listOk)
    ensures var r := UpdateCycle(p, shaHex, s, env);
            (bloomOk && listOk) == r.result && end == Last(r)
  {
  }

  /** update_bloom: the flash, and after a switch the card's slot byte. */
  ghost predicate FlashDone(p: Flash.Params, before: System, env: Flash.Env, after: System, ok: bool)
    requires Flash.DeviceOk(p, before.device) && Flash.EnvOk(p, env)
  {
    var r := Flash.Update(p, before.device, env);
    && ok == r.result.Ok?
    && after == System(Last(r), CardBetween(before.card, ok), before.exact)
  }

  /** update_domain_list: the card, and after a switch the flash's slot byte and the list in
      memory. */
  ghost predicate CardDone(shaHex: seq<byte> -> seq<byte>, before: System, env: Sd.Env, loadOk: bool,
                           after: System, ok: bool) {
    var r := Sd.Update(shaHex, before.card, env);
    && ok == (r.result.Ok? && ListLoads(Last(r), loadOk))
    && after == System(DeviceAfter(before.device, r.result.Ok?), Last(r),
                       if r.result.Ok? then LoadedList(Last(r), loadOk) else before.exact)
  }

  function FileOn(content: Option<seq<byte>>): File {
    if content.None? then Missing else Present(|content.value|, content.value)
  }

  class Installation {
    const bloom: Flash.Updater
    const card: Sd.Updater
    const exact: List

    ghost predicate Valid()
      reads this, bloom, card, exact, exact.buf, exact.lines
    {
      bloom.Valid() && exact.Valid()
    }

    ghost function Abs(): System
      reads this, bloom, card, exact, exact.buf, exact.lines
      requires exact.Valid()
    {
      System(bloom.Abs(), card.Abs(), exact.Entries())
    }

    constructor (bloom: Flash.Updater, card: Sd.Updater, exact: List)
      requires bloom.Valid() && exact.Valid()
      ensures Valid() && this.bloom == bloom && this.card == card && this.exact == exact
    {
      this.bloom, this.card, this.exact := bloom, card, exact;
    }

    /** blocklist_updater_check_and_apply */
    method CheckAndApply(env: Env) returns (ok: bool)
      requires Valid() && Flash.EnvOk(bloom.params, env.bloom) && exact.mounted == env.list.mounted
      modifies bloom, card, exact
      ensures Valid()
      ensures var r := UpdateCycle(bloom.params, card.shaHex, old(Abs()), env);
              ok == r.result && Abs() == Last(r)
    {
      ghost var s := Abs();
      var bloomOk := UpdateFlash(env.bloom);
      ghost var mid := Abs();
      var listOk := UpdateCard(env.list, env.loadOk);
      ok := bloomOk && listOk;
      CycleEnd(bloom.params, card.shaHex, s, env, mid, Abs(), bloomOk, listOk);
    }

    method UpdateFlash(env: Flash.Env) returns (ok: bool)
      requires Valid() && Flash.EnvOk(bloom.params, env)
      modifies bloom, card
      ensures Valid() && FlashDone(bloom.params, old(Abs()), env, Abs(), ok)
    {
      var result := bloom.UpdateBloom(env);
      ok := result.Ok?;
      if ok {
        card.CommitSlot();
      }
    }

    method UpdateCard(env: Sd.Env, loadOk: bool) returns (ok: bool)
      requires Valid() && exact.mounted == env.mounted
      modifies bloom, card, exact
      ensures Valid()
      ensures CardDone(card.shaHex, old(Abs()), env, loadOk, Abs(), ok)
    {
      var result := card.UpdateDomainList(env);
      ok := false;
      if result.Ok? {
        bloom.CommitSlot();
        ok := LoadList(loadOk);
      }
    }

    method LoadList(loadOk: bool) returns (ok: bool)
      requires exact.mounted
      modifies exact
      ensures exact.Valid() && exact.Entries() == LoadedList(card.Abs(), loadOk) && ok == ListLoads(card.Abs(), loadOk)
    {
      var r := exact.Load(card.active, FileOn(card.a), FileOn(card.b), FileOn(card.legacy), loadOk, true);
      ok := r.Loaded?;
    }
  }

  // ------------------------------------------------------ what is enforced

  /** The buffer starts with a filter built from one of these lists. */
  ghost predicate Serves(lists: set<seq<Name>>, buf: seq<byte>) {
    |buf| >= BloomFilter.HEADER_LEN &&
    exists l :: l in lists && BloomFormat.BuiltFilter(BloomFilter.FilterOf(buf), l)
  }

  ghost predicate Indexes(lists: set<seq<Name>>, file: seq<byte>) {
    exists l :: l in lists && file == IndexFile(l)
  }

  function FilterIn(buf: seq<byte>): Option<BloomFilter.Filter> {
    if |buf| >= BloomFilter.HEADER_LEN then Some(BloomFilter.FilterOf(buf)) else None
  }

  function RunningFilter(p: Flash.Params, d: Flash.Device): Option<BloomFilter.Filter> {
    match d.source
    case NoFilter => None
    case FromSeed => FilterIn(p.seed)
    case FromPartition(second) => FilterIn(Flash.Part(d, second))
  }

  ghost predicate RunsPublished(lists: set<seq<Name>>, filter: Option<BloomFilter.Filter>) {
    filter.Some? ==> exists l :: l in lists && BloomFormat.BuiltFilter(filter.value, l)
  }

  /** The filter in use is built from a published list and the exact list, when there is
      one, is a published list; they need not be the same list. */
  ghost predicate Enforces(lists: set<seq<Name>>, p: Flash.Params, s: System) {
    RunsPublished(lists, RunningFilter(p, s.device)) && (s.exact == [] || s.exact in lists)
  }

  ghost predicate AllPublished(lists: set<seq<Name>>) {
    forall l :: l in lists ==> Published(l)
  }

  /** The decider a system state gives, under these settings. */
  function DeciderOf(p: Flash.Params, s: System, enabled: bool, zeroAddress: bool, allowed: seq<Name>): Decider {
    Decider(enabled, zeroAddress, RunningFilter(p, s.device), allowed, s.exact)
  }

  /** A filter, if any, built from a published list, and a published exact list or none. */
  ghost predicate Governed(lists: set<seq<Name>>, d: Decider) {
    RunsPublished(lists, d.filter) && (d.exact == [] || d.exact in lists)
  }

  /** The decider's filter was built from this published list. */
  ghost predicate FilterFrom(lists: set<seq<Name>>, d: Decider, l: seq<Name>) {
    l in lists && d.filter.Some? && BloomFormat.BuiltFilter(d.filter.value, l)
  }

  /** What that means for a client: the list the filter was built from decides together with the
      exact list, as far as one is loaded; nothing allowlisted and nothing outside the exact
      list is blocked. */
  lemma GovernedIsMembership(lists: set<seq<Name>>, d: Decider, l: seq<Name>, name: Name)
    requires AllPublished(lists) && Governed(lists, d) && FilterFrom(lists, d, l)
    ensures Between(l, d, name)
  {
    forall x | x in l ensures BloomFormat.Normalize(x) == x {
      ListedDomainIsNormal(x);
    }
    if d.enabled {
      if d.exact != [] {
        BlockedSetIsSandwiched(d, l, name);
      } else if name in l {
        WithoutExactListNothingListedPasses(d, l, name);
      }
    }
  }

  /** In every state that enforces published lists and has a filter: the filter was built from
      some published list, and every list it was built from decides. */
  lemma EnforcementIsMembership(lists: set<seq<Name>>, p: Flash.Params, s: System, zeroAddress: bool,
                                allowed: seq<Name>)
    requires AllPublished(lists) && Enforces(lists, p, s) && RunningFilter(p, s.device).Some?
    ensures var d := DeciderOf(p, s, true, zeroAddress, allowed);
            && (exists l :: FilterFrom(lists, d, l))
            && forall l, name :: FilterFrom(lists, d, l) ==> Between(l, d, name)
  {
    var d := DeciderOf(p, s, true, zeroAddress, allowed);
    var l :| l in lists && BloomFormat.BuiltFilter(d.filter.value, l);
    assert FilterFrom(lists, d, l);
    forall l, name | FilterFrom(lists, d, l) ensures Between(l, d, name) {
      GovernedIsMembership(lists, d, l, name);
    }
  }

  ghost predicate Between(filterList: seq<Name>, d: Decider, name: Name) {
    && (d.enabled && name in filterList && (d.exact == [] || name in d.exact) && name !in d.allowed ==>
          Blocks(d, name))
    && (Blocks(d, name) ==> name !in d.allowed && (d.exact == [] || name in d.exact))
  }

  // ------------------------------------------- published content stays published

  /** What is fetched may be missing, cut or corrupt in any way the updater's checks notice:
      whatever passes them is what some published list was built into. That is an assumption
      about the transport, since the CRC does not cover the header; FaultsAreHonest gives
      kinds of faults under which it holds. */
  ghost predicate Honest(p: Flash.Params, shaHex: seq<byte> -> seq<byte>, lists: set<seq<Name>>, env: Env)
    requires SizeTypeOk(p)
  {
    && Flash.EnvOk(p, env.bloom)
    && (env.bloom.download.Some? && Flash.ImageValid(p, env.bloom.download.value) ==>
          Serves(lists, env.bloom.download.value))
    && (Sd.Matches(shaHex, env.list) ==> Indexes(lists, env.list.transfer.content))
  }

  predicate SizeTypeOk(p: Flash.Params) {
    BloomFilter.SizeType(p.sizeMod)
  }

  ghost predicate BuiltFrom(lists: set<seq<Name>>, pub: Publication)
    requires pub.mBits > 0
  {
    exists l :: l in lists && BloomFormat.Built(pub.bits, l, pub.mBits, pub.kHashes)
  }

  /** The digest fetched is that of a published list, and no other file shares it. */
  ghost predicate DigestOf(shaHex: seq<byte> -> seq<byte>, lists: set<seq<Name>>, digest: seq<byte>,
                           content: seq<byte>) {
    exists l :: l in lists && digest == shaHex(IndexFile(l)) &&
      (shaHex(content) == shaHex(IndexFile(l)) ==> content == IndexFile(l))
  }

  /** Images that arrive whole, cut, or with a burst of at most 32 bits in the bit array,
      and lists whose digest has no collision, are honest however they fail. */
  lemma FaultsAreHonest(p: Flash.Params, shaHex: seq<byte> -> seq<byte>, lists: set<seq<Name>>, env: Env,
                        pub: Publication, damage: Damage)
    requires Flash.EnvOk(p, env.bloom) && PublicationOk(p, pub) && BuiltFrom(lists, pub)
    requires env.bloom.download.Some? ==> env.bloom.download.value == Arrived(pub, damage)
    requires env.list.transfer.Streamed? && env.list.sha.Some? && |env.list.sha.value| >= Sd.HEX_LEN ==>
               DigestOf(shaHex, lists, Sd.Expected(env.list.sha.value), env.list.transfer.content)
    ensures Honest(p, shaHex, lists, env)
  {
    OnlyIntactPasses(p, pub, damage);
    var l :| l in lists && BloomFormat.Built(pub.bits, l, pub.mBits, pub.kHashes);
    BloomFormat.ImageIsBuiltFilter(pub.mBits, pub.kHashes, pub.nDomains, pub.ts, pub.bits, [], l);
    assert ImageOf(pub) + [] == ImageOf(pub);
  }

  /** A buffer the loader would reject, such as blank flash, or one that serves a list. */
  ghost predicate Harmless(p: Flash.Params, lists: set<seq<Name>>, buf: seq<byte>)
    requires SizeTypeOk(p)
  {
    BloomFilter.Accepted(buf, p.sizeMod) ==> Serves(lists, buf)
  }

  ghost predicate DeviceSound(p: Flash.Params, lists: set<seq<Name>>, d: Flash.Device) {
    && Flash.DeviceOk(p, d)
    && RunsPublished(lists, RunningFilter(p, d))
    && (d.source.FromPartition? ==> d.mapping == Some(d.source.second))
    && Harmless(p, lists, p.seed) && Harmless(p, lists, Flash.Named(d)) && Harmless(p, lists, Flash.Surviving(d))
  }

  ghost predicate FileSound(lists: set<seq<Name>>, file: Option<seq<byte>>) {
    file.Some? ==> Indexes(lists, file.value)
  }

  ghost predicate CardSound(lists: set<seq<Name>>, c: Sd.Card) {
    FileSound(lists, Sd.Opened(c)) && FileSound(lists, Sd.Surviving(c))
  }

  /** What is in use, what would be loaded, and what a power loss would leave to be loaded. */
  ghost predicate Sound(p: Flash.Params, lists: set<seq<Name>>, s: System) {
    DeviceSound(p, lists, s.device) && CardSound(lists, s.card) && (s.exact == [] || s.exact in lists)
  }

  /** The filter's attempt commits a switch, and with it whatever else waited. */
  ghost predicate FlashCommits(p: Flash.Params, s: System, env: Env)
    requires Flash.DeviceOk(p, s.device) && Flash.EnvOk(p, env.bloom)
  {
    Flash.ReachesSwitch(p, s.device, env.bloom) && env.bloom.flip.Flipped?
  }

  /** Nothing is received while a slot change waits on the card when the transfer begins. */
  ghost predicate CardReady(p: Flash.Params, s: System, env: Env)
    requires Flash.DeviceOk(p, s.device) && Flash.EnvOk(p, env.bloom)
  {
    Sd.Synced(s.card) || FlashCommits(p, s, env) || !Sd.Transfers(env.list)
  }

  /** ... and nothing is erased unless the mapping is on the named partition and no slot change
      waits for its commit. */
  ghost predicate Permitted(p: Flash.Params, s: System, env: Env)
    requires Flash.DeviceOk(p, s.device) && Flash.EnvOk(p, env.bloom)
  {
    (Flash.Settled(s.device) || !Flash.Begins(p, s.device, env.bloom)) && CardReady(p, s, env)
  }

  /** Flash padding after a served image changes nothing. */
  lemma WrittenServes(p: Flash.Params, lists: set<seq<Name>>, image: seq<byte>)
    requires SizeTypeOk(p) && |image| <= p.partSize && Flash.ImageValid(p, image) && Serves(lists, image)
    ensures Serves(lists, Flash.Written(p, image))
  {
    Flash.ValidWhenMapped(p, image);
    var whole := Flash.Written(p, image);
    var f, g := BloomFilter.FilterOf(image), BloomFilter.FilterOf(whole);
    var l :| l in lists && BloomFormat.BuiltFilter(f, l);
    var bytes := (f.header.mBits + 7) / 8;
    assert g.bits[..bytes] == g.bits[..|f.bits|][..bytes] == f.bits[..bytes];
  }

  lemma MomentServes(p: Flash.Params, lists: set<seq<Name>>, d: Flash.Device, env: Flash.Env, m: Flash.Device)
    requires DeviceSound(p, lists, d) && Flash.EnvOk(p, env) && Flash.SafeAfter(p, d, env, m)
    requires env.download.Some? && Flash.ImageValid(p, env.download.value) ==> Serves(lists, env.download.value)
    ensures Harmless(p, lists, Flash.Named(m)) && Harmless(p, lists, Flash.Surviving(m))
  {
    if env.download.Some? && Flash.ImageValid(p, env.download.value) {
      WrittenServes(p, lists, env.download.value);
    }
  }

  /** Loading from a harmless named partition. */
  lemma ReloadedSound(p: Flash.Params, lists: set<seq<Name>>, d: Flash.Device, mapOk: bool)
    requires Flash.DeviceOk(p, d) && Harmless(p, lists, p.seed)
    requires Harmless(p, lists, Flash.Named(d)) && Harmless(p, lists, Flash.Surviving(d))
    ensures DeviceSound(p, lists, Flash.Reloaded(p, d, mapOk))
  {
  }

  /** Every moment of a filter update. */
  lemma DeviceMomentIsSound(p: Flash.Params, lists: set<seq<Name>>, d: Flash.Device, env: Flash.Env, m: Flash.Device)
    requires DeviceSound(p, lists, d) && Flash.EnvOk(p, env) && m in Flash.Update(p, d, env).moments
    requires Flash.Settled(d) || !Flash.Begins(p, d, env)
    requires env.download.Some? && Flash.ImageValid(p, env.download.value) ==> Serves(lists, env.download.value)
    ensures DeviceSound(p, lists, m)
  {
    if !Flash.Begins(p, d, env) {
      Flash.NothingBegun(p, d, env);
    } else if m in Flash.BeforeReload(Flash.Update(p, d, env)) {
      QuietMomentIsSound(p, lists, d, env, m);
    } else {
      SuccessIsSound(p, lists, d, env);
    }
  }

  lemma QuietMomentIsSound(p: Flash.Params, lists: set<seq<Name>>, d: Flash.Device, env: Flash.Env, m: Flash.Device)
    requires DeviceSound(p, lists, d) && Flash.EnvOk(p, env) && Flash.Settled(d)
    requires m in Flash.Update(p, d, env).moments && m in Flash.BeforeReload(Flash.Update(p, d, env))
    requires env.download.Some? && Flash.ImageValid(p, env.download.value) ==> Serves(lists, env.download.value)
    ensures DeviceSound(p, lists, m)
  {
    Flash.EveryMomentIsSafe(p, d, env);
    assert Flash.SafeAfter(p, d, env, m);
    MomentServes(p, lists, d, env, m);
    Flash.MappedPartitionIsNeverTouched(p, d, env);
    QuietIsSound(p, lists, d, m);
  }

  lemma QuietIsSound(p: Flash.Params, lists: set<seq<Name>>, d: Flash.Device, m: Flash.Device)
    requires DeviceSound(p, lists, d) && Flash.DeviceOk(p, m) && Flash.SameMapping(d, m)
    requires Harmless(p, lists, Flash.Named(m)) && Harmless(p, lists, Flash.Surviving(m))
    ensures DeviceSound(p, lists, m)
  {
  }

  lemma SuccessIsSound(p: Flash.Params, lists: set<seq<Name>>, d: Flash.Device, env: Flash.Env)
    requires DeviceSound(p, lists, d) && Flash.EnvOk(p, env) && Flash.Update(p, d, env).result.Ok?
    requires env.download.Some? && Flash.ImageValid(p, env.download.value) ==> Serves(lists, env.download.value)
    ensures DeviceSound(p, lists, Last(Flash.Update(p, d, env)))
  {
    Flash.SuccessMeansSwitched(p, d, env);
    Flash.SwitchedEnd(p, d, env);
    WrittenServes(p, lists, env.download.value);
    ReloadedSound(p, lists, Flash.Committed(Flash.Switched(p, d, env)), env.mapOk);
  }

  lemma CardMomentIsSound(shaHex: seq<byte> -> seq<byte>, lists: set<seq<Name>>, c: Sd.Card, env: Sd.Env, m: Sd.Card)
    requires CardSound(lists, c) && m in Sd.Update(shaHex, c, env).moments
    requires Sd.Synced(c) || !Sd.Transfers(env)
    requires Sd.Matches(shaHex, env) ==> Indexes(lists, env.transfer.content)
    ensures CardSound(lists, m)
  {
    Sd.EveryMomentIsSafe(shaHex, c, env);
    assert Sd.SafeAfter(shaHex, c, env, m);
  }

  lemma LoadedIsPublished(lists: set<seq<Name>>, c: Sd.Card, loadOk: bool)
    requires AllPublished(lists) && CardSound(lists, c)
    ensures LoadedList(c, loadOk) == [] || LoadedList(c, loadOk) in lists
  {
    if ListLoads(c, loadOk) {
      var l :| l in lists && Sd.Opened(c).value == IndexFile(l);
      PublishedIndexLoads(l);
    }
  }

  // ------------------------------------------------------------- whole runs

  /** The card when the list's attempt begins. */
  lemma CardBetweenSynced(p: Flash.Params, s: System, env: Env)
    requires Flash.DeviceOk(p, s.device) && Flash.EnvOk(p, env.bloom)
    ensures Flash.Update(p, s.device, env.bloom).result.Ok? <==> FlashCommits(p, s, env)
    ensures Sd.Synced(CardBetween(s.card, FlashCommits(p, s, env))) <==> Sd.Synced(s.card) || FlashCommits(p, s, env)
  {
    Flash.SuccessMeansSwitched(p, s.device, env.bloom);
  }

  /** Where the two halves of a system stand at a moment of a cycle. */
  ghost predicate FlashMoment(p: Flash.Params, s: System, env: Env, d: Flash.Device)
    requires Flash.DeviceOk(p, s.device) && Flash.EnvOk(p, env.bloom)
  {
    exists b :: b in Flash.Update(p, s.device, env.bloom).moments && (d == b || d == Flash.Committed(b))
  }

  ghost predicate CardMoment(p: Flash.Params, shaHex: seq<byte> -> seq<byte>, s: System, env: Env, c: Sd.Card)
    requires Flash.DeviceOk(p, s.device) && Flash.EnvOk(p, env.bloom)
  {
    || c == s.card
    || c == Sd.Committed(s.card)
    || c in Sd.Update(shaHex, CardBetween(s.card, FlashCommits(p, s, env)), env.list).moments
  }

  lemma MomentsDuringBloom(p: Flash.Params, shaHex: seq<byte> -> seq<byte>, s: System, env: Env, m: System)
    requires Flash.DeviceOk(p, s.device) && Flash.EnvOk(p, env.bloom)
    requires m in DuringBloom(s, Flash.Update(p, s.device, env.bloom))
    ensures FlashMoment(p, s, env, m.device) && CardMoment(p, shaHex, s, env, m.card) && m.exact == s.exact
  {
    var bloom := Flash.Update(p, s.device, env.bloom);
    var k :| 0 <= k < |bloom.moments| && m == DuringBloom(s, bloom)[k];
    assert bloom.moments[k] in bloom.moments;
  }

  lemma MomentsDuringList(p: Flash.Params, shaHex: seq<byte> -> seq<byte>, s: System, env: Env, m: System,
                          device: Flash.Device, list: Attempt<Sd.Result, Sd.Card>)
    requires Flash.DeviceOk(p, s.device) && Flash.EnvOk(p, env.bloom)
    requires device in Flash.Update(p, s.device, env.bloom).moments
    requires list == ListAttempt(shaHex, s, FlashCommits(p, s, env), env.list)
    requires m in DuringList(device, list, s.exact) || m == System(Flash.Committed(device), Last(list), m.exact)
    ensures FlashMoment(p, s, env, m.device) && CardMoment(p, shaHex, s, env, m.card)
    ensures m in DuringList(device, list, s.exact) ==> m.exact == s.exact
  {
    assert Last(list) in list.moments;
    if m in DuringList(device, list, s.exact) {
      var k :| 0 <= k < |list.moments| && m == DuringList(device, list, s.exact)[k];
      assert list.moments[k] in list.moments;
    }
  }

  lemma MomentsOfCycle(p: Flash.Params, shaHex: seq<byte> -> seq<byte>, s: System, env: Env, m: System)
    requires Flash.DeviceOk(p, s.device) && Flash.EnvOk(p, env.bloom)
    requires m in UpdateCycle(p, shaHex, s, env).moments
    ensures FlashMoment(p, s, env, m.device) && CardMoment(p, shaHex, s, env, m.card)
    ensures m.exact == s.exact || m.exact == LoadedList(m.card, env.loadOk)
  {
    CardBetweenSynced(p, s, env);
    var bloom := Flash.Update(p, s.device, env.bloom);
    if m in DuringBloom(s, bloom) {
      MomentsDuringBloom(p, shaHex, s, env, m);
    } else {
      assert Last(bloom) in bloom.moments;
      MomentsDuringList(p, shaHex, s, env, m, Last(bloom), ListAttempt(shaHex, s, FlashCommits(p, s, env), env.list));
    }
  }

  lemma CommittedIsSound(p: Flash.Params, lists: set<seq<Name>>, d: Flash.Device)
    requires DeviceSound(p, lists, d)
    ensures DeviceSound(p, lists, Flash.Committed(d))
  {
  }

  lemma CycleDeviceIsSound(p: Flash.Params, lists: set<seq<Name>>, s: System, env: Env, d: Flash.Device)
    requires DeviceSound(p, lists, s.device) && Flash.EnvOk(p, env.bloom) && FlashMoment(p, s, env, d)
    requires Flash.Settled(s.device) || !Flash.Begins(p, s.device, env.bloom)
    requires env.bloom.download.Some? && Flash.ImageValid(p, env.bloom.download.value) ==>
               Serves(lists, env.bloom.download.value)
    ensures DeviceSound(p, lists, d)
  {
    var b :| b in Flash.Update(p, s.device, env.bloom).moments && (d == b || d == Flash.Committed(b));
    DeviceMomentIsSound(p, lists, s.device, env.bloom, b);
    CommittedIsSound(p, lists, b);
  }

  lemma CycleCardIsSound(p: Flash.Params, shaHex: seq<byte> -> seq<byte>, lists: set<seq<Name>>,
                         s: System, env: Env, c: Sd.Card)
    requires Flash.DeviceOk(p, s.device) && Flash.EnvOk(p, env.bloom)
    requires CardSound(lists, s.card) && CardReady(p, s, env) && CardMoment(p, shaHex, s, env, c)
    requires Sd.Matches(shaHex, env.list) ==> Indexes(lists, env.list.transfer.content)
    ensures CardSound(lists, c)
  {
    CardBetweenSynced(p, s, env);
    var mid := CardBetween(s.card, FlashCommits(p, s, env));
    assert CardSound(lists, Sd.Committed(s.card));
    if c in Sd.Update(shaHex, mid, env.list).moments {
      CardMomentIsSound(shaHex, lists, mid, env.list, c);
    }
  }

  /** At every moment of an update cycle what is enforced is published, and so is what a power
      loss at that moment would leave to be enforced. */
  lemma EveryMomentEnforces(p: Flash.Params, shaHex: seq<byte> -> seq<byte>, lists: set<seq<Name>>,
                            s: System, env: Env, m: System)
    requires AllPublished(lists) && Sound(p, lists, s) && Honest(p, shaHex, lists, env) && Permitted(p, s, env)
    requires m in UpdateCycle(p, shaHex, s, env).moments
    ensures Sound(p, lists, m) && Enforces(lists, p, m)
  {
    MomentsOfCycle(p, shaHex, s, env, m);
    CycleDeviceIsSound(p, lists, s, env, m.device);
    CycleCardIsSound(p, shaHex, lists, s, env, m.card);
    LoadedIsPublished(lists, m.card, env.loadOk);
  }

  /** What happens around a power loss: which slot bytes that wait for their commit have
      reached the flash by then, and whether mapping and loading work at boot. */
  datatype BootEnv = BootEnv(bloomCommitted: bool, listCommitted: bool, mapOk: bool, loadOk: bool)

  /** A cycle left to finish; a cycle cut off by a power loss; a power loss at rest; a commit
      made for another setting, which takes the slot bytes with it. */
  datatype Event =
    | Checked(env: Env)
    | Interrupted(env: Env, at: nat, boot: BootEnv)
    | Booted(boot: BootEnv)
    | OtherCommit

  function Boot(p: Flash.Params, s: System, boot: BootEnv): System
    requires SizeTypeOk(p)
  {
    var card := Sd.PowerCycled(s.card, boot.listCommitted);
    System(Flash.PowerCycled(p, s.device, boot.bloomCommitted, boot.mapOk), card, LoadedList(card, boot.loadOk))
  }

  function MomentAt(r: Attempt<bool, System>, at: nat): (m: System)
    requires r.moments != []
    ensures m in r.moments
  {
    if at < |r.moments| then r.moments[at] else Last(r)
  }

  predicate CycleOk(p: Flash.Params, s: System, e: Event) {
    (e.Checked? || e.Interrupted?) ==> Flash.DeviceOk(p, s.device) && Flash.EnvOk(p, e.env.bloom)
  }

  function After(p: Flash.Params, shaHex: seq<byte> -> seq<byte>, s: System, e: Event): System
    requires SizeTypeOk(p)
  {
    if !CycleOk(p, s, e) then s
    else
      match e
      case Checked(env) => Last(UpdateCycle(p, shaHex, s, env))
      case Interrupted(env, at, boot) => Boot(p, MomentAt(UpdateCycle(p, shaHex, s, env), at), boot)
      case Booted(boot) => Boot(p, s, boot)
      case OtherCommit => System(Flash.Committed(s.device), Sd.Committed(s.card), s.exact)
  }

  function History(p: Flash.Params, shaHex: seq<byte> -> seq<byte>, s: System, events: seq<Event>): System
    requires SizeTypeOk(p)
  {
    if events == [] then s
    else After(p, shaHex, History(p, shaHex, s, events[..|events| - 1]), events[|events| - 1])
  }

  ghost predicate Admissible(p: Flash.Params, shaHex: seq<byte> -> seq<byte>, lists: set<seq<Name>>, s: System,
                             e: Event)
    requires SizeTypeOk(p)
  {
    (e.Checked? || e.Interrupted?) ==>
      Honest(p, shaHex, lists, e.env) && Flash.DeviceOk(p, s.device) && Permitted(p, s, e.env)
  }

  ghost predicate AdmissibleRun(p: Flash.Params, shaHex: seq<byte> -> seq<byte>, lists: set<seq<Name>>,
                                s: System, events: seq<Event>)
    requires SizeTypeOk(p)
  {
    events != [] ==>
      && AdmissibleRun(p, shaHex, lists, s, events[..|events| - 1])
      && Admissible(p, shaHex, lists, History(p, shaHex, s, events[..|events| - 1]), events[|events| - 1])
  }

  lemma BootIsSound(p: Flash.Params, lists: set<seq<Name>>, s: System, boot: BootEnv)
    requires AllPublished(lists) && Sound(p, lists, s)
    ensures Sound(p, lists, Boot(p, s, boot))
  {
    var flash := if boot.bloomCommitted then Flash.Committed(s.device) else s.device;
    ReloadedSound(p, lists, flash.(active := flash.stored, mapping := None, source := Flash.NoFilter), boot.mapOk);
    LoadedIsPublished(lists, Sd.PowerCycled(s.card, boot.listCommitted), boot.loadOk);
  }

  lemma EventIsSound(p: Flash.Params, shaHex: seq<byte> -> seq<byte>, lists: set<seq<Name>>, s: System, e: Event)
    requires AllPublished(lists) && Sound(p, lists, s) && Admissible(p, shaHex, lists, s, e)
    ensures Sound(p, lists, After(p, shaHex, s, e))
  {
    match e
    case Checked(env) =>
      var r := UpdateCycle(p, shaHex, s, env);
      EveryMomentEnforces(p, shaHex, lists, s, env, r.moments[|r.moments| - 1]);
    case Interrupted(env, at, boot) =>
      var m := MomentAt(UpdateCycle(p, shaHex, s, env), at);
      EveryMomentEnforces(p, shaHex, lists, s, env, m);
      BootIsSound(p, lists, m, boot);
    case Booted(boot) => BootIsSound(p, lists, s, boot);
    case OtherCommit =>
  }

  /** Through any history of update cycles, independent successes and failures of the two
      artifacts, power losses at any moment and reboots: what is enforced is published, as
      long as every cycle is permitted. */
  lemma {:induction false} EveryHistoryEnforces(p: Flash.Params, shaHex: seq<byte> -> seq<byte>, lists: set<seq<Name>>,
                                                s: System, events: seq<Event>)
    requires AllPublished(lists) && Sound(p, lists, s) && AdmissibleRun(p, shaHex, lists, s, events)
    ensures Sound(p, lists, History(p, shaHex, s, events))
    ensures Enforces(lists, p, History(p, shaHex, s, events))
  {
    if events != [] {
      var init := events[..|events| - 1];
      EveryHistoryEnforces(p, shaHex, lists, s, init);
      EventIsSound(p, shaHex, lists, History(p, shaHex, s, init), events[|events| - 1]);
    }
  }

  ghost predicate CommitsSucceed(e: Event) {
    (e.Checked? || e.Interrupted?) ==> !e.env.bloom.flip.CommitFailed? && !e.env.list.flip.CommitFailed?
  }

  lemma CycleStaysSettled(p: Flash.Params, shaHex: seq<byte> -> seq<byte>, s: System, env: Env)
    requires Flash.DeviceOk(p, s.device) && Flash.EnvOk(p, env.bloom)
    requires Flash.Settled(s.device) && Sd.Synced(s.card)
    requires !env.bloom.flip.CommitFailed? && !env.list.flip.CommitFailed?
    ensures var end := Last(UpdateCycle(p, shaHex, s, env));
            Flash.Settled(end.device) && Sd.Synced(end.card)
  {
    var ok := Flash.Update(p, s.device, env.bloom).result.Ok?;
    Flash.CoherenceIsKeptExactly(p, s.device, env.bloom);
    Flash.SyncIsKeptExactly(p, s.device, env.bloom);
    Sd.SyncIsKeptExactly(shaHex, CardBetween(s.card, ok), env.list);
    LastOfCycle(p, shaHex, s, env);
  }

  lemma LastOfCycle(p: Flash.Params, shaHex: seq<byte> -> seq<byte>, s: System, env: Env)
    requires Flash.DeviceOk(p, s.device) && Flash.EnvOk(p, env.bloom)
    ensures var end, bloom := Last(UpdateCycle(p, shaHex, s, env)), Flash.Update(p, s.device, env.bloom);
            var list := ListAttempt(shaHex, s, bloom.result.Ok?, env.list);
            end.device == DeviceAfter(Last(bloom), list.result.Ok?) && end.card == Last(list)
  {
  }

  lemma BootSettles(p: Flash.Params, s: System, boot: BootEnv)
    requires SizeTypeOk(p)
    ensures Flash.Settled(Boot(p, s, boot).device) && Sd.Synced(Boot(p, s, boot).card)
  {
  }

  lemma SettledStays(p: Flash.Params, shaHex: seq<byte> -> seq<byte>, s: System, e: Event)
    requires SizeTypeOk(p) && Flash.Settled(s.device) && Sd.Synced(s.card) && CommitsSucceed(e)
    ensures Flash.Settled(After(p, shaHex, s, e).device) && Sd.Synced(After(p, shaHex, s, e).card)
  {
    if CycleOk(p, s, e) {
      match e
      case Checked(env) => CycleStaysSettled(p, shaHex, s, env);
      case Interrupted(env, at, boot) => BootSettles(p, MomentAt(UpdateCycle(p, shaHex, s, env), at), boot);
      case Booted(boot) => BootSettles(p, s, boot);
      case OtherCommit =>
    }
  }

  /** Waiting slot changes come from failed commits only: where every commit succeeds, honest
      fetches are all a history needs. */
  lemma {:induction false} HonestHistoryEnforces(p: Flash.Params, shaHex: seq<byte> -> seq<byte>, lists: set<seq<Name>>,
                                                 s: System, events: seq<Event>)
    requires AllPublished(lists) && Sound(p, lists, s) && Flash.Settled(s.device) && Sd.Synced(s.card)
    requires forall e :: e in events ==>
               CommitsSucceed(e) && (e.Checked? || e.Interrupted? ==> Honest(p, shaHex, lists, e.env))
    ensures AdmissibleRun(p, shaHex, lists, s, events) && Enforces(lists, p, History(p, shaHex, s, events))
    ensures Flash.Settled(History(p, shaHex, s, events).device) && Sd.Synced(History(p, shaHex, s, events).card)
  {
    if events != [] {
      var init, e := events[..|events| - 1], events[|events| - 1];
      HonestHistoryEnforces(p, shaHex, lists, s, init);
      EveryHistoryEnforces(p, shaHex, lists, s, init);
      assert e in events;
      SettledStays(p, shaHex, History(p, shaHex, s, init), e);
    }
    EveryHistoryEnforces(p, shaHex, lists, s, events);
  }

  // ----------------------------------------------------- what works, does install

  /** domains.idx.sha256 as the builder writes it: the digest of the index file and a newline. */
  function DigestFile(shaHex: seq<byte> -> seq<byte>, l: seq<Name>): seq<byte> {
    shaHex(IndexFile(l)) + [10]
  }

  /** An intact list and its digest file, with nothing else failing, install the list. */
  lemma IntactListIsInstalled(p: Flash.Params, shaHex: seq<byte> -> seq<byte>, s: System, env: Env, l: seq<Name>)
    requires Flash.DeviceOk(p, s.device) && Flash.EnvOk(p, env.bloom) && Published(l)
    requires env.list.mounted && env.list.readable && env.list.flip.Flipped? && env.loadOk
    requires env.list.transfer.Streamed? && env.list.transfer.received > 0 && env.list.transfer.content == IndexFile(l)
    requires env.list.sha == Some(DigestFile(shaHex, l)) && Sd.IsHexDigest(shaHex(IndexFile(l)))
    ensures var end := Last(UpdateCycle(p, shaHex, s, env));
            end.exact == l && Sd.Opened(end.card) == Some(IndexFile(l)) && Sd.Synced(end.card)
  {
    var ok := Flash.Update(p, s.device, env.bloom).result.Ok?;
    var card := CardBetween(s.card, ok);
    Sd.DigestDecides(shaHex, card, env.list, shaHex(IndexFile(l)), [10]);
    Sd.ActivationMeansDigestMatched(shaHex, card, env.list);
    Sd.SyncIsKeptExactly(shaHex, card, env.list);
    IndexHasLines(l);
    InstalledEnd(p, shaHex, s, env);
    PublishedIndexLoads(l);
  }

  lemma IndexHasLines(l: seq<Name>)
    requires Published(l)
    ensures SplitLines(IndexFile(l)).lines != []
  {
    PublishedIndexLoads(l);
  }

  /** An intact image, with nothing else failing, puts the published filter into service. */
  lemma IntactImageIsInstalled(p: Flash.Params, shaHex: seq<byte> -> seq<byte>, s: System, env: Env,
                               pub: Publication, l: seq<Name>)
    requires Flash.DeviceOk(p, s.device) && Flash.EnvOk(p, env.bloom) && PublicationOk(p, pub)
    requires BloomFormat.Built(pub.bits, l, pub.mBits, pub.kHashes)
    requires p.hasA && p.hasB && env.bloom.memOk && env.bloom.eraseOk && env.bloom.writeOk && env.bloom.mapOk
    requires env.bloom.flip.Flipped? && env.bloom.download == Some(ImageOf(pub))
    ensures var d := Last(Flash.Update(p, s.device, env.bloom));
            && d.source.FromPartition? && Flash.Settled(d) && RunningFilter(p, d).Some?
            && BloomFormat.BuiltFilter(RunningFilter(p, d).value, l)
  {
    OnlyIntactPasses(p, pub, Intact);
    assert Flash.ReachesSwitch(p, s.device, env.bloom);
    Flash.SuccessMeansSwitched(p, s.device, env.bloom);
    Flash.SwitchedEnd(p, s.device, env.bloom);
    Flash.ValidWhenMapped(p, ImageOf(pub));
    BloomFormat.ImageIsBuiltFilter(pub.mBits, pub.kHashes, pub.nDomains, pub.ts, pub.bits,
                                   Flash.Blank(p.partSize - |ImageOf(pub)|), l);
  }

  lemma InstalledEnd(p: Flash.Params, shaHex: seq<byte> -> seq<byte>, s: System, env: Env)
    requires Flash.DeviceOk(p, s.device) && Flash.EnvOk(p, env.bloom)
    ensures var end, bloom := Last(UpdateCycle(p, shaHex, s, env)), Flash.Update(p, s.device, env.bloom);
            var list := ListAttempt(shaHex, s, bloom.result.Ok?, env.list);
            end.card == Last(list) && (list.result.Ok? ==> end.exact == LoadedList(Last(list), env.loadOk))
  {
  }

  /** A card from before the two slots, with its single list file, keeps working. */
  lemma LegacyListIsLoaded(c: Sd.Card, l: seq<Name>)
    requires c.a.None? && c.b.None? && c.legacy == Some(IndexFile(l)) && Published(l)
    ensures LoadedList(c, true) == l
  {
    PublishedIndexLoads(l);
  }

  /** The updater's loader is the proxy's: the filter in use after a reload is the one loaded from
      the named partition if it can be mapped and holds one, else the embedded one. */
  lemma ReloadedIsLoaded(p: Flash.Params, d: Flash.Device, mapOk: bool)
    requires Flash.DeviceOk(p, d)
    ensures var found := if SecondNamed(d.active) then p.hasB else p.hasA;
            var mapped := if found && mapOk then Some(Flash.Named(d)) else None;
            var r := Flash.Reloaded(p, d, mapOk);
            && RunningFilter(p, r) == LoadedFilter(mapped, p.seed, p.sizeMod)
            && (r.source.FromSeed? <==> UsesSeed(mapped, p.seed, p.sizeMod))
  {
  }

  /** A new device, its flash blank, protects with the embedded list from the first boot on. */
  lemma BlankDeviceRunsSeed(p: Flash.Params, s: System, boot: BootEnv, pub: Publication, l: seq<Name>)
    requires Flash.DeviceOk(p, s.device) && PublicationOk(p, pub) && p.seed == ImageOf(pub)
    requires BloomFormat.Built(pub.bits, l, pub.mBits, pub.kHashes)
    requires s.device.a == Flash.Blank(p.partSize) == s.device.b
    ensures var d := Boot(p, s, boot).device;
            && d.source.FromSeed? && RunningFilter(p, d).Some?
            && BloomFormat.BuiltFilter(RunningFilter(p, d).value, l)
  {
    BloomFilter.BlankIsRejected(Flash.Blank(p.partSize), p.sizeMod);
    assert ImageOf(pub) + [] == ImageOf(pub);
    BloomFormat.ImageIsAccepted(pub.mBits, pub.kHashes, pub.nDomains, pub.ts, pub.bits, [], p.sizeMod);
    BloomFormat.ImageIsBuiltFilter(pub.mBits, pub.kHashes, pub.nDomains, pub.ts, pub.bits, [], l);
  }

  // ----------------------------------------------------------- exact conditions

  lemma BlankServesNothing(p: Flash.Params, l: seq<Name>)
    requires BloomFilter.HEADER_LEN <= p.partSize < M32
    ensures !BloomFormat.BuiltFilter(BloomFilter.FilterOf(Flash.Blank(p.partSize)), l)
  {
    var ones: seq<byte> := [255, 255, 255, 255, 255, 255, 255, 255];
    assert Flash.Blank(p.partSize)[8..16] == ones;
    assert LeNat(ones) == M64 - 1;
  }

  /** Nothing need be waiting: with the mapping off the named partition, as a failed commit and a
      commit for another setting leave it, an attempt that gets to erase blanks the running
      filter, which then enforces no published list. */
  lemma ErasedFilterIsNotEnforced(p: Flash.Params, shaHex: seq<byte> -> seq<byte>, lists: set<seq<Name>>,
                                  s: System, env: Env)
    requires Sound(p, lists, s) && Flash.EnvOk(p, env.bloom) && p.partSize < M32
    requires s.device.source.FromPartition? && !Flash.Coherent(s.device)
    requires Flash.Begins(p, s.device, env.bloom) && env.bloom.eraseOk
    ensures exists m :: m in UpdateCycle(p, shaHex, s, env).moments && !Enforces(lists, p, m)
  {
    var erased := Flash.SetPart(s.device, !SecondNamed(s.device.active), Flash.Blank(p.partSize));
    Flash.EraseIsAMoment(p, s.device, env.bloom);
    FlashMomentIsMoment(p, shaHex, s, env, erased);
    forall l ensures !BloomFormat.BuiltFilter(BloomFilter.FilterOf(Flash.Blank(p.partSize)), l) {
      BlankServesNothing(p, l);
    }
    assert RunningFilter(p, erased) == FilterIn(Flash.Blank(p.partSize));
  }

  lemma FlashMomentIsMoment(p: Flash.Params, shaHex: seq<byte> -> seq<byte>, s: System, env: Env, m: Flash.Device)
    requires Flash.DeviceOk(p, s.device) && Flash.EnvOk(p, env.bloom)
    requires m in Flash.Update(p, s.device, env.bloom).moments
    ensures exists c :: System(m, c, s.exact) in UpdateCycle(p, shaHex, s, env).moments
  {
    var bloom := Flash.Update(p, s.device, env.bloom);
    var k :| 0 <= k < |bloom.moments| && bloom.moments[k] == m;
    var during := DuringBloom(s, bloom);
    assert during[k] == System(m, during[k].card, s.exact);
    assert UpdateCycle(p, shaHex, s, env).moments[k] == during[k];
  }

  lemma CardMomentIsMoment(p: Flash.Params, shaHex: seq<byte> -> seq<byte>, s: System, env: Env, m: Sd.Card)
    requires Flash.DeviceOk(p, s.device) && Flash.EnvOk(p, env.bloom)
    requires m in Sd.Update(shaHex, CardBetween(s.card, FlashCommits(p, s, env)), env.list).moments
    ensures exists d :: System(d, m, s.exact) in UpdateCycle(p, shaHex, s, env).moments
  {
    CardBetweenSynced(p, s, env);
    var bloom := Flash.Update(p, s.device, env.bloom);
    var list := ListAttempt(shaHex, s, bloom.result.Ok?, env.list);
    var k :| 0 <= k < |list.moments| && list.moments[k] == m;
    var during := DuringList(Last(bloom), list, s.exact);
    assert during[k] == System(during[k].device, m, s.exact);
    assert UpdateCycle(p, shaHex, s, env).moments[|bloom.moments| + k] == during[k];
  }

  /** Enforcing published lists, from valid flash and a list on the card, now and after a power
      loss at this moment. */
  ghost predicate Serving(p: Flash.Params, lists: set<seq<Name>>, s: System) {
    Sound(p, lists, s) && Flash.InService(p, s.device) && Sd.HasList(s.card)
  }

  /** No attempt gets to erase unless the mapping is on the named partition and no slot change
      waits for its commit, and none receives a list while one still waits on the card. */
  ghost predicate Guarded(p: Flash.Params, s: System, env: Env)
    requires Flash.DeviceOk(p, s.device) && Flash.EnvOk(p, env.bloom)
  {
    && (Flash.Settled(s.device) || !(Flash.Begins(p, s.device, env.bloom) && Flash.Loses(p, env.bloom)))
    && CardReady(p, s, env)
  }

  /** ... and what a failing erase leaves passes the updater's checks only if it is published. */
  ghost predicate HonestCycle(p: Flash.Params, shaHex: seq<byte> -> seq<byte>, lists: set<seq<Name>>, env: Env)
    requires SizeTypeOk(p)
  {
    && Honest(p, shaHex, lists, env)
    && forall x :: x in env.bloom.eraseTrail && Flash.ImageValid(p, x) ==> Serves(lists, x)
  }

  lemma ReplacedIsSound(p: Flash.Params, lists: set<seq<Name>>, d: Flash.Device, second: bool, x: seq<byte>)
    requires DeviceSound(p, lists, d) && |x| == p.partSize && Serves(lists, x)
    ensures DeviceSound(p, lists, Flash.SetPart(d, second, x))
  {
  }

  lemma TrailMomentIsSound(p: Flash.Params, lists: set<seq<Name>>, d: Flash.Device, env: Flash.Env, m: Flash.Device)
    requires DeviceSound(p, lists, d) && Flash.EnvOk(p, env) && m in Flash.Update(p, d, env).moments
    requires Flash.Begins(p, d, env) && !Flash.Loses(p, env)
    requires forall x :: x in env.eraseTrail && Flash.ImageValid(p, x) ==> Serves(lists, x)
    ensures DeviceSound(p, lists, m)
  {
    Flash.FailedErase(p, d, env, m);
    if m != d {
      var x :| x in env.eraseTrail && m == Flash.SetPart(d, !SecondNamed(d.active), x);
      assert Flash.ImageValid(p, x);
      ReplacedIsSound(p, lists, d, !SecondNamed(d.active), x);
    }
  }

  lemma GuardedDeviceServes(p: Flash.Params, lists: set<seq<Name>>, s: System, env: Env, d: Flash.Device)
    requires DeviceSound(p, lists, s.device) && Flash.InService(p, s.device)
    requires Flash.EnvOk(p, env.bloom) && FlashMoment(p, s, env, d)
    requires Flash.Settled(s.device) || !(Flash.Begins(p, s.device, env.bloom) && Flash.Loses(p, env.bloom))
    requires env.bloom.download.Some? && Flash.ImageValid(p, env.bloom.download.value) ==>
               Serves(lists, env.bloom.download.value)
    requires forall x :: x in env.bloom.eraseTrail && Flash.ImageValid(p, x) ==> Serves(lists, x)
    ensures DeviceSound(p, lists, d) && Flash.InService(p, d)
  {
    var b :| b in Flash.Update(p, s.device, env.bloom).moments && (d == b || d == Flash.Committed(b));
    Flash.AttemptIsInServiceExactly(p, s.device, env.bloom);
    assert Flash.InService(p, b);
    if Flash.Settled(s.device) || !Flash.Begins(p, s.device, env.bloom) {
      DeviceMomentIsSound(p, lists, s.device, env.bloom, b);
    } else {
      TrailMomentIsSound(p, lists, s.device, env.bloom, b);
    }
    CommittedIsSound(p, lists, b);
  }

  lemma GuardedMomentServes(p: Flash.Params, shaHex: seq<byte> -> seq<byte>, lists: set<seq<Name>>,
                            s: System, env: Env, m: System)
    requires AllPublished(lists) && Serving(p, lists, s) && HonestCycle(p, shaHex, lists, env) && Guarded(p, s, env)
    requires m in UpdateCycle(p, shaHex, s, env).moments
    ensures Serving(p, lists, m)
  {
    MomentsOfCycle(p, shaHex, s, env, m);
    GuardedDeviceServes(p, lists, s, env, m.device);
    CycleCardIsSound(p, shaHex, lists, s, env, m.card);
    CycleCardHasList(p, shaHex, lists, s, env, m.card);
    LoadedIsPublished(lists, m.card, env.loadOk);
  }

  lemma CycleCardHasList(p: Flash.Params, shaHex: seq<byte> -> seq<byte>, lists: set<seq<Name>>,
                         s: System, env: Env, c: Sd.Card)
    requires Flash.DeviceOk(p, s.device) && Flash.EnvOk(p, env.bloom)
    requires Sd.HasList(s.card) && CardReady(p, s, env) && CardMoment(p, shaHex, s, env, c)
    requires Sd.Matches(shaHex, env.list) ==> Indexes(lists, env.list.transfer.content)
    ensures Sd.HasList(c)
  {
    CardBetweenSynced(p, s, env);
    assert Sd.HasList(Sd.Committed(s.card));
    Sd.AttemptKeepsListExactly(shaHex, CardBetween(s.card, FlashCommits(p, s, env)), env.list);
  }

  lemma UnreadyCardLosesList(p: Flash.Params, shaHex: seq<byte> -> seq<byte>, s: System, env: Env)
    requires Flash.DeviceOk(p, s.device) && Flash.EnvOk(p, env.bloom) && !CardReady(p, s, env)
    ensures exists m :: m in UpdateCycle(p, shaHex, s, env).moments && !Sd.HasList(m.card)
  {
    Sd.TruncatedIsAMoment(shaHex, s.card, env.list);
    var m :| m in Sd.Update(shaHex, s.card, env.list).moments && Sd.Surviving(m) == Some([]);
    CardMomentIsMoment(p, shaHex, s, env, m);
  }

  lemma UnguardedDeviceFails(p: Flash.Params, shaHex: seq<byte> -> seq<byte>, s: System, env: Env)
    requires Flash.DeviceOk(p, s.device) && Flash.EnvOk(p, env.bloom) && Flash.InService(p, s.device)
    requires !Flash.Settled(s.device) && Flash.Begins(p, s.device, env.bloom) && Flash.Loses(p, env.bloom)
    ensures exists m :: m in UpdateCycle(p, shaHex, s, env).moments && !Flash.InService(p, m.device)
  {
    Flash.AttemptIsInServiceExactly(p, s.device, env.bloom);
    var m :| m in Flash.Update(p, s.device, env.bloom).moments && !Flash.InService(p, m);
    FlashMomentIsMoment(p, shaHex, s, env, m);
  }

  /** Every moment of a cycle serves if and only if the cycle is guarded. */
  lemma CycleServesExactly(p: Flash.Params, shaHex: seq<byte> -> seq<byte>, lists: set<seq<Name>>, s: System, env: Env)
    requires AllPublished(lists) && Serving(p, lists, s) && HonestCycle(p, shaHex, lists, env)
    ensures (forall m :: m in UpdateCycle(p, shaHex, s, env).moments ==> Serving(p, lists, m)) <==> Guarded(p, s, env)
  {
    if Guarded(p, s, env) {
      forall m | m in UpdateCycle(p, shaHex, s, env).moments ensures Serving(p, lists, m) {
        GuardedMomentServes(p, shaHex, lists, s, env, m);
      }
    } else if !CardReady(p, s, env) {
      UnreadyCardLosesList(p, shaHex, s, env);
    } else {
      UnguardedDeviceFails(p, shaHex, s, env);
    }
  }

  ghost predicate GuardedStep(p: Flash.Params, s: System, e: Event) {
    CycleOk(p, s, e) && (e.Checked? || e.Interrupted?) ==> Guarded(p, s, e.env)
  }

  ghost predicate ServingStep(p: Flash.Params, shaHex: seq<byte> -> seq<byte>, lists: set<seq<Name>>,
                              s: System, e: Event)
    requires SizeTypeOk(p)
  {
    CycleOk(p, s, e) && (e.Checked? || e.Interrupted?) ==>
      forall m :: m in UpdateCycle(p, shaHex, s, e.env).moments ==> Serving(p, lists, m)
  }

  ghost predicate AlwaysGuarded(p: Flash.Params, shaHex: seq<byte> -> seq<byte>, s: System, events: seq<Event>)
    requires SizeTypeOk(p)
  {
    events != [] ==>
      && AlwaysGuarded(p, shaHex, s, events[..|events| - 1])
      && GuardedStep(p, History(p, shaHex, s, events[..|events| - 1]), events[|events| - 1])
  }

  ghost predicate AlwaysServing(p: Flash.Params, shaHex: seq<byte> -> seq<byte>, lists: set<seq<Name>>,
                                s: System, events: seq<Event>)
    requires SizeTypeOk(p)
  {
    events != [] ==>
      && AlwaysServing(p, shaHex, lists, s, events[..|events| - 1])
      && ServingStep(p, shaHex, lists, History(p, shaHex, s, events[..|events| - 1]), events[|events| - 1])
  }

  lemma BootServes(p: Flash.Params, lists: set<seq<Name>>, s: System, boot: BootEnv)
    requires AllPublished(lists) && Serving(p, lists, s)
    ensures Serving(p, lists, Boot(p, s, boot))
  {
    BootIsSound(p, lists, s, boot);
    Flash.PowerCycledInService(p, s.device, boot.bloomCommitted, boot.mapOk);
  }

  lemma EndServes(p: Flash.Params, lists: set<seq<Name>>, r: Attempt<bool, System>)
    requires r.moments != [] && forall m :: m in r.moments ==> Serving(p, lists, m)
    ensures Serving(p, lists, Last(r))
  {
    assert Last(r) in r.moments;
  }

  lemma CutServes(p: Flash.Params, lists: set<seq<Name>>, r: Attempt<bool, System>, at: nat, boot: BootEnv)
    requires AllPublished(lists) && SizeTypeOk(p)
    requires r.moments != [] && forall m :: m in r.moments ==> Serving(p, lists, m)
    ensures Serving(p, lists, Boot(p, MomentAt(r, at), boot))
  {
    BootServes(p, lists, MomentAt(r, at), boot);
  }

  lemma EventServes(p: Flash.Params, shaHex: seq<byte> -> seq<byte>, lists: set<seq<Name>>, s: System, e: Event)
    requires AllPublished(lists) && Serving(p, lists, s) && ServingStep(p, shaHex, lists, s, e)
    ensures Serving(p, lists, After(p, shaHex, s, e))
  {
    if CycleOk(p, s, e) {
      match e
      case Checked(env) => EndServes(p, lists, UpdateCycle(p, shaHex, s, env));
      case Interrupted(env, at, boot) => CutServes(p, lists, UpdateCycle(p, shaHex, s, env), at, boot);
      case Booted(boot) => BootServes(p, lists, s, boot);
      case OtherCommit =>
    }
  }

  /** Over every history of honest cycles, whatever fails and wherever the power is lost: every
      moment serves if and only if every cycle is guarded. */
  lemma {:induction false} EveryHistoryServesExactly(p: Flash.Params, shaHex: seq<byte> -> seq<byte>,
                                                     lists: set<seq<Name>>, s: System, events: seq<Event>)
    requires AllPublished(lists) && Serving(p, lists, s)
    requires forall e :: e in events ==> (e.Checked? || e.Interrupted? ==> HonestCycle(p, shaHex, lists, e.env))
    ensures AlwaysServing(p, shaHex, lists, s, events) <==> AlwaysGuarded(p, shaHex, s, events)
    ensures AlwaysGuarded(p, shaHex, s, events) ==> Serving(p, lists, History(p, shaHex, s, events))
  {
    if events != [] {
      var init, e := events[..|events| - 1], events[|events| - 1];
      var before := History(p, shaHex, s, init);
      assert e in events;
      EveryHistoryServesExactly(p, shaHex, lists, s, init);
      if AlwaysGuarded(p, shaHex, s, init) {
        if CycleOk(p, before, e) && (e.Checked? || e.Interrupted?) {
          CycleServesExactly(p, shaHex, lists, before, e.env);
        }
        if GuardedStep(p, before, e) {
          EventServes(p, shaHex, lists, before, e);
        }
      }
    }
  }
}
