/** The A/B update of the bloom filter partitions (components/blocklist_updater/
    blocklist_updater.c) and the loader that maps the active one (components/dns_proxy/
    dns_proxy.c), with every state the flash passes through, so that a crash or a failure
    may strike between any two steps. */
module BloomUpdate {
  import opened Words
  import opened Options
  import opened Slots
  import opened BloomFilter
  import opened BloomFormat
  import Crc32

  /** What does not change: partition size and existence, the size of size_t, the seed. */
  datatype Params = Params(partSize: nat, hasA: bool, hasB: bool, sizeMod: nat, seed: seq<byte>)

  /** Which buffer the proxy's filter points into. */
  datatype Source = NoFilter | FromSeed | FromPartition(second: bool)

  /** Two partitions (bloom_a is the first slot, bloom_b the second), the slot byte the getter
      returns, and the slot byte a power loss leaves; the memory mapping the loader holds
      and the filter's source do not survive one. */
  datatype Device = Device(a: seq<byte>, b: seq<byte>, active: byte, stored: byte,
                           mapping: Option<bool>, source: Source)

  function Part(d: Device, second: bool): seq<byte> {
    if second then d.b else d.a
  }

  function SetPart(d: Device, second: bool, content: seq<byte>): Device {
    if second then d.(b := content) else d.(a := content)
  }

  /** The content of the partition the active slot names. */
  function Named(d: Device): seq<byte> {
    Part(d, SecondNamed(d.active))
  }

  /** ... and of the one it would name after a power loss. */
  function Surviving(d: Device): seq<byte> {
    Part(d, SecondNamed(d.stored))
  }

  /** No slot change is waiting for a commit. */
  predicate Synced(d: Device) {
    SecondNamed(d.stored) == SecondNamed(d.active)
  }

  predicate DeviceOk(p: Params, d: Device) {
    SizeType(p.sizeMod) && |d.a| == |d.b| == p.partSize
  }

  // ------------------------------------------------------------------ loading

  /** dns_proxy_reload_bloom_filter: the old mapping is dropped once the partition is found. */
  function Reloaded(p: Params, d: Device, mapOk: bool): Device
    requires SizeType(p.sizeMod)
  {
    var second := SecondNamed(d.active);
    var fallback := if Accepted(p.seed, p.sizeMod) then FromSeed else NoFilter;
    if !(if second then p.hasB else p.hasA) then d.(source := fallback)
    else if !mapOk || !Accepted(Part(d, second), p.sizeMod) then d.(mapping := None, source := fallback)
    else d.(mapping := Some(second), source := FromPartition(second))
  }

  /** A commit made on behalf of any other setting takes the slot byte with it. */
  function Committed(d: Device): Device {
    d.(stored := d.active)
  }

  /** Power-on: the mapping is gone, the loader runs on what the flash holds. */
  function Rebooted(p: Params, d: Device, mapOk: bool): Device
    requires SizeType(p.sizeMod)
  {
    Reloaded(p, d.(active := d.stored, mapping := None, source := NoFilter), mapOk)
  }

  // ------------------------------------------------------------------ updating

  datatype Result = Ok | NotFound | NoMem | Failed | InvalidResponse | InvalidCrc | FlashError | NvsError | OutOfBounds

  /** One attempt's environment. The trails are the contents the target passes through
      while it is being erased and written. */
  datatype Env = Env(memOk: bool, download: Option<seq<byte>>, eraseTrail: seq<seq<byte>>, eraseOk: bool,
                     writeTrail: seq<seq<byte>>, writeOk: bool, flip: Flip, mapOk: bool)

  predicate EnvOk(p: Params, env: Env) {
    && (env.download.Some? ==> |env.download.value| <= p.partSize)
    && (forall x :: x in env.eraseTrail ==> |x| == p.partSize)
    && (forall x :: x in env.writeTrail ==> |x| == p.partSize)
  }

  /** Header and checksum as the updater examines them. The checksum loop leaves the buffer
      when a wrapped length let a short buffer through; that run ends there. */
  function Validation(p: Params, image: seq<byte>): Result
    requires SizeType(p.sizeMod)
  {
    if !Accepted(image, p.sizeMod) then InvalidResponse
    else
      var f := FilterOf(image);
      var bytes := BitarrayBytes(f.header.mBits, p.sizeMod);
      if bytes > |f.bits| then OutOfBounds
      else if Crc32.Checksum(f.bits[..bytes]) != f.header.crc32 then InvalidCrc
      else Ok
  }

  function Blank(n: nat): (r: seq<byte>)
    ensures |r| == n
  {
    seq(n, _ => 255)
  }

  /** The content of a partition after an image was written over an erased one. */
  function Written(p: Params, image: seq<byte>): (r: seq<byte>)
    requires |image| <= p.partSize
    ensures |r| == p.partSize
  {
    image + Blank(p.partSize - |image|)
  }

  function Trail(d: Device, second: bool, contents: seq<seq<byte>>): (r: seq<Device>)
    ensures |r| == |contents|
    ensures forall i :: 0 <= i < |contents| ==> r[i] == SetPart(d, second, contents[i])
  {
    seq(|contents|, i requires 0 <= i < |contents| => SetPart(d, second, contents[i]))
  }

  /** What a partition held before does not show in what it is set to. */
  lemma TrailOverwrites(d: Device, second: bool, content: seq<byte>, contents: seq<seq<byte>>)
    ensures Trail(SetPart(d, second, content), second, contents) == Trail(d, second, contents)
    ensures forall x :: SetPart(SetPart(d, second, content), second, x) == SetPart(d, second, x)
  {
  }

  function EndOf(start: Device, r: Attempt<Result, Device>): Device {
    if r.moments == [] then start else Last(r)
  }

  function Update(p: Params, d: Device, env: Env): (r: Attempt<Result, Device>)
    requires DeviceOk(p, d) && EnvOk(p, env)
    ensures r.moments != []
  {
    var second := !SecondNamed(d.active);
    if !(if second then p.hasB else p.hasA) then Attempt(NotFound, [d])
    else if !env.memOk then Attempt(NoMem, [d])
    else if env.download.None? || env.download.value == [] then Attempt(Failed, [d])
    else if Validation(p, env.download.value) != Ok then Attempt(Validation(p, env.download.value), [d])
    else
      var rest := Install(p, d, second, env);
      Attempt(rest.result, [d] + rest.moments)
  }

  /** Every check before the first erased byte is passed. */
  predicate Begins(p: Params, d: Device, env: Env)
    requires DeviceOk(p, d) && EnvOk(p, env)
  {
    && (if SecondNamed(d.active) then p.hasA else p.hasB)
    && env.memOk
    && env.download.Some? && env.download.value != [] && ImageValid(p, env.download.value)
  }

  /** The attempt gets as far as setting the slot byte. */
  predicate ReachesSwitch(p: Params, d: Device, env: Env)
    requires DeviceOk(p, d) && EnvOk(p, env)
  {
    Begins(p, d, env) && env.eraseOk && env.writeOk
  }

  lemma NothingBegun(p: Params, d: Device, env: Env)
    requires DeviceOk(p, d) && EnvOk(p, env) && !Begins(p, d, env)
    ensures Update(p, d, env).moments == [d]
  {
  }

  /** From the first erased byte on. */
  function Install(p: Params, d: Device, second: bool, env: Env): Attempt<Result, Device>
    requires DeviceOk(p, d) && EnvOk(p, env) && env.download.Some?
  {
    var erasing := Trail(d, second, env.eraseTrail);
    if !env.eraseOk then Attempt(FlashError, erasing)
    else
      var rest := WriteAndActivate(p, d, second, env);
      Attempt(rest.result, erasing + [SetPart(d, second, Blank(p.partSize))] + rest.moments)
  }

  function WriteAndActivate(p: Params, d: Device, second: bool, env: Env): Attempt<Result, Device>
    requires DeviceOk(p, d) && EnvOk(p, env) && env.download.Some?
  {
    var writing := Trail(d, second, env.writeTrail);
    if !env.writeOk then Attempt(FlashError, writing)
    else
      var done := SetPart(d, second, Written(p, env.download.value));
      var rest := Activate(p, done, second, env);
      Attempt(rest.result, writing + [done] + rest.moments)
  }

  /** The flip of the slot byte and the reload. */
  function Activate(p: Params, d: Device, second: bool, env: Env): Attempt<Result, Device>
    requires DeviceOk(p, d)
  {
    var flipped := d.(active := SlotByte(second));
    match env.flip
    case NotStored => Attempt(NvsError, [])
    case CommitFailed => Attempt(NvsError, [flipped])
    case Flipped => Attempt(Ok, [flipped, Committed(flipped), Reloaded(p, Committed(flipped), env.mapOk)])
  }

  class Updater {
    const params: Params
    var partA: seq<byte>
    var partB: seq<byte>
    var active: byte
    var stored: byte
    var mapping: Option<bool>
    var source: Source
    /** Every state the flash and the mapping have been in since the attempt began. */
    ghost var moments: seq<Device>

    ghost function Abs(): Device
      reads this
    {
      Device(partA, partB, active, stored, mapping, source)
    }

    ghost predicate Valid()
      reads this
    {
      DeviceOk(params, Abs())
    }

    constructor (params: Params, a: seq<byte>, b: seq<byte>, stored: byte)
      requires SizeType(params.sizeMod) && |a| == |b| == params.partSize
      ensures Valid() && Abs() == Device(a, b, stored, stored, None, NoFilter) && this.params == params
    {
      this.params, partA, partB, active, this.stored := params, a, b, stored, stored;
      mapping, source, moments := None, NoFilter, [];
    }

    /** Erasing or writing a partition; a failure leaves it wherever the trail got to. */
    method WritePartition(second: bool, trail: seq<seq<byte>>, ok: bool, content: seq<byte>)
      requires Valid() && |content| == params.partSize
      requires forall x :: x in trail ==> |x| == params.partSize
      modifies this`partA, this`partB, this`moments
      ensures Valid()
      ensures moments == old(moments) + Trail(old(Abs()), second, trail) +
                         if ok then [SetPart(old(Abs()), second, content)] else []
      ensures Abs() == if ok then SetPart(old(Abs()), second, content)
                       else if trail == [] then old(Abs())
                       else SetPart(old(Abs()), second, trail[|trail| - 1])
    {
      moments := moments + Trail(Abs(), second, trail);
      var reached := if ok then [content] else if trail == [] then [] else [trail[|trail| - 1]];
      if reached != [] {
        if second {
          partB := reached[0];
        } else {
          partA := reached[0];
        }
      }
      moments := moments + if ok then [Abs()] else [];
    }

    method ReloadBloomFilter(mapOk: bool)
      requires Valid()
      modifies this`mapping, this`source
      ensures Valid() && Abs() == Reloaded(params, old(Abs()), mapOk)
    {
      var second := active != 0;
      var loaded := false;
      if if second then params.hasB else params.hasA {
        mapping := None;
        if mapOk {
          var r := Init(if second then partB else partA, params.sizeMod);
          loaded := r.Ready?;
        }
      }
      if loaded {
        mapping, source := Some(second), FromPartition(second);
        return;
      }
      var r := Init(params.seed, params.sizeMod);
      source := if r.Ready? then FromSeed else NoFilter;
    }

    /** A commit made on behalf of any other setting. */
    method CommitSlot()
      requires Valid()
      modifies this`stored
      ensures Valid() && Abs() == Committed(old(Abs()))
    {
      stored := active;
    }

    method Validate(image: seq<byte>) returns (result: Result)
      requires Valid()
      ensures result == Validation(params, image)
      ensures |image| >= BloomFilter.HEADER_LEN && GeometryFits(Unpack(image).mBits, params.sizeMod) ==>
                result != OutOfBounds
    {
      var r := Init(image, params.sizeMod);
      if r.Rejected? {
        return InvalidResponse;
      }
      var bytes := BitarrayBytes(r.filter.header.mBits, params.sizeMod);
      if bytes > |r.filter.bits| {
        return OutOfBounds;
      }
      var crc := Crc32.Crc32Ieee(r.filter.bits[..bytes]);
      return if crc != r.filter.header.crc32 then InvalidCrc else Ok;
    }

    /** update_bloom */
    method UpdateBloom(env: Env) returns (result: Result)
      requires Valid() && EnvOk(params, env)
      modifies this
      ensures result == Update(params, old(Abs()), env).result
      ensures moments == Update(params, old(Abs()), env).moments
      ensures Valid() && Abs() == Last(Update(params, old(Abs()), env))
    {
      moments := [Abs()];
      var second := active == 0;
      if !(if second then params.hasB else params.hasA) {
        return NotFound;
      }
      if !env.memOk {
        return NoMem;
      }
      if env.download.None? || env.download.value == [] {
        return Failed;
      }
      result := Validate(env.download.value);
      if result != Ok {
        return;
      }
      ghost var d := Abs();
      result := InstallImage(second, env);
      LastAfter(d, Install(params, d, second, env));
    }

    method InstallImage(second: bool, env: Env) returns (result: Result)
      requires Valid() && EnvOk(params, env) && env.download.Some?
      modifies this
      ensures Did(old(Abs()), old(moments), result, Install(params, old(Abs()), second, env))
    {
      WritePartition(second, env.eraseTrail, env.eraseOk, Blank(params.partSize));
      if !env.eraseOk {
        return FlashError;
      }
      result := WriteImage(second, env, old(Abs()));
    }

    /** After the erase: the write, and then the switch. */
    method WriteImage(second: bool, env: Env, ghost d: Device) returns (result: Result)
      requires Valid() && EnvOk(params, env) && env.download.Some? && DeviceOk(params, d)
      requires Abs() == SetPart(d, second, Blank(params.partSize))
      modifies this
      ensures Did(old(Abs()), old(moments), result, WriteAndActivate(params, d, second, env))
    {
      TrailOverwrites(d, second, Blank(params.partSize), env.writeTrail);
      WritePartition(second, env.writeTrail, env.writeOk, Written(params, env.download.value));
      if !env.writeOk {
        return FlashError;
      }
      result := ActivateSlot(second, env);
    }

    method ActivateSlot(second: bool, env: Env) returns (result: Result)
      requires Valid()
      modifies this
      ensures Did(old(Abs()), old(moments), result, Activate(params, old(Abs()), second, env))
    {
      if env.flip.NotStored? {
        return NvsError;
      }
      active := SlotByte(second);
      moments := moments + [Abs()];
      if env.flip.CommitFailed? {
        return NvsError;
      }
      stored := active;
      moments := moments + [Abs()];
      ReloadBloomFilter(env.mapOk);
      moments := moments + [Abs()];
      return Ok;
    }

    /** This part of an attempt has been carried out, up to its last moment. */
    ghost predicate Did(start: Device, earlier: seq<Device>, result: Result, r: Attempt<Result, Device>)
      reads this
    {
      Valid() && result == r.result && moments == earlier + r.moments && Abs() == EndOf(start, r)
    }
  }

  // ------------------------------------------------------------ crash safety

  /** Passed header and checksum validation. */
  predicate ImageValid(p: Params, image: seq<byte>)
    requires SizeType(p.sizeMod)
  {
    Validation(p, image) == Ok
  }

  /** An image validated in memory at its own length is valid again, with the same header
      and bits, when the partition is mapped at its full size. */
  lemma ValidWhenMapped(p: Params, image: seq<byte>)
    requires SizeType(p.sizeMod) && |image| <= p.partSize && ImageValid(p, image)
    ensures ImageValid(p, Written(p, image))
    ensures FilterOf(Written(p, image)).header == FilterOf(image).header
    ensures FilterOf(Written(p, image)).bits[..|image| - BloomFilter.HEADER_LEN] == FilterOf(image).bits
  {
    var whole := Written(p, image);
    assert whole[0..4] == image[0..4] && whole[4..6] == image[4..6] && whole[6..8] == image[6..8];
    assert whole[8..16] == image[8..16] && whole[16..20] == image[16..20] && whole[20..28] == image[20..28];
    assert whole[28..32] == image[28..32] && whole[32..40] == image[32..40] && whole[40..44] == image[40..44];
    var f, g := FilterOf(image), FilterOf(whole);
    var bytes := BitarrayBytes(f.header.mBits, p.sizeMod);
    assert g.bits[..bytes] == f.bits[..bytes];
  }

  /** A state an interrupted or failed attempt may leave behind: the named partition is the
      untouched previous one, or the switch has happened and it holds the whole download,
      which was validated; and so is the partition a power loss would leave named. */
  ghost predicate SafeAfter(p: Params, before: Device, env: Env, m: Device)
    requires EnvOk(p, env)
  {
    && DeviceOk(p, m)
    && (if SecondNamed(m.active) == SecondNamed(before.active)
        then Named(m) == Named(before) && m.active == before.active
        else Installed(p, env, Named(m)))
    && (Surviving(m) == Surviving(before) || Installed(p, env, Surviving(m)))
  }

  ghost predicate Installed(p: Params, env: Env, content: seq<byte>)
    requires EnvOk(p, env) && SizeType(p.sizeMod)
  {
    env.download.Some? && ImageValid(p, env.download.value) && content == Written(p, env.download.value)
  }

  ghost predicate AllSafe(p: Params, before: Device, env: Env, moments: seq<Device>)
    requires EnvOk(p, env)
  {
    forall m :: m in moments ==> SafeAfter(p, before, env, m)
  }

  lemma ActivationIsSafe(p: Params, d: Device, done: Device, second: bool, env: Env)
    requires DeviceOk(p, d) && DeviceOk(p, done) && second == !SecondNamed(d.active) && Synced(d)
    requires done.active == d.active && done.stored == d.stored && Part(done, !second) == Part(d, !second)
    requires EnvOk(p, env) && Installed(p, env, Part(done, second))
    ensures AllSafe(p, d, env, Activate(p, done, second, env).moments)
  {
  }

  lemma InstallationIsSafe(p: Params, d: Device, second: bool, env: Env)
    requires DeviceOk(p, d) && EnvOk(p, env) && env.download.Some? && second == !SecondNamed(d.active)
    requires Synced(d) && ImageValid(p, env.download.value)
    ensures AllSafe(p, d, env, Install(p, d, second, env).moments)
  {
    assert AllSafe(p, d, env, Trail(d, second, env.eraseTrail));
    assert AllSafe(p, d, env, Trail(d, second, env.writeTrail));
    assert SafeAfter(p, d, env, SetPart(d, second, Blank(p.partSize)));
    var done := SetPart(d, second, Written(p, env.download.value));
    assert SafeAfter(p, d, env, done);
    ActivationIsSafe(p, d, done, second, env);
  }

  /** That holds at every moment of every attempt, successful or not, that begins with no slot
      change waiting for a commit, and of every attempt that ends before the erase. */
  lemma EveryMomentIsSafe(p: Params, d: Device, env: Env)
    requires DeviceOk(p, d) && EnvOk(p, env)
    requires Synced(d) || !Begins(p, d, env)
    ensures AllSafe(p, d, env, Update(p, d, env).moments)
  {
    if Begins(p, d, env) {
      InstallationIsSafe(p, d, !SecondNamed(d.active), env);
    }
  }

  /** While an attempt runs, the loader's mapping and what is mapped change only by the
      final reload, provided the mapping is of the named partition to begin with. */
  ghost predicate Coherent(d: Device) {
    d.mapping.Some? ==> d.mapping.value == SecondNamed(d.active)
  }

  /** ... and no slot change is waiting for a commit either. */
  ghost predicate Settled(d: Device) {
    Coherent(d) && Synced(d)
  }

  ghost predicate SameMapping(d: Device, m: Device) {
    m.mapping == d.mapping && m.source == d.source &&
    (d.mapping.Some? ==> Part(m, d.mapping.value) == Part(d, d.mapping.value))
  }

  ghost predicate Quiet(d: Device, moments: seq<Device>) {
    forall m :: m in moments ==> SameMapping(d, m)
  }

  /** The moments before the final reload of a successful attempt, all of them otherwise. */
  function BeforeReload(r: Attempt<Result, Device>): seq<Device> {
    if r.result.Ok? && r.moments != [] then r.moments[..|r.moments| - 1] else r.moments
  }

  lemma BeforeReloadOfTail(prefix: seq<Device>, rest: Attempt<Result, Device>)
    requires rest.result.Ok? ==> rest.moments != []
    ensures BeforeReload(Attempt(rest.result, prefix + rest.moments)) == prefix + BeforeReload(rest)
  {
  }

  lemma InstallationIsQuiet(p: Params, d: Device, second: bool, env: Env)
    requires DeviceOk(p, d) && EnvOk(p, env) && env.download.Some?
    requires d.mapping.Some? ==> d.mapping.value != second
    ensures Quiet(d, BeforeReload(Install(p, d, second, env)))
    ensures Install(p, d, second, env).result.Ok? ==> Install(p, d, second, env).moments != []
  {
    assert Quiet(d, Trail(d, second, env.eraseTrail));
    assert Quiet(d, Trail(d, second, env.writeTrail));
    if env.eraseOk && env.writeOk {
      var done := SetPart(d, second, Written(p, env.download.value));
      var erasing, writing := Trail(d, second, env.eraseTrail) + [SetPart(d, second, Blank(p.partSize))],
                              Trail(d, second, env.writeTrail) + [done];
      ActivationIsQuiet(p, d, done, second, env);
      var last := Activate(p, done, second, env);
      var rest := WriteAndActivate(p, d, second, env);
      QuietConcat(d, writing, BeforeReload(last));
      BeforeReloadOfTail(writing, last);
      QuietConcat(d, erasing, BeforeReload(rest));
      BeforeReloadOfTail(erasing, rest);
    }
  }

  lemma ActivationIsQuiet(p: Params, d: Device, done: Device, second: bool, env: Env)
    requires DeviceOk(p, done) && SameMapping(d, done)
    ensures Quiet(d, BeforeReload(Activate(p, done, second, env)))
  {
  }

  lemma QuietConcat(d: Device, a: seq<Device>, b: seq<Device>)
    requires Quiet(d, a) && Quiet(d, b)
    ensures Quiet(d, a + b)
  {
  }

  /** No erase and no write ever reaches the partition the running filter is mapped from. */
  lemma MappedPartitionIsNeverTouched(p: Params, d: Device, env: Env)
    requires DeviceOk(p, d) && EnvOk(p, env) && Coherent(d)
    ensures Quiet(d, BeforeReload(Update(p, d, env)))
  {
    var second := !SecondNamed(d.active);
    if env.download.Some? && ImageValid(p, env.download.value) {
      InstallationIsQuiet(p, d, second, env);
      BeforeReloadOfTail([d], Install(p, d, second, env));
      QuietConcat(d, [d], BeforeReload(Install(p, d, second, env)));
    }
  }

  /** Nothing but content has changed. */
  ghost predicate Still(d: Device, moments: seq<Device>) {
    forall m :: m in moments ==> m.mapping == d.mapping && m.active == d.active && m.stored == d.stored
  }

  lemma InstallationStill(p: Params, d: Device, second: bool, env: Env)
    requires DeviceOk(p, d) && EnvOk(p, env) && env.download.Some?
    requires env.eraseOk && env.writeOk ==> env.flip.NotStored?
    ensures Still(d, Install(p, d, second, env).moments) && !Install(p, d, second, env).result.Ok?
  {
    assert Still(d, Trail(d, second, env.eraseTrail)) && Still(d, Trail(d, second, env.writeTrail));
  }

  /** The last moment of an attempt that does not reach the switch, or whose switch is refused. */
  lemma NothingSwitched(p: Params, d: Device, env: Env)
    requires DeviceOk(p, d) && EnvOk(p, env)
    requires ReachesSwitch(p, d, env) ==> env.flip.NotStored?
    ensures Still(d, [Last(Update(p, d, env))])
    ensures !Update(p, d, env).result.Ok?
  {
    if Begins(p, d, env) {
      var r := Install(p, d, !SecondNamed(d.active), env);
      InstallationStill(p, d, !SecondNamed(d.active), env);
      LastAfter(d, r);
      EndIsStill(d, r);
    }
  }

  lemma EndIsStill(d: Device, r: Attempt<Result, Device>)
    requires Still(d, r.moments)
    ensures Still(d, [EndOf(d, r)])
  {
    assert r.moments != [] ==> Last(r) in r.moments;
  }

  /** The device when the slot byte has just been set. */
  function Switched(p: Params, d: Device, env: Env): Device
    requires EnvOk(p, env) && env.download.Some?
  {
    var second := !SecondNamed(d.active);
    SetPart(d, second, Written(p, env.download.value)).(active := SlotByte(second))
  }

  /** How an attempt ends that has set the slot byte. */
  lemma SwitchedEnd(p: Params, d: Device, env: Env)
    requires DeviceOk(p, d) && EnvOk(p, env) && ReachesSwitch(p, d, env) && !env.flip.NotStored?
    ensures var s, r := Switched(p, d, env), Update(p, d, env);
            && r.result == (if env.flip.CommitFailed? then NvsError else Ok)
            && Last(r) == if env.flip.CommitFailed? then s else Reloaded(p, Committed(s), env.mapOk)
  {
    var second := !SecondNamed(d.active);
    var done := SetPart(d, second, Written(p, env.download.value));
    var rest := Activate(p, done, second, env);
    assert Last(WriteAndActivate(p, d, second, env)) == Last(rest);
    assert Last(Install(p, d, second, env)) == Last(rest);
    LastAfter(d, Install(p, d, second, env));
  }

  lemma LastAfter(d: Device, rest: Attempt<Result, Device>)
    ensures Last(Attempt(rest.result, [d] + rest.moments)) == EndOf(d, rest)
  {
  }

  /** Success is reaching the switch and making it. */
  lemma SuccessMeansSwitched(p: Params, d: Device, env: Env)
    requires DeviceOk(p, d) && EnvOk(p, env)
    ensures Update(p, d, env).result.Ok? <==> ReachesSwitch(p, d, env) && env.flip.Flipped?
  {
    if ReachesSwitch(p, d, env) && !env.flip.NotStored? {
      SwitchedEnd(p, d, env);
    } else {
      NothingSwitched(p, d, env);
    }
  }

  /** What each result says: the first thing that was not in order. */
  lemma ResultNamesFailure(p: Params, d: Device, env: Env)
    requires DeviceOk(p, d) && EnvOk(p, env)
    ensures var r := Update(p, d, env).result;
            var found := if SecondNamed(d.active) then p.hasA else p.hasB;
            var fetched := found && env.memOk && env.download.Some? && env.download.value != [];
            && (r.NotFound? <==> !found)
            && (r.NoMem? <==> found && !env.memOk)
            && (r.Failed? <==> found && env.memOk && !fetched)
            && (r.InvalidResponse? <==> fetched && !Accepted(env.download.value, p.sizeMod))
            && (r.InvalidCrc? || r.OutOfBounds? ==> fetched && Accepted(env.download.value, p.sizeMod))
            && (r.FlashError? <==> Begins(p, d, env) && !(env.eraseOk && env.writeOk))
            && (r.NvsError? <==> ReachesSwitch(p, d, env) && !env.flip.Flipped?)
  {
  }

  /** An attempt ends with the mapping on the named partition again, unless it reaches the
      switch, sets the slot byte and fails to commit it while a mapping is held. */
  lemma CoherenceIsKeptExactly(p: Params, d: Device, env: Env)
    requires DeviceOk(p, d) && EnvOk(p, env) && Coherent(d)
    ensures Coherent(Last(Update(p, d, env))) <==>
              !(ReachesSwitch(p, d, env) && env.flip.CommitFailed? && d.mapping.Some?)
  {
    if ReachesSwitch(p, d, env) && !env.flip.NotStored? {
      SwitchedEnd(p, d, env);
    } else {
      NothingSwitched(p, d, env);
    }
  }

  /** When a slot change is left waiting for a commit. A failed commit leaves one waiting,
      or takes back the one that was; a successful one settles it. */
  lemma SyncIsKeptExactly(p: Params, d: Device, env: Env)
    requires DeviceOk(p, d) && EnvOk(p, env)
    ensures Synced(Last(Update(p, d, env))) <==>
              if !ReachesSwitch(p, d, env) || env.flip.NotStored? then Synced(d)
              else env.flip.Flipped? || !Synced(d)
  {
    if ReachesSwitch(p, d, env) && !env.flip.NotStored? {
      SwitchedEnd(p, d, env);
    } else {
      NothingSwitched(p, d, env);
    }
  }

  lemma MappingSurvives(p: Params, d: Device, env: Env)
    requires DeviceOk(p, d) && EnvOk(p, env) && Coherent(d) && !Update(p, d, env).result.Ok?
    ensures SameMapping(d, Last(Update(p, d, env)))
  {
    MappedPartitionIsNeverTouched(p, d, env);
    assert Last(Update(p, d, env)) in Update(p, d, env).moments;
  }

  lemma EraseIsAMoment(p: Params, d: Device, env: Env)
    requires DeviceOk(p, d) && EnvOk(p, env) && Begins(p, d, env) && env.eraseOk
    ensures SetPart(d, !SecondNamed(d.active), Blank(p.partSize)) in Update(p, d, env).moments
  {
    var second := !SecondNamed(d.active);
    var erased := SetPart(d, second, Blank(p.partSize));
    var erasing, rest := Trail(d, second, env.eraseTrail), WriteAndActivate(p, d, second, env);
    assert (erasing + [erased] + rest.moments)[|erasing|] == erased;
    assert erased in Install(p, d, second, env).moments;
  }

  /** After a failed commit the next attempt that gets to erase does so under the running
      filter, and blanks the very partition a power loss would leave named. */
  lemma CommitFailureExposesMapping(p: Params, d: Device, env: Env, next: Env)
    requires DeviceOk(p, d) && EnvOk(p, env) && Coherent(d) && Synced(d) && d.mapping.Some?
    requires ReachesSwitch(p, d, env) && env.flip.CommitFailed?
    requires EnvOk(p, next) && Begins(p, Switched(p, d, env), next) && next.eraseOk
    ensures var stuck := Last(Update(p, d, env));
            && DeviceOk(p, stuck)
            && exists m :: m in Update(p, stuck, next).moments &&
                 m.mapping == d.mapping && m.source == d.source &&
                 Part(m, d.mapping.value) == Blank(p.partSize) && Surviving(m) == Blank(p.partSize)
  {
    SwitchedEnd(p, d, env);
    EraseIsAMoment(p, Switched(p, d, env), next);
  }

  // ---------------------------------------------------------------- whole runs

  /** A power loss at this moment would not leave the device without a flash filter. */
  ghost predicate Bootable(p: Params, d: Device)
    requires SizeType(p.sizeMod)
  {
    ImageValid(p, Named(d)) && ImageValid(p, Surviving(d))
  }

  /** The erase gets anywhere. */
  ghost predicate Loses(p: Params, env: Env)
    requires SizeType(p.sizeMod)
  {
    env.eraseOk || exists x :: x in env.eraseTrail && !ImageValid(p, x)
  }

  lemma BlankIsInvalid(p: Params)
    requires SizeType(p.sizeMod)
    ensures !ImageValid(p, Blank(p.partSize))
  {
    if p.partSize >= BloomFilter.HEADER_LEN {
      assert Blank(p.partSize)[0..4] == [255, 255, 255, 255];
      assert LeNat([255, 255, 255, 255]) == 0xFFFF_FFFF;
    }
  }

  ghost predicate Devices(p: Params, moments: seq<Device>) {
    forall m :: m in moments ==> DeviceOk(p, m)
  }

  lemma InstalledDevices(p: Params, d: Device, second: bool, env: Env)
    requires DeviceOk(p, d) && EnvOk(p, env) && env.download.Some?
    ensures Devices(p, Install(p, d, second, env).moments)
  {
    assert Devices(p, Trail(d, second, env.eraseTrail)) && Devices(p, Trail(d, second, env.writeTrail));
    var done := SetPart(d, second, Written(p, env.download.value));
    assert Devices(p, Activate(p, done, second, env).moments);
    assert Devices(p, WriteAndActivate(p, d, second, env).moments);
  }

  lemma MomentsAreDevices(p: Params, d: Device, env: Env)
    requires DeviceOk(p, d) && EnvOk(p, env)
    ensures Devices(p, Update(p, d, env).moments)
  {
    if Begins(p, d, env) {
      InstalledDevices(p, d, !SecondNamed(d.active), env);
    }
  }

  /** A moment of an attempt that begins synced, or loses nothing. */
  lemma MomentKeeps(p: Params, d: Device, env: Env, m: Device)
    requires DeviceOk(p, d) && EnvOk(p, env) && m in Update(p, d, env).moments
    requires Synced(d) || !(Begins(p, d, env) && Loses(p, env))
    ensures Named(m) == Named(d) || ImageValid(p, Named(m))
    ensures Surviving(m) == Surviving(d) || ImageValid(p, Surviving(m))
  {
    if Synced(d) || !Begins(p, d, env) {
      EveryMomentIsSafe(p, d, env);
      assert SafeAfter(p, d, env, m);
      if env.download.Some? && ImageValid(p, env.download.value) {
        ValidWhenMapped(p, env.download.value);
      }
    } else {
      assert m in [d] + Trail(d, !SecondNamed(d.active), env.eraseTrail);
    }
  }

  /** No moment of an attempt could lose the filter to a power loss, if and only if it begins
      with no slot change waiting for a commit, or does not get to erase anything. */
  lemma AttemptIsBootableExactly(p: Params, d: Device, env: Env)
    requires DeviceOk(p, d) && EnvOk(p, env) && Bootable(p, d)
    ensures (forall m :: m in Update(p, d, env).moments ==> Bootable(p, m)) <==>
              Synced(d) || !(Begins(p, d, env) && Loses(p, env))
  {
    if Synced(d) || !(Begins(p, d, env) && Loses(p, env)) {
      forall m | m in Update(p, d, env).moments ensures Bootable(p, m) {
        MomentKeeps(p, d, env, m);
      }
    } else {
      ErasedSurvivor(p, d, env);
    }
  }

  lemma ErasedSurvivor(p: Params, d: Device, env: Env)
    requires DeviceOk(p, d) && EnvOk(p, env) && !Synced(d) && Begins(p, d, env) && Loses(p, env)
    ensures exists m :: m in Update(p, d, env).moments && !ImageValid(p, Surviving(m))
  {
    if env.eraseOk {
      BlankIsInvalid(p);
      EraseIsAMoment(p, d, env);
      assert !ImageValid(p, Surviving(SetPart(d, !SecondNamed(d.active), Blank(p.partSize))));
    } else {
      LostTrail(p, d, env);
    }
  }

  // ------------------------------------------------- the running filter

  /** What the running filter is mapped from, if anything, is a valid image. */
  ghost predicate MappingValid(p: Params, d: Device)
    requires SizeType(p.sizeMod)
  {
    d.mapping.Some? ==> ImageValid(p, Part(d, d.mapping.value))
  }

  /** No moment of an attempt takes valid content away under the running filter, if and only if
      it begins with the mapping on the named partition, or does not get to erase anything. */
  lemma MappingIsValidExactly(p: Params, d: Device, env: Env)
    requires DeviceOk(p, d) && EnvOk(p, env) && MappingValid(p, d)
    ensures (forall m :: m in Update(p, d, env).moments ==> MappingValid(p, m)) <==>
              Coherent(d) || !(Begins(p, d, env) && Loses(p, env))
  {
    if Coherent(d) || !(Begins(p, d, env) && Loses(p, env)) {
      forall m | m in Update(p, d, env).moments ensures MappingValid(p, m) {
        MomentKeepsMapping(p, d, env, m);
      }
    } else {
      ErasedMapping(p, d, env);
    }
  }

  lemma MomentKeepsMapping(p: Params, d: Device, env: Env, m: Device)
    requires DeviceOk(p, d) && EnvOk(p, env) && MappingValid(p, d) && m in Update(p, d, env).moments
    requires Coherent(d) || !(Begins(p, d, env) && Loses(p, env))
    ensures MappingValid(p, m)
  {
    if !Begins(p, d, env) {
      NothingBegun(p, d, env);
    } else if !Coherent(d) {
      assert m in [d] + Trail(d, !SecondNamed(d.active), env.eraseTrail);
    } else if m in BeforeReload(Update(p, d, env)) {
      MappedPartitionIsNeverTouched(p, d, env);
      assert SameMapping(d, m);
    } else {
      SuccessMeansSwitched(p, d, env);
      SwitchedEnd(p, d, env);
      ValidWhenMapped(p, env.download.value);
    }
  }

  lemma ErasedMapping(p: Params, d: Device, env: Env)
    requires DeviceOk(p, d) && EnvOk(p, env) && !Coherent(d) && Begins(p, d, env) && Loses(p, env)
    ensures exists m :: m in Update(p, d, env).moments && !MappingValid(p, m)
  {
    if env.eraseOk {
      BlankIsInvalid(p);
      EraseIsAMoment(p, d, env);
      assert !MappingValid(p, SetPart(d, !SecondNamed(d.active), Blank(p.partSize)));
    } else {
      LostTrail(p, d, env);
    }
  }

  /** The moments of an attempt whose erase fails. */
  lemma FailedErase(p: Params, d: Device, env: Env, m: Device)
    requires DeviceOk(p, d) && EnvOk(p, env) && Begins(p, d, env) && !env.eraseOk
    requires m in Update(p, d, env).moments
    ensures m == d || exists x :: x in env.eraseTrail && m == SetPart(d, !SecondNamed(d.active), x)
  {
    var erasing := Trail(d, !SecondNamed(d.active), env.eraseTrail);
    if m != d {
      var k :| 0 <= k < |erasing| && erasing[k] == m;
      assert env.eraseTrail[k] in env.eraseTrail && m == SetPart(d, !SecondNamed(d.active), env.eraseTrail[k]);
    }
  }

  /** A failing erase that gets anywhere leaves invalid content in the target. */
  lemma LostTrail(p: Params, d: Device, env: Env)
    requires DeviceOk(p, d) && EnvOk(p, env) && Begins(p, d, env) && !env.eraseOk && Loses(p, env)
    ensures exists x :: !ImageValid(p, x) && SetPart(d, !SecondNamed(d.active), x) in Update(p, d, env).moments
  {
    var x :| x in env.eraseTrail && !ImageValid(p, x);
    var k :| 0 <= k < |env.eraseTrail| && env.eraseTrail[k] == x;
    var erasing := Trail(d, !SecondNamed(d.active), env.eraseTrail);
    assert erasing[k] in Update(p, d, env).moments;
  }

  /** Bootable, and running on valid content. */
  ghost predicate InService(p: Params, d: Device)
    requires SizeType(p.sizeMod)
  {
    Bootable(p, d) && MappingValid(p, d)
  }

  lemma AttemptIsInServiceExactly(p: Params, d: Device, env: Env)
    requires DeviceOk(p, d) && EnvOk(p, env) && InService(p, d)
    ensures (forall m :: m in Update(p, d, env).moments ==> InService(p, m)) <==>
              Settled(d) || !(Begins(p, d, env) && Loses(p, env))
  {
    AttemptIsBootableExactly(p, d, env);
    MappingIsValidExactly(p, d, env);
  }

  /** A commit made for another setting settles the slot byte, but not the mapping: after a
      failed commit it leaves the running filter on the partition the next attempt erases,
      with nothing waiting any more. */
  lemma OtherCommitLeavesMapping(p: Params, d: Device, env: Env)
    requires DeviceOk(p, d) && EnvOk(p, env) && Settled(d) && d.mapping.Some?
    requires ReachesSwitch(p, d, env) && env.flip.CommitFailed?
    ensures var s := Committed(Last(Update(p, d, env)));
            Synced(s) && !Coherent(s) && SameMapping(d, s)
  {
    SwitchedEnd(p, d, env);
    MappingSurvives(p, d, env);
  }

  /** One attempt, left to finish or cut off at some moment by a power loss; a power loss at
      rest; a commit made for another setting. Until a power loss, a slot byte that waits
      for its commit may still have reached the flash, or not. */
  datatype Life =
    | Attempted(env: Env)
    | CutOff(env: Env, at: nat, committed: bool, mapOk: bool)
    | Restarted(committed: bool, mapOk: bool)
    | OtherCommit

  predicate LifeOk(p: Params, e: Life) {
    (e.Attempted? || e.CutOff?) ==> EnvOk(p, e.env)
  }

  function MomentAt(p: Params, d: Device, env: Env, at: nat): (m: Device)
    requires DeviceOk(p, d) && EnvOk(p, env)
    ensures m in Update(p, d, env).moments && DeviceOk(p, m)
  {
    MomentsAreDevices(p, d, env);
    var moments := Update(p, d, env).moments;
    var m := if at < |moments| then moments[at] else moments[|moments| - 1];
    assert m in moments;
    m
  }

  function PowerCycled(p: Params, d: Device, committed: bool, mapOk: bool): Device
    requires SizeType(p.sizeMod)
  {
    Rebooted(p, if committed then Committed(d) else d, mapOk)
  }

  function Live(p: Params, d: Device, e: Life): (r: Device)
    requires DeviceOk(p, d)
    ensures DeviceOk(p, r)
  {
    if !LifeOk(p, e) then d
    else
      match e
      case Attempted(env) => MomentAt(p, d, env, |Update(p, d, env).moments|)
      case CutOff(env, at, committed, mapOk) => PowerCycled(p, MomentAt(p, d, env, at), committed, mapOk)
      case Restarted(committed, mapOk) => PowerCycled(p, d, committed, mapOk)
      case OtherCommit => Committed(d)
  }

  function LiveThrough(p: Params, d: Device, events: seq<Life>): (r: Device)
    requires DeviceOk(p, d)
    ensures DeviceOk(p, r)
  {
    if events == [] then d else Live(p, LiveThrough(p, d, events[..|events| - 1]), events[|events| - 1])
  }

  /** No attempt gets to erase while a slot change waits for its commit. */
  ghost predicate Careful(p: Params, d: Device, events: seq<Life>)
    requires DeviceOk(p, d)
  {
    events != [] ==>
      && Careful(p, d, events[..|events| - 1])
      && CarefulStep(p, LiveThrough(p, d, events[..|events| - 1]), events[|events| - 1])
  }

  ghost predicate CarefulStep(p: Params, d: Device, e: Life)
    requires DeviceOk(p, d)
  {
    LifeOk(p, e) && (e.Attempted? || e.CutOff?) ==> Synced(d) || !(Begins(p, d, e.env) && Loses(p, e.env))
  }

  /** No moment of any attempt could lose the filter to a power loss. */
  ghost predicate AlwaysBootable(p: Params, d: Device, events: seq<Life>)
    requires DeviceOk(p, d)
  {
    events != [] ==>
      && AlwaysBootable(p, d, events[..|events| - 1])
      && BootableStep(p, LiveThrough(p, d, events[..|events| - 1]), events[|events| - 1])
  }

  ghost predicate BootableStep(p: Params, d: Device, e: Life)
    requires DeviceOk(p, d)
  {
    LifeOk(p, e) && (e.Attempted? || e.CutOff?) ==> forall m :: m in Update(p, d, e.env).moments ==> Bootable(p, m)
  }

  /** One of the two original contents, or a valid image. */
  ghost predicate Kept(p: Params, d: Device, content: seq<byte>)
    requires SizeType(p.sizeMod)
  {
    content == Named(d) || content == Surviving(d) || ImageValid(p, content)
  }

  lemma StepKeeps(p: Params, d: Device, e: Life)
    requires DeviceOk(p, d) && CarefulStep(p, d, e)
    ensures Kept(p, d, Named(Live(p, d, e))) && Kept(p, d, Surviving(Live(p, d, e)))
  {
    if LifeOk(p, e) {
      match e
      case Attempted(env) => MomentKeeps(p, d, env, MomentAt(p, d, env, |Update(p, d, env).moments|));
      case CutOff(env, at, _, _) => MomentKeeps(p, d, env, MomentAt(p, d, env, at));
      case _ =>
    }
  }

  /** Through any careful history of attempts, failures, power losses and reboots, from any
      content and any slot bytes: what is named holds an original content or a valid image. */
  lemma {:induction false} NamedContentIsKept(p: Params, d: Device, events: seq<Life>)
    requires DeviceOk(p, d) && Careful(p, d, events)
    ensures var r := LiveThrough(p, d, events);
            Kept(p, d, Named(r)) && Kept(p, d, Surviving(r))
  {
    if events != [] {
      NamedContentIsKept(p, d, events[..|events| - 1]);
      StepKeeps(p, LiveThrough(p, d, events[..|events| - 1]), events[|events| - 1]);
    }
  }

  /** A device that has a valid filter can always boot one, whatever fails and wherever the
      power is lost, if and only if no attempt gets to erase while a slot change waits for
      its commit. */
  lemma {:induction false} NeverWithoutAValidFilter(p: Params, d: Device, events: seq<Life>)
    requires DeviceOk(p, d) && Bootable(p, d)
    ensures AlwaysBootable(p, d, events) <==> Careful(p, d, events)
    ensures Careful(p, d, events) ==> Bootable(p, LiveThrough(p, d, events))
  {
    if events != [] {
      var before, e := LiveThrough(p, d, events[..|events| - 1]), events[|events| - 1];
      NeverWithoutAValidFilter(p, d, events[..|events| - 1]);
      if Careful(p, d, events[..|events| - 1]) {
        if LifeOk(p, e) && (e.Attempted? || e.CutOff?) {
          AttemptIsBootableExactly(p, before, e.env);
        }
        if CarefulStep(p, before, e) {
          StepKeeps(p, before, e);
        }
      }
    }
  }

  /** No attempt gets to erase unless the mapping is on the named partition and no slot change
      waits for its commit. */
  ghost predicate Orderly(p: Params, d: Device, events: seq<Life>)
    requires DeviceOk(p, d)
  {
    events != [] ==>
      && Orderly(p, d, events[..|events| - 1])
      && OrderlyStep(p, LiveThrough(p, d, events[..|events| - 1]), events[|events| - 1])
  }

  ghost predicate OrderlyStep(p: Params, d: Device, e: Life)
    requires DeviceOk(p, d)
  {
    LifeOk(p, e) && (e.Attempted? || e.CutOff?) ==> Settled(d) || !(Begins(p, d, e.env) && Loses(p, e.env))
  }

  /** At no moment of any attempt does the device lose a filter, running or to boot from. */
  ghost predicate AlwaysInService(p: Params, d: Device, events: seq<Life>)
    requires DeviceOk(p, d)
  {
    events != [] ==>
      && AlwaysInService(p, d, events[..|events| - 1])
      && InServiceStep(p, LiveThrough(p, d, events[..|events| - 1]), events[|events| - 1])
  }

  ghost predicate InServiceStep(p: Params, d: Device, e: Life)
    requires DeviceOk(p, d)
  {
    LifeOk(p, e) && (e.Attempted? || e.CutOff?) ==> forall m :: m in Update(p, d, e.env).moments ==> InService(p, m)
  }

  lemma PowerCycledInService(p: Params, d: Device, committed: bool, mapOk: bool)
    requires DeviceOk(p, d) && Bootable(p, d)
    ensures InService(p, PowerCycled(p, d, committed, mapOk))
  {
  }

  lemma StaysInService(p: Params, d: Device, e: Life)
    requires DeviceOk(p, d) && InService(p, d) && InServiceStep(p, d, e)
    ensures InService(p, Live(p, d, e))
  {
    if LifeOk(p, e) {
      match e
      case Attempted(env) => assert InService(p, MomentAt(p, d, env, |Update(p, d, env).moments|));
      case CutOff(env, at, committed, mapOk) => PowerCycledInService(p, MomentAt(p, d, env, at), committed, mapOk);
      case Restarted(committed, mapOk) => PowerCycledInService(p, d, committed, mapOk);
      case OtherCommit =>
    }
  }

  /** Over every history a device that has a valid filter runs on valid content and can boot a
      valid filter at every moment, if and only if no attempt gets to erase unless the mapping
      is on the named partition and no slot change waits for its commit. */
  lemma {:induction false} NeverWithoutARunningFilter(p: Params, d: Device, events: seq<Life>)
    requires DeviceOk(p, d) && InService(p, d)
    ensures AlwaysInService(p, d, events) <==> Orderly(p, d, events)
    ensures Orderly(p, d, events) ==> InService(p, LiveThrough(p, d, events))
  {
    if events != [] {
      var before, e := LiveThrough(p, d, events[..|events| - 1]), events[|events| - 1];
      NeverWithoutARunningFilter(p, d, events[..|events| - 1]);
      if Orderly(p, d, events[..|events| - 1]) {
        if LifeOk(p, e) && (e.Attempted? || e.CutOff?) {
          AttemptIsInServiceExactly(p, before, e.env);
        }
        if OrderlyStep(p, before, e) {
          StaysInService(p, before, e);
        }
      }
    }
  }

  lemma HistoryAppend(p: Params, d: Device, events: seq<Life>, e: Life)
    requires DeviceOk(p, d)
    ensures LiveThrough(p, d, events + [e]) == Live(p, LiveThrough(p, d, events), e)
    ensures Careful(p, d, events + [e]) <==> Careful(p, d, events) && CarefulStep(p, LiveThrough(p, d, events), e)
    ensures Orderly(p, d, events + [e]) <==> Orderly(p, d, events) && OrderlyStep(p, LiveThrough(p, d, events), e)
  {
    assert (events + [e])[..|events|] == events;
  }

  lemma HistoryOfThree(p: Params, d: Device, a: Life, b: Life, e: Life)
    requires DeviceOk(p, d)
    ensures var da, db := Live(p, d, a), Live(p, Live(p, d, a), b);
            && (Careful(p, d, [a, b, e]) <==> CarefulStep(p, d, a) && CarefulStep(p, da, b) && CarefulStep(p, db, e))
            && (Orderly(p, d, [a, b, e]) ==> OrderlyStep(p, db, e))
  {
    HistoryAppend(p, d, [], a);
    HistoryAppend(p, d, [a], b);
    HistoryAppend(p, d, [a, b], e);
    assert [] + [a] == [a] && [a] + [b] == [a, b] && [a, b] + [e] == [a, b, e];
  }

  lemma StuckDevice(p: Params, d: Device, env: Env)
    requires DeviceOk(p, d) && EnvOk(p, env) && ReachesSwitch(p, d, env) && env.flip.CommitFailed?
    ensures Live(p, Live(p, d, Attempted(env)), OtherCommit) == Committed(Switched(p, d, env))
  {
    SwitchedEnd(p, d, env);
  }

  /** Being bootable is not enough: a failed commit, a commit for another setting and one more
      attempt make a history that is careful and still erases under the running filter. */
  lemma CarefulIsNotOrderly(p: Params, d: Device, env: Env, next: Env)
    requires DeviceOk(p, d) && EnvOk(p, env) && EnvOk(p, next) && InService(p, d) && Settled(d) && d.mapping.Some?
    requires ReachesSwitch(p, d, env) && env.flip.CommitFailed?
    requires Begins(p, Committed(Switched(p, d, env)), next) && next.eraseOk
    ensures var events := [Attempted(env), OtherCommit, Attempted(next)];
            Careful(p, d, events) && !AlwaysInService(p, d, events)
  {
    StuckDevice(p, d, env);
    SwitchedEnd(p, d, env);
    OtherCommitLeavesMapping(p, d, env);
    StuckHistory(p, d, Attempted(env), next);
    NeverWithoutARunningFilter(p, d, [Attempted(env), OtherCommit, Attempted(next)]);
  }

  lemma StuckHistory(p: Params, d: Device, first: Life, next: Env)
    requires DeviceOk(p, d) && Synced(d) && EnvOk(p, next)
    requires var s := Live(p, Live(p, d, first), OtherCommit);
             Synced(s) && !Coherent(s) && Begins(p, s, next) && next.eraseOk
    ensures Careful(p, d, [first, OtherCommit, Attempted(next)])
    ensures !Orderly(p, d, [first, OtherCommit, Attempted(next)])
  {
    HistoryOfThree(p, d, first, OtherCommit, Attempted(next));
  }

  /** ... and a reboot then runs the flash filter, not the embedded one. */
  lemma RebootServesNamedPartition(p: Params, d: Device, events: seq<Life>, committed: bool)
    requires DeviceOk(p, d) && Bootable(p, d) && Careful(p, d, events) && p.hasA && p.hasB
    ensures var r := Live(p, LiveThrough(p, d, events), Restarted(committed, true));
            r.source == FromPartition(SecondNamed(r.active)) && Coherent(r) && Synced(r) && ImageValid(p, Named(r))
  {
    NeverWithoutAValidFilter(p, d, events);
  }

  /** A successful attempt puts the very filter that was validated into service. */
  lemma SuccessServesTheDownload(p: Params, d: Device, env: Env, name: seq<byte>)
    requires DeviceOk(p, d) && EnvOk(p, env) && Update(p, d, env).result.Ok? && env.mapOk
    requires Readable(FilterOf(env.download.value))
    ensures var r, image := Last(Update(p, d, env)), env.download.value;
            && r.source == FromPartition(SecondNamed(r.active))
            && Coherent(r) && Synced(r)
            && Named(r) == Written(p, image)
            && Has(FilterOf(Named(r)), name) == Has(FilterOf(image), name)
  {
    var image := env.download.value;
    SuccessMeansSwitched(p, d, env);
    SwitchedEnd(p, d, env);
    ValidWhenMapped(p, image);
    TrailingBytesIgnored(FilterOf(image), FilterOf(Written(p, image)), name);
  }
}
