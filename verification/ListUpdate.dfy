/** The A/B update of the exact list files on the card (components/blocklist_updater/
    blocklist_updater.c), with every state the card passes through. SHA-256 is a parameter. */
module ListUpdate {
  import opened Words
  import opened Options
  import opened Slots
  import opened CStrings

  /** domains_a.idx (the first slot), domains_b.idx (the second), the legacy domains.idx, the
      slot byte the getter returns, and the slot byte a power loss leaves. */
  datatype Card = Card(a: Option<seq<byte>>, b: Option<seq<byte>>, legacy: Option<seq<byte>>,
                       active: byte, stored: byte)

  function FileOf(c: Card, second: bool): Option<seq<byte>> {
    if second then c.b else c.a
  }

  function SetFile(c: Card, second: bool, content: Option<seq<byte>>): Card {
    if second then c.(b := content) else c.(a := content)
  }

  /** The file the list loader opens under a slot byte. */
  function OpenedBy(c: Card, slot: byte): Option<seq<byte>> {
    var named := FileOf(c, SecondNamed(slot));
    if named.Some? then named else c.legacy
  }

  function Opened(c: Card): Option<seq<byte>> {
    OpenedBy(c, c.active)
  }

  /** ... and the one it would open after a power loss. */
  function Surviving(c: Card): Option<seq<byte>> {
    OpenedBy(c, c.stored)
  }

  /** No slot change is waiting for a commit. */
  predicate Synced(c: Card) {
    SecondNamed(c.stored) == SecondNamed(c.active)
  }

  datatype Result = Ok | NotMounted | Failed | ShaUnreadable | InvalidCrc | NvsError

  /** http_get_to_file: no response or no file at all; or the file was truncated, then grew
      through some contents, and `received` bytes were counted. */
  datatype Transfer = NoTransfer | Streamed(trail: seq<seq<byte>>, content: seq<byte>, received: nat)

  /** One attempt's environment; sha is what was fetched of the published digest. */
  datatype Env = Env(mounted: bool, transfer: Transfer, sha: Option<seq<byte>>, readable: bool, flip: Flip)

  const HEX_LEN: nat := 64

  /** The published digest as compared: its first 64 characters, lower-cased. */
  function Expected(sha: seq<byte>): seq<byte>
    requires |sha| >= HEX_LEN
  {
    Lower(sha[..HEX_LEN])
  }

  /** The contents the target file passes through: truncated, growing, complete. */
  function Contents(transfer: Transfer): (r: seq<seq<byte>>)
    requires transfer.Streamed?
    ensures |r| == |transfer.trail| + 2
    ensures r[0] == [] && r[|r| - 1] == transfer.content
  {
    [[]] + transfer.trail + [transfer.content]
  }

  function FileTrail(c: Card, second: bool, contents: seq<seq<byte>>): (r: seq<Card>)
    ensures |r| == |contents|
    ensures forall i :: 0 <= i < |contents| ==> r[i] == SetFile(c, second, Some(contents[i]))
  {
    seq(|contents|, i requires 0 <= i < |contents| => SetFile(c, second, Some(contents[i])))
  }

  /** The transfer touches the target file. */
  predicate Transfers(env: Env) {
    env.mounted && env.transfer.Streamed?
  }

  /** update_domain_list; shaHex gives the 64 lower-case hex digits of a file's digest. */
  function Update(shaHex: seq<byte> -> seq<byte>, c: Card, env: Env): (r: Attempt<Result, Card>)
    ensures r.moments != []
  {
    var second := !SecondNamed(c.active);
    if !env.mounted then Attempt(NotMounted, [c])
    else if env.transfer.NoTransfer? then Attempt(Failed, [c])
    else
      var streaming := [c] + FileTrail(c, second, Contents(env.transfer));
      var removed := streaming + [SetFile(c, second, None)];
      if env.transfer.received == 0 then Attempt(Failed, streaming)
      else if env.sha.None? || |env.sha.value| < HEX_LEN then Attempt(Failed, removed)
      else if !env.readable then Attempt(ShaUnreadable, removed)
      else if shaHex(env.transfer.content) != Expected(env.sha.value) then Attempt(InvalidCrc, removed)
      else
        var flipped := SetFile(c, second, Some(env.transfer.content)).(active := SlotByte(second));
        match env.flip
        case NotStored => Attempt(NvsError, streaming)
        case CommitFailed => Attempt(NvsError, streaming + [flipped])
        case Flipped => Attempt(Ok, streaming + [flipped, Committed(flipped)])
  }

  /** A commit made on behalf of any other setting takes the slot byte with it. */
  function Committed(c: Card): Card {
    c.(stored := c.active)
  }

  /** Power-on; a slot byte that waited for its commit may have reached the flash, or not. */
  function PowerCycled(c: Card, committed: bool): Card {
    var flash := if committed then Committed(c) else c;
    flash.(active := flash.stored)
  }

  class Updater {
    const shaHex: seq<byte> -> seq<byte>
    var a: Option<seq<byte>>
    var b: Option<seq<byte>>
    var legacy: Option<seq<byte>>
    var active: byte
    var stored: byte
    ghost var moments: seq<Card>

    ghost function Abs(): Card
      reads this
    {
      Card(a, b, legacy, active, stored)
    }

    constructor (shaHex: seq<byte> -> seq<byte>, c: Card)
      ensures Abs() == c && this.shaHex == shaHex
    {
      this.shaHex := shaHex;
      a, b, legacy, active, stored, moments := c.a, c.b, c.legacy, c.active, c.stored, [];
    }

    method PutFile(second: bool, content: Option<seq<byte>>)
      modifies this`a, this`b, this`moments
      ensures Abs() == SetFile(old(Abs()), second, content) && moments == old(moments) + [Abs()]
    {
      if second {
        b := content;
      } else {
        a := content;
      }
      moments := moments + [Abs()];
    }

    /** fopen truncates the file; then it grows until the transfer ends. */
    method Receive(second: bool, transfer: Transfer)
      requires transfer.Streamed?
      modifies this`a, this`b, this`moments
      ensures moments == old(moments) + FileTrail(old(Abs()), second, Contents(transfer))
      ensures Abs() == SetFile(old(Abs()), second, Some(transfer.content))
    {
      ghost var c := Abs();
      PutFile(second, Some([]));
      moments := moments + FileTrail(c, second, transfer.trail);
      PutFile(second, Some(transfer.content));
    }

    /** A commit made on behalf of any other setting. */
    method CommitSlot()
      modifies this`stored
      ensures Abs() == Committed(old(Abs()))
    {
      stored := active;
    }

    method UpdateDomainList(env: Env) returns (result: Result)
      modifies this
      ensures result == Update(shaHex, old(Abs()), env).result
      ensures moments == Update(shaHex, old(Abs()), env).moments
      ensures Abs() == Last(Update(shaHex, old(Abs()), env))
    {
      moments := [Abs()];
      if !env.mounted {
        return NotMounted;
      }
      var second := active == 0;
      if env.transfer.NoTransfer? {
        return Failed;
      }
      Receive(second, env.transfer);
      if env.transfer.received == 0 {
        return Failed;
      }
      if env.sha.None? || |env.sha.value| < HEX_LEN {
        PutFile(second, None);
        return Failed;
      }
      var expected := Lower(env.sha.value[..HEX_LEN]);
      if !env.readable {
        PutFile(second, None);
        return ShaUnreadable;
      }
      var actual := shaHex(env.transfer.content);
      if actual != expected {
        PutFile(second, None);
        return InvalidCrc;
      }
      result := ActivateSlot(second, env.flip);
    }

    method ActivateSlot(second: bool, flip: Flip) returns (result: Result)
      modifies this`active, this`stored, this`moments
      ensures var flipped := old(Abs()).(active := SlotByte(second));
              match flip
              case NotStored => result == NvsError && Abs() == old(Abs()) && moments == old(moments)
              case CommitFailed => result == NvsError && Abs() == flipped && moments == old(moments) + [flipped]
              case Flipped => result == Ok && Abs() == Committed(flipped) &&
                              moments == old(moments) + [flipped, Committed(flipped)]
    {
      if flip.NotStored? {
        return NvsError;
      }
      active := SlotByte(second);
      moments := moments + [Abs()];
      if flip.CommitFailed? {
        return NvsError;
      }
      stored := active;
      moments := moments + [Abs()];
      return Ok;
    }
  }

  // ------------------------------------------------------------ crash safety

  /** The received file has the published digest. */
  ghost predicate Matches(shaHex: seq<byte> -> seq<byte>, env: Env) {
    && env.transfer.Streamed? && env.sha.Some? && |env.sha.value| >= HEX_LEN
    && shaHex(env.transfer.content) == Expected(env.sha.value)
  }

  /** The received file, whose digest is the published one. */
  ghost predicate Verified(shaHex: seq<byte> -> seq<byte>, env: Env, file: Option<seq<byte>>) {
    Matches(shaHex, env) && file == Some(env.transfer.content)
  }

  /** The slot still names the untouched previous file, or it names the verified one; and a
      power loss would leave the previous or the verified file to be opened. */
  ghost predicate SafeAfter(shaHex: seq<byte> -> seq<byte>, before: Card, env: Env, m: Card) {
    && m.legacy == before.legacy
    && (if m.active == before.active then Opened(m) == Opened(before) else Verified(shaHex, env, Opened(m)))
    && (Surviving(m) == Surviving(before) || Verified(shaHex, env, Surviving(m)))
  }

  ghost predicate AllSafe(shaHex: seq<byte> -> seq<byte>, before: Card, env: Env, moments: seq<Card>) {
    forall m :: m in moments ==> SafeAfter(shaHex, before, env, m)
  }

  /** Every moment of an attempt that begins with no slot change waiting for a commit, and of
      every attempt without a transfer, is safe. */
  lemma EveryMomentIsSafe(shaHex: seq<byte> -> seq<byte>, c: Card, env: Env)
    requires Synced(c) || !Transfers(env)
    ensures AllSafe(shaHex, c, env, Update(shaHex, c, env).moments)
  {
    if Transfers(env) {
      assert AllSafe(shaHex, c, env, FileTrail(c, !SecondNamed(c.active), Contents(env.transfer)));
    }
  }

  /** Where there is a list to lose, and an empty list is never published, that is the exact
      condition: a transfer that begins while a slot change waits for its commit truncates
      the file a power loss would leave to be opened. */
  lemma AttemptIsSafeExactly(shaHex: seq<byte> -> seq<byte>, c: Card, env: Env)
    requires Surviving(c) != Some([])
    requires NeverEmpty(shaHex, env)
    ensures AllSafe(shaHex, c, env, Update(shaHex, c, env).moments) <==> Synced(c) || !Transfers(env)
  {
    if Synced(c) || !Transfers(env) {
      EveryMomentIsSafe(shaHex, c, env);
    } else {
      TruncatedIsAMoment(shaHex, c, env);
    }
  }

  /** Everything is in order up to the switch. */
  ghost predicate Accepts(shaHex: seq<byte> -> seq<byte>, env: Env) {
    env.mounted && Matches(shaHex, env) && env.readable && env.transfer.received > 0
  }

  /** How an attempt leaves the slot bytes: a failed commit leaves a change waiting, or takes
      back the one that was; a successful one settles it. */
  lemma SyncIsKeptExactly(shaHex: seq<byte> -> seq<byte>, c: Card, env: Env)
    ensures Synced(Last(Update(shaHex, c, env))) <==>
              if !Accepts(shaHex, env) || env.flip.NotStored? then Synced(c)
              else env.flip.Flipped? || !Synced(c)
  {
    if Transfers(env) {
      var trail := FileTrail(c, !SecondNamed(c.active), Contents(env.transfer));
      assert trail[|trail| - 1] == SetFile(c, !SecondNamed(c.active), Some(env.transfer.content));
    }
  }

  /** Only a received file with the published digest is ever activated, and then it
      is what the loader opens; any other attempt leaves slot and opened file as they were. */
  lemma ActivationMeansDigestMatched(shaHex: seq<byte> -> seq<byte>, c: Card, env: Env)
    ensures var r := Update(shaHex, c, env);
            && ((exists m :: m in r.moments && m.active != c.active) <==> Accepts(shaHex, env) && !env.flip.NotStored?)
            && (r.result.Ok? <==> Accepts(shaHex, env) && env.flip.Flipped?)
            && (if Accepts(shaHex, env) && !env.flip.NotStored? then Opened(Last(r)) == Some(env.transfer.content)
                else Opened(Last(r)) == Opened(c))
  {
    var r, second := Update(shaHex, c, env), !SecondNamed(c.active);
    assert Last(r) in r.moments;
    if Transfers(env) {
      var trail := FileTrail(c, second, Contents(env.transfer));
      assert forall m :: m in trail ==> m.active == c.active && Opened(m) == Opened(c);
      assert trail[|trail| - 1] in trail;
    }
    if Accepts(shaHex, env) && !env.flip.NotStored? {
      var flipped := SetFile(c, second, Some(env.transfer.content)).(active := SlotByte(second));
      assert flipped in r.moments && flipped.active != c.active;
    }
  }

  /** Lower-case hex digits, as sha256_file writes them. */
  predicate IsHexDigest(h: seq<byte>) {
    |h| == 64 && forall c :: c in h ==> 48 <= c <= 57 || 97 <= c <= 102
  }

  /** The slot is switched at some moment of the attempt. */
  ghost predicate Activates(shaHex: seq<byte> -> seq<byte>, c: Card, env: Env) {
    exists m :: m in Update(shaHex, c, env).moments && m.active != c.active
  }

  /** Which digest files are accepted: the first 64 characters spell the digest of the received
      file, in capitals or not; what follows them does not matter. */
  lemma DigestDecides(shaHex: seq<byte> -> seq<byte>, c: Card, env: Env, digits: seq<byte>, tail: seq<byte>)
    requires env.sha == Some(digits + tail) && |digits| == 64
    requires env.transfer.Streamed? ==> IsHexDigest(shaHex(env.transfer.content))
    ensures Activates(shaHex, c, env) <==>
              && env.mounted && env.transfer.Streamed? && env.transfer.received > 0 && env.readable
              && !env.flip.NotStored? && SameLetters(digits, shaHex(env.transfer.content))
  {
    ActivationMeansDigestMatched(shaHex, c, env);
    assert (digits + tail)[..64] == digits;
    if env.transfer.Streamed? {
      LowerForgetsCase(digits, shaHex(env.transfer.content));
      LowerOfLower(shaHex(env.transfer.content));
    }
  }

  /** A missing or short digest never activates anything. */
  lemma NoDigestNoActivation(shaHex: seq<byte> -> seq<byte>, c: Card, env: Env)
    requires env.sha.None? || |env.sha.value| < 64
    ensures !Activates(shaHex, c, env)
  {
    ActivationMeansDigestMatched(shaHex, c, env);
  }

  /** What each result says: the first thing that was not in order. */
  lemma ResultNamesFailure(shaHex: seq<byte> -> seq<byte>, c: Card, env: Env)
    ensures var r := Update(shaHex, c, env).result;
            var received := Transfers(env) && env.transfer.received > 0;
            var fetched := received && env.sha.Some? && |env.sha.value| >= 64;
            && (r.NotMounted? <==> !env.mounted)
            && (r.Failed? <==> env.mounted && !fetched)
            && (r.ShaUnreadable? <==> fetched && !env.readable)
            && (r.InvalidCrc? <==> fetched && env.readable && !Matches(shaHex, env))
            && (r.NvsError? <==> fetched && env.readable && Matches(shaHex, env) && !env.flip.Flipped?)
  {
  }

  /** The file a refused transfer leaves: none once something was received, and otherwise
      whatever the transfer got to. */
  lemma RefusedFileIsRemoved(shaHex: seq<byte> -> seq<byte>, c: Card, env: Env)
    requires Transfers(env) && !Accepts(shaHex, env)
    ensures FileOf(Last(Update(shaHex, c, env)), !SecondNamed(c.active)) ==
            if env.transfer.received == 0 then Some(env.transfer.content) else None
  {
  }

  // ---------------------------------------------------------------- whole runs

  ghost predicate Listed(file: Option<seq<byte>>) {
    file.Some? && file.value != []
  }

  /** There is a list to open, now and after a power loss at this moment. */
  ghost predicate HasList(c: Card) {
    Listed(Opened(c)) && Listed(Surviving(c))
  }

  /** An empty list is never published. */
  ghost predicate NeverEmpty(shaHex: seq<byte> -> seq<byte>, env: Env) {
    Matches(shaHex, env) ==> env.transfer.content != []
  }

  /** No moment of an attempt loses the list, if and only if no slot change waits for its commit
      or there is no transfer. */
  lemma AttemptKeepsListExactly(shaHex: seq<byte> -> seq<byte>, c: Card, env: Env)
    requires HasList(c) && NeverEmpty(shaHex, env)
    ensures (forall m :: m in Update(shaHex, c, env).moments ==> HasList(m)) <==> Synced(c) || !Transfers(env)
  {
    if Synced(c) || !Transfers(env) {
      EveryMomentIsSafe(shaHex, c, env);
      forall m | m in Update(shaHex, c, env).moments ensures HasList(m) {
        assert SafeAfter(shaHex, c, env, m);
      }
    } else {
      TruncatedIsAMoment(shaHex, c, env);
    }
  }

  lemma TruncatedIsAMoment(shaHex: seq<byte> -> seq<byte>, c: Card, env: Env)
    requires Transfers(env) && !Synced(c)
    ensures exists m :: m in Update(shaHex, c, env).moments && Surviving(m) == Some([])
  {
    var streaming := FileTrail(c, !SecondNamed(c.active), Contents(env.transfer));
    assert ([c] + streaming)[1] == streaming[0];
    assert streaming[0] in Update(shaHex, c, env).moments && Surviving(streaming[0]) == Some([]);
  }

  /** One attempt, left to finish or cut off at some moment by a power loss; a power loss at
      rest; a commit made for another setting. */
  datatype Life =
    | Attempted(env: Env)
    | CutOff(env: Env, at: nat, committed: bool)
    | Restarted(committed: bool)
    | OtherCommit

  function MomentAt(r: Attempt<Result, Card>, at: nat): (m: Card)
    requires r.moments != []
    ensures m in r.moments
  {
    if at < |r.moments| then r.moments[at] else Last(r)
  }

  function Live(shaHex: seq<byte> -> seq<byte>, c: Card, e: Life): Card {
    match e
    case Attempted(env) => Last(Update(shaHex, c, env))
    case CutOff(env, at, committed) => PowerCycled(MomentAt(Update(shaHex, c, env), at), committed)
    case Restarted(committed) => PowerCycled(c, committed)
    case OtherCommit => Committed(c)
  }

  function LiveThrough(shaHex: seq<byte> -> seq<byte>, c: Card, events: seq<Life>): Card {
    if events == [] then c
    else Live(shaHex, LiveThrough(shaHex, c, events[..|events| - 1]), events[|events| - 1])
  }

  /** No transfer begins while a slot change waits for its commit. */
  ghost predicate Careful(shaHex: seq<byte> -> seq<byte>, c: Card, events: seq<Life>) {
    events != [] ==>
      && Careful(shaHex, c, events[..|events| - 1])
      && CarefulStep(LiveThrough(shaHex, c, events[..|events| - 1]), events[|events| - 1])
  }

  ghost predicate CarefulStep(c: Card, e: Life) {
    e.Attempted? || e.CutOff? ==> Synced(c) || !Transfers(e.env)
  }

  /** No moment of any attempt loses the list. */
  ghost predicate AlwaysListed(shaHex: seq<byte> -> seq<byte>, c: Card, events: seq<Life>) {
    events != [] ==>
      && AlwaysListed(shaHex, c, events[..|events| - 1])
      && ListedStep(shaHex, LiveThrough(shaHex, c, events[..|events| - 1]), events[|events| - 1])
  }

  ghost predicate ListedStep(shaHex: seq<byte> -> seq<byte>, c: Card, e: Life) {
    e.Attempted? || e.CutOff? ==> forall m :: m in Update(shaHex, c, e.env).moments ==> HasList(m)
  }

  lemma StaysListed(shaHex: seq<byte> -> seq<byte>, c: Card, e: Life)
    requires HasList(c) && ListedStep(shaHex, c, e)
    ensures HasList(Live(shaHex, c, e))
  {
    match e
    case Attempted(env) => assert Last(Update(shaHex, c, env)) in Update(shaHex, c, env).moments;
    case CutOff(env, at, _) => assert HasList(MomentAt(Update(shaHex, c, env), at));
    case _ =>
  }

  /** Over every history a card that has a list has one to open at every moment, whatever fails
      and wherever the power is lost, if and only if no transfer begins while a slot change
      waits for its commit. */
  lemma {:induction false} NeverWithoutAList(shaHex: seq<byte> -> seq<byte>, c: Card, events: seq<Life>)
    requires HasList(c)
    requires forall e :: e in events ==> (e.Attempted? || e.CutOff? ==> NeverEmpty(shaHex, e.env))
    ensures AlwaysListed(shaHex, c, events) <==> Careful(shaHex, c, events)
    ensures Careful(shaHex, c, events) ==> HasList(LiveThrough(shaHex, c, events))
  {
    if events != [] {
      var before, e := LiveThrough(shaHex, c, events[..|events| - 1]), events[|events| - 1];
      assert e in events;
      NeverWithoutAList(shaHex, c, events[..|events| - 1]);
      if Careful(shaHex, c, events[..|events| - 1]) {
        if e.Attempted? || e.CutOff? {
          AttemptKeepsListExactly(shaHex, before, e.env);
        }
        if CarefulStep(before, e) {
          StaysListed(shaHex, before, e);
        }
      }
    }
  }
}
