/** What the two A/B updates of components/blocklist_updater/blocklist_updater.c share: the
    slot byte and its two outcomes of a failed write, and the record of an attempt. */
module Slots {
  import opened Words

  /** Slot byte 0 names the first of two places, every other value the second. */
  function SecondNamed(slot: byte): bool {
    slot != 0
  }

  function SlotByte(second: bool): byte {
    if second then 1 else 0
  }

  /** Setting the slot byte: set and committed; refused; set, but the commit failed. A byte
      that is set but not committed is what the getter returns, until a power loss. */
  datatype Flip = Flipped | NotStored | CommitFailed

  /** The outcome of an attempt and every state along the way, the last one final. */
  datatype Attempt<+R, +S> = Attempt(result: R, moments: seq<S>)

  function Last<R, S>(r: Attempt<R, S>): S
    requires r.moments != []
  {
    r.moments[|r.moments| - 1]
  }
}
