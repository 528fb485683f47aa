/** The handle exchange entry as the entry points use it: created, started
    once, then updated until it reports completion, after which the handle
    registry holds what the peer exposed. */
module HandleExchange {
  import opened Pt2ptCommon

  datatype EntryStatus = NotStarted | Active | Completed

  class HandleExchangeEntry {
    /** The role this side declared. */
    const role: Role
    /** What handle slot (0, 0) resolves to once the exchange has completed. */
    const peerHandle: Ptr
    var status: EntryStatus
    /** The `update` calls still needed before the peer has done its part. */
    var pendingUpdates: nat

    constructor (role: Role, behaviour: ExchangeBehaviour)
      ensures this.role == role && peerHandle == behaviour.peerHandle
      ensures status == NotStarted && pendingUpdates == behaviour.updatesToComplete
    {
      this.role := role;
      peerHandle := behaviour.peerHandle;
      status := NotStarted;
      pendingUpdates := behaviour.updatesToComplete;
    }

    predicate IsCompleted()
      reads this
    {
      status == Completed
    }

    predicate Started()
      reads this
    {
      status != NotStarted
    }

    /** A measure that every `update` of an active entry decreases. */
    function Progress(): nat
      reads this
    {
      if status == Active then pendingUpdates + 1 else 0
    }

    /** Must be called exactly once, before any `update`. */
    method Start()
      requires status == NotStarted
      modifies this
      ensures status == Active && pendingUpdates == old(pendingUpdates)
    {
      status := Active;
    }

    /** One non-blocking step; a no-op once completed. */
    method Update()
      requires Started()
      modifies this
      ensures Started()
      ensures old(status) == Completed ==> status == Completed && pendingUpdates == old(pendingUpdates)
      ensures old(status) == Active ==> Progress() < old(Progress())
      ensures old(status) == Active && old(pendingUpdates) == 0 ==> IsCompleted()
      ensures old(status) == Active && old(pendingUpdates) > 0 ==>
        status == Active && pendingUpdates == old(pendingUpdates) - 1
    {
      if status == Active {
        if pendingUpdates == 0 {
          status := Completed;
        } else {
          pendingUpdates := pendingUpdates - 1;
        }
      }
    }

    /** The registry lookup of handle slot 0 for peer 0 after completion. */
    method GetHandle() returns (p: Ptr)
      requires IsCompleted()
      ensures p == peerHandle
    {
      p := peerHandle;
    }
  }
}
