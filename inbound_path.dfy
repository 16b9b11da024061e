/**
 * The per-source inbound stream path (`caf::inbound_path`): the state a
 * destination keeps for one upstream source, with credit-based flow control
 * and a single shutdown notification. Sending is modelled as appending to
 * `outbox`; the destructor's send becomes the explicit, idempotent `Teardown`.
 */
module Inbound {
  import opened Wrappers
  import opened UpstreamMsg
  import opened CreditLedger

  /** The priority levels of `caf::stream_priority`. */
  datatype Priority = VeryHigh | High | Normal | Low | VeryLow

  /** The stream manager a path reports to, known only by identity. */
  datatype ManagerRef = ManagerRef(id: nat)

  class InboundPath {
    /** The stream manager that owns this path and decides when to grant credit. */
    var mgr: ManagerRef
    /** Slot ids of the sender (the source) and the receiver (this actor). */
    var slots: Slots
    /** Handle to the source; every upstream message is addressed to it. */
    var hdl: ActorId
    var prio: Priority
    var lastAckedBatchId: int
    var lastBatchId: int
    /** Credit signalled upstream and not yet used up by batches. */
    var assignedCredit: int
    /** Ideal batch size, set by the manager and echoed in acknowledgments. */
    var desiredBatchSize: int
    /** Whether the runtime may redeploy the source on failure. */
    var redeployable: bool
    /** Absent, or the error that makes the final notification a `forced_drop`. */
    var shutdownReason: Option<ErrorCode>
    /** Every message this path has sent, oldest first. */
    var outbox: seq<Msg>
    /** Whether the one shutdown notification has been sent. */
    var notified: bool

    /** The three counters of this path as a ledger value. */
    function Counters(): Ledger
      reads this
    {
      Ledger(lastAckedBatchId, lastBatchId, assignedCredit)
    }

    /**
     * The path invariant: the counters are consistent, and the outbox holds a
     * shutdown notification exactly once after notification and never before.
     */
    ghost predicate Valid()
      reads this
    {
      && Consistent(Counters())
      && ShutdownCount(outbox) == (if notified then 1 else 0)
    }

    /**
     * Creates a path for the source `ptr` on the stream `id`: no batch received
     * or acknowledged, no credit, no shutdown reason, and nothing sent.
     */
    constructor (mgrPtr: ManagerRef, id: Slots, ptr: ActorId)
      ensures Valid()
      ensures mgr == mgrPtr && slots == id && hdl == ptr && prio == Normal
      ensures lastAckedBatchId == 0 && lastBatchId == 0 && assignedCredit == 0
      ensures desiredBatchSize == 0 && !redeployable && shutdownReason == None
      ensures outbox == [] && !notified
    {
      mgr, slots, hdl, prio := mgrPtr, id, ptr, Normal;
      lastAckedBatchId, lastBatchId, assignedCredit := 0, 0, 0;
      desiredBatchSize, redeployable, shutdownReason := 0, false, None;
      outbox, notified := [], false;
    }

    /**
     * Records an arriving batch. A stale id (not above the last one) or a batch
     * larger than the assigned credit is a protocol violation: it is reported
     * and changes nothing. Otherwise only the last batch id and the credit
     * change; the frame keeps every other field and the outbox as they were.
     */
    method HandleBatch(batchSize: nat, batchId: int) returns (rejected: Option<BatchError>)
      requires Valid()
      modifies this`lastBatchId, this`assignedCredit
      ensures Valid()
      ensures rejected == None <==> old(lastBatchId) < batchId && batchSize <= old(assignedCredit)
      ensures rejected == Some(StaleBatchId) <==> batchId <= old(lastBatchId)
      ensures rejected == None ==> lastBatchId == batchId && assignedCredit == old(assignedCredit) - batchSize
      ensures rejected != None ==> lastBatchId == old(lastBatchId) && assignedCredit == old(assignedCredit)
      ensures RecordBatch(old(Counters()), batchSize, batchId)
              == if rejected.None? then Success(Counters()) else Failure(rejected.value)
    {
      if batchId <= lastBatchId {
        return Some(StaleBatchId);
      }
      if batchSize > assignedCredit {
        return Some(CreditExceeded);
      }
      lastBatchId := batchId;
      assignedCredit := assignedCredit - batchSize;
      rejected := None;
    }

    /**
     * Opens the path: sets the credit to `initialDemand`, stores the
     * redeployable flag and sends one open acknowledgment carrying that credit
     * and the desired batch size.
     */
    method EmitAckOpen(self: ActorId, rebindFrom: Option<ActorId>, initialDemand: nat, isRedeployable: bool)
      requires Valid()
      modifies this`assignedCredit, this`redeployable, this`outbox
      ensures Valid()
      ensures assignedCredit == initialDemand && redeployable == isRedeployable
      ensures outbox == old(outbox)
                        + [AckOpen(hdl, self, slots, rebindFrom, initialDemand, desiredBatchSize, isRedeployable)]
    {
      assignedCredit := initialDemand;
      redeployable := isRedeployable;
      var m := AckOpen(hdl, self, slots, rebindFrom, initialDemand, desiredBatchSize, isRedeployable);
      ShutdownCountAppend(outbox, m);
      outbox := outbox + [m];
    }

    /**
     * Acknowledges every batch received so far and grants `newDemand` as the
     * new credit, even when that is less than what was left; sends one batch
     * acknowledgment.
     */
    method EmitAckBatch(self: ActorId, newDemand: nat)
      requires Valid()
      modifies this`assignedCredit, this`lastAckedBatchId, this`outbox
      ensures Valid()
      ensures Counters() == Grant(old(Counters()), newDemand)
      ensures assignedCredit == newDemand && lastAckedBatchId == lastBatchId
      ensures outbox == old(outbox)
                        + [AckBatch(hdl, self, slots, newDemand, desiredBatchSize, lastBatchId)]
    {
      lastAckedBatchId := lastBatchId;
      assignedCredit := newDemand;
      var m := AckBatch(hdl, self, slots, newDemand, desiredBatchSize, lastBatchId);
      ShutdownCountAppend(outbox, m);
      outbox := outbox + [m];
    }

    /**
     * Records the error the stream failed with. The reason is chosen once: the
     * first reason sticks, and a later one is reported as not stored and
     * leaves the path as it was.
     */
    method SetShutdownReason(e: ErrorCode) returns (stored: bool)
      requires Valid()
      modifies this`shutdownReason
      ensures Valid()
      ensures stored <==> old(shutdownReason).None?
      ensures shutdownReason == if stored then Some(e) else old(shutdownReason)
      ensures shutdownReason.Some?
    {
      stored := shutdownReason.None?;
      if stored {
        shutdownReason := Some(e);
      }
    }

    /** Sends the shutdown `m` unless a shutdown was already sent. */
    method Notify(m: Msg)
      requires Valid() && IsShutdown(m)
      modifies this`outbox, this`notified
      ensures Valid() && notified
      ensures outbox == if old(notified) then old(outbox) else old(outbox) + [m]
    {
      if !notified {
        ShutdownCountAppend(outbox, m);
        outbox := outbox + [m];
        notified := true;
      }
    }

    /** Sends a graceful `drop` on this path, unless it has already been notified. */
    method EmitRegularShutdown(self: ActorId)
      requires Valid()
      modifies this`outbox, this`notified
      ensures Valid() && notified && ShutdownCount(outbox) == 1
      ensures outbox == if old(notified) then old(outbox) else old(outbox) + [Drop(hdl, self, slots)]
    {
      Notify(Drop(hdl, self, slots));
    }

    /** Sends a `forced_drop` carrying `reason`, unless the path has already been notified. */
    method EmitRegularShutdownWithReason(self: ActorId, reason: ErrorCode)
      requires Valid()
      modifies this`outbox, this`notified
      ensures Valid() && notified && ShutdownCount(outbox) == 1
      ensures outbox == if old(notified) then old(outbox) else old(outbox) + [ForcedDrop(hdl, self, slots, reason)]
    {
      Notify(ForcedDrop(hdl, self, slots, reason));
    }

    /**
     * The `forced_drop` for a path given only by its slots and source handle;
     * it reads no path object, so it serves paths that have none.
     */
    static function EmitIrregularShutdown(self: ActorId, slots: Slots, hdl: ActorId, reason: ErrorCode): (m: Msg)
      ensures m.ForcedDrop? && m.to == hdl && m.sender == self
      ensures m.slots == slots && m.reason == reason
    {
      ForcedDrop(hdl, self, slots, reason)
    }

    /**
     * The notification sent when a path goes away: a graceful `drop` when no
     * shutdown reason is set, otherwise the same `forced_drop` carrying the
     * reason that `EmitIrregularShutdown` would send.
     */
    static function ShutdownNotice(self: ActorId, slots: Slots, hdl: ActorId, reason: Option<ErrorCode>): (m: Msg)
      ensures IsShutdown(m) && m.to == hdl && m.sender == self && m.slots == slots
      ensures m.Drop? <==> reason.None?
      ensures reason.Some? ==> m == EmitIrregularShutdown(self, slots, hdl, reason.value)
    {
      match reason
      case None => Drop(hdl, self, slots)
      case Some(e) => EmitIrregularShutdown(self, slots, hdl, e)
    }

    /**
     * Replaces the destructor: sends the final notification chosen by
     * `shutdownReason`, once. After it exactly one shutdown has been sent,
     * and a second call changes nothing.
     */
    method Teardown(self: ActorId)
      requires Valid()
      modifies this`outbox, this`notified
      ensures Valid() && notified && ShutdownCount(outbox) == 1
      ensures outbox == if old(notified) then old(outbox)
                        else old(outbox) + [ShutdownNotice(self, slots, hdl, shutdownReason)]
    {
      Notify(ShutdownNotice(self, slots, hdl, shutdownReason));
    }

    /**
     * The fields `inspect` exposes, in its order: handle, slots, priority, last
     * acknowledged id, last received id, credit. The manager, desired batch
     * size, redeployable flag and shutdown reason are not part of it.
     */
    function Inspect(): (v: (ActorId, Slots, Priority, int, int, int))
      reads this
      ensures v.0 == hdl && v.1 == slots && v.2 == prio
      ensures Ledger(v.3, v.4, v.5) == Counters()
    {
      (hdl, slots, prio, lastAckedBatchId, lastBatchId, assignedCredit)
    }
  }

  /**
   * Two paths look the same to `inspect` exactly when they agree on the six
   * projected fields; whatever else differs is invisible to it.
   */
  lemma InspectSeesExactly(p: InboundPath, q: InboundPath)
    ensures p.Inspect() == q.Inspect() <==>
      && p.hdl == q.hdl && p.slots == q.slots && p.prio == q.prio
      && p.lastAckedBatchId == q.lastAckedBatchId && p.lastBatchId == q.lastBatchId
      && p.assignedCredit == q.assignedCredit
  {
  }
}
