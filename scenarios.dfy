/**
 * Client runs of `Inbound.InboundPath`, as the owning manager drives a path:
 * they show what a caller can conclude from the path's contracts alone.
 */
module Scenarios {
  import opened Wrappers
  import opened UpstreamMsg
  import opened CreditLedger
  import opened Inbound

  /**
   * Open with 100 credit and desired batch size 20, two batches of 20, an
   * acknowledgment granting 100, a graceful close, then destruction: the credit
   * goes 100, 80, 60, 100 and does not change at the close, and the source receives the open acknowledgment, one
   * batch acknowledgment for batch 2 and exactly one `drop`.
   */
  method CleanCloseScenario(m: ManagerRef, self: ActorId, src: ActorId)
    returns (msgs: seq<Msg>, credits: seq<int>)
    ensures credits == [100, 80, 60, 100, 100]
    ensures msgs == [AckOpen(src, self, Slots(3, 7), None, 100, 20, false),
                     AckBatch(src, self, Slots(3, 7), 100, 20, 2),
                     Drop(src, self, Slots(3, 7))]
    ensures ShutdownCount(msgs) == 1
  {
    var p := new InboundPath(m, Slots(3, 7), src);
    p.desiredBatchSize := 20;
    p.EmitAckOpen(self, None, 100, false);
    credits := [p.assignedCredit];
    var r1 := p.HandleBatch(20, 1);
    credits := credits + [p.assignedCredit];
    var r2 := p.HandleBatch(20, 2);
    credits := credits + [p.assignedCredit];
    p.EmitAckBatch(self, 100);
    credits := credits + [p.assignedCredit];
    p.EmitRegularShutdown(self);
    p.Teardown(self);
    credits := credits + [p.assignedCredit];
    msgs := p.outbox;
  }

  /**
   * Open, one batch, then the manager records `reason` (if any) and tries to
   * record a second error `later`, and the path is torn down twice: exactly one
   * notification results, a `drop` when no reason was recorded and otherwise a
   * `forced_drop` carrying the first reason, not the later one.
   */
  method TeardownScenario(m: ManagerRef, self: ActorId, src: ActorId, ids: Slots,
                           reason: Option<ErrorCode>, later: ErrorCode)
    returns (msgs: seq<Msg>)
    ensures |msgs| == 2 && msgs[0].AckOpen? && ShutdownCount(msgs) == 1
    ensures msgs[1].Drop? <==> reason.None?
    ensures reason.Some? ==> msgs[1] == ForcedDrop(src, self, ids, reason.value)
  {
    var p := new InboundPath(m, ids, src);
    p.EmitAckOpen(self, None, 10, true);
    var r := p.HandleBatch(5, 1);
    if reason.Some? {
      var first := p.SetShutdownReason(reason.value);
      var second := p.SetShutdownReason(later);
    }
    p.Teardown(self);
    p.Teardown(self);
    msgs := p.outbox;
  }

  /**
   * Protocol violations are refused without effect: after a batch with id 4, a
   * repeated id 4 is stale even though it fits the credit, and a batch larger
   * than the remaining credit is refused; the counters stay at id 4 and 6 credit.
   */
  method RejectionScenario(m: ManagerRef, self: ActorId, src: ActorId)
    returns (stale: Option<BatchError>, over: Option<BatchError>, counters: Ledger)
    ensures stale == Some(StaleBatchId) && over == Some(CreditExceeded)
    ensures counters == Ledger(0, 4, 6)
  {
    var p := new InboundPath(m, Slots(1, 2), src);
    p.EmitAckOpen(self, None, 10, false);
    var ok := p.HandleBatch(4, 4);
    stale := p.HandleBatch(1, 4);
    over := p.HandleBatch(7, 5);
    counters := p.Counters();
  }
}
