/**
 * The batch and credit counters of an inbound path, as values: the last
 * acknowledged batch id, the last received batch id and the credit signalled
 * upstream. The class `Inbound.InboundPath` keeps these three numbers in its
 * fields and is specified by the functions here.
 */
module CreditLedger {
  import opened Wrappers

  datatype Ledger = Ledger(lastAcked: int, lastBatch: int, credit: int)

  /** Why an arriving batch is refused: its id does not advance, or it exceeds the credit. */
  datatype BatchError = StaleBatchId | CreditExceeded

  /** Acknowledged never runs ahead of received, and credit is never negative. */
  predicate Consistent(l: Ledger) {
    l.lastAcked <= l.lastBatch && l.credit >= 0
  }

  /**
   * Records an arriving batch of `size` elements with id `id`. A batch whose id
   * does not exceed the last one is stale, whatever its size; otherwise a batch
   * larger than the remaining credit is refused. A refused batch leaves no trace.
   */
  function RecordBatch(l: Ledger, size: nat, id: int): (r: Result<Ledger, BatchError>)
    ensures r.Success? <==> l.lastBatch < id && size <= l.credit
    ensures r.Failure? ==> (r.error == StaleBatchId <==> id <= l.lastBatch)
    ensures r.Success? ==>
      r.value.lastBatch == id && r.value.credit == l.credit - size && r.value.lastAcked == l.lastAcked
    ensures r.Success? && Consistent(l) ==> Consistent(r.value) && l.lastBatch < r.value.lastBatch
  {
    if id <= l.lastBatch then Failure(StaleBatchId)
    else if size > l.credit then Failure(CreditExceeded)
    else Success(l.(lastBatch := id, credit := l.credit - size))
  }

  /**
   * Grants `newDemand` as the new total credit (not added to what is left) and
   * acknowledges every batch received so far.
   */
  function Grant(l: Ledger, newDemand: nat): (r: Ledger)
    ensures r.credit == newDemand && r.lastBatch == l.lastBatch
    ensures r.lastAcked == l.lastBatch && Consistent(r)
    ensures Consistent(l) ==> l.lastAcked <= r.lastAcked
  {
    l.(lastAcked := l.lastBatch, credit := newDemand)
  }

  // ---- sequences of batches ------------------------------------------------

  datatype Batch = Batch(size: nat, id: int)

  /** Records `bs` in order, stopping at the first refused batch. */
  function ApplyBatches(l: Ledger, bs: seq<Batch>): Result<Ledger, BatchError>
    decreases |bs|
  {
    if bs == [] then Success(l)
    else
      var r := RecordBatch(l, bs[0].size, bs[0].id);
      if r.Failure? then r else ApplyBatches(r.value, bs[1..])
  }

  /** The ids of `bs` are strictly increasing and all above `last`. */
  predicate IdsAbove(last: int, bs: seq<Batch>)
    decreases |bs|
  {
    bs == [] || (last < bs[0].id && IdsAbove(bs[0].id, bs[1..]))
  }

  function TotalSize(bs: seq<Batch>): nat
    decreases |bs|
  {
    if bs == [] then 0 else bs[0].size + TotalSize(bs[1..])
  }

  /**
   * A sequence of batches is accepted exactly when its ids strictly increase
   * past the last received one and its sizes fit the credit together; then the
   * credit left is the credit minus the sum of the sizes, the last received id
   * is that of the last batch, and nothing gets acknowledged.
   */
  lemma {:induction false} ApplyBatchesAccepted(l: Ledger, bs: seq<Batch>)
    requires l.credit >= 0
    ensures ApplyBatches(l, bs).Success? <==> IdsAbove(l.lastBatch, bs) && TotalSize(bs) <= l.credit
    ensures ApplyBatches(l, bs).Success? ==>
      var r := ApplyBatches(l, bs).value;
      && r.credit == l.credit - TotalSize(bs)
      && r.lastAcked == l.lastAcked
      && r.lastBatch == (if bs == [] then l.lastBatch else bs[|bs| - 1].id)
    decreases |bs|
  {
    if bs != [] {
      var r := RecordBatch(l, bs[0].size, bs[0].id);
      if r.Success? {
        assert ApplyBatches(l, bs) == ApplyBatches(r.value, bs[1..]);
        assert TotalSize(bs) == bs[0].size + TotalSize(bs[1..]);
        ApplyBatchesAccepted(r.value, bs[1..]);
        if |bs| > 1 {
          assert bs[1..][|bs| - 2] == bs[|bs| - 1];
        }
      } else {
        assert TotalSize(bs) == bs[0].size + TotalSize(bs[1..]);
      }
    }
  }

  // ---- arbitrary traces of batches and acknowledgments -----------------------

  /** One event on a path: an arriving batch, or a credit grant. */
  datatype LedgerOp = OnBatch(size: nat, id: int) | OnAck(newDemand: nat)

  /** The ledger after `op`; a refused batch is reported and leaves the ledger as it was. */
  function Step(l: Ledger, op: LedgerOp): Ledger {
    match op
    case OnBatch(size, id) =>
      var r := RecordBatch(l, size, id);
      if r.Success? then r.value else l
    case OnAck(newDemand) => Grant(l, newDemand)
  }

  function Run(l: Ledger, ops: seq<LedgerOp>): Ledger
    decreases |ops|
  {
    if ops == [] then l else Run(Step(l, ops[0]), ops[1..])
  }

  /**
   * Over any trace: the counters stay consistent (acknowledged never ahead of
   * received, credit never negative), neither batch id ever decreases, and
   * without a grant the credit never grows.
   */
  lemma {:induction false} RunKeepsConsistent(l: Ledger, ops: seq<LedgerOp>)
    requires Consistent(l)
    ensures Consistent(Run(l, ops))
    ensures l.lastBatch <= Run(l, ops).lastBatch && l.lastAcked <= Run(l, ops).lastAcked
    ensures (forall i :: 0 <= i < |ops| ==> ops[i].OnBatch?) ==> Run(l, ops).credit <= l.credit
    decreases |ops|
  {
    if ops != [] {
      var l' := Step(l, ops[0]);
      assert Consistent(l') && l.lastBatch <= l'.lastBatch && l.lastAcked <= l'.lastAcked;
      assert ops[0].OnBatch? ==> l'.credit <= l.credit;
      RunKeepsConsistent(l', ops[1..]);
      assert forall i :: 1 <= i < |ops| ==> ops[1..][i - 1] == ops[i];
    }
  }
}
