/**
 * The messages an inbound path sends to its source actor (upstream), and the
 * identities they carry. Actor handles, error values and slot ids are opaque
 * here: only their equality matters to the path.
 */
module UpstreamMsg {
  import opened Wrappers

  /** An actor handle or address (`strong_actor_ptr`, `actor_addr`, `local_actor*`). */
  datatype ActorId = ActorId(id: nat)

  /** The error a stream was aborted with, compared only for equality. */
  datatype ErrorCode = ErrorCode(code: nat)

  /** The slot pair naming one stream: the sender's (source's) and the receiver's slot. */
  datatype Slots = Slots(sender: nat, receiver: nat)

  /**
   * The four upstream messages: the open acknowledgment, the batch
   * acknowledgment, the graceful shutdown (`upstream_msg::drop`) and the
   * error shutdown (`upstream_msg::forced_drop`). `to` is the recipient,
   * `sender` the actor the path lives in.
   */
  datatype Msg =
    | AckOpen(to: ActorId, sender: ActorId, slots: Slots, rebindFrom: Option<ActorId>,
              credit: int, desiredBatchSize: int, redeployable: bool)
    | AckBatch(to: ActorId, sender: ActorId, slots: Slots,
               credit: int, desiredBatchSize: int, ackedBatchId: int)
    | Drop(to: ActorId, sender: ActorId, slots: Slots)
    | ForcedDrop(to: ActorId, sender: ActorId, slots: Slots, reason: ErrorCode)

  /** Whether `m` is one of the two shutdown notifications. */
  predicate IsShutdown(m: Msg) {
    m.Drop? || m.ForcedDrop?
  }

  /** How many shutdown notifications `ms` holds. */
  function ShutdownCount(ms: seq<Msg>): (n: nat)
    ensures n <= |ms|
    ensures n == 0 <==> forall i :: 0 <= i < |ms| ==> !IsShutdown(ms[i])
  {
    if ms == [] then 0
    else (if IsShutdown(ms[0]) then 1 else 0) + ShutdownCount(ms[1..])
  }

  /** Appending one message adds one to the count exactly when it is a shutdown. */
  lemma {:induction false} ShutdownCountAppend(ms: seq<Msg>, m: Msg)
    ensures ShutdownCount(ms + [m]) == ShutdownCount(ms) + (if IsShutdown(m) then 1 else 0)
  {
    if ms != [] {
      assert (ms + [m])[1..] == ms[1..] + [m];
      ShutdownCountAppend(ms[1..], m);
    }
  }
}
