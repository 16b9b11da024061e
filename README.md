# Inbound stream path of the C++ Actor Framework, in Dafny

This project models `caf::inbound_path`: the state an actor keeps for one
upstream source that streams batches to it. The path does credit-based flow
control. It counts the batches it receives against the credit it has signalled
upstream. It acknowledges batches and grants new credit. When it goes away it
sends exactly one shutdown notification: a graceful `upstream_msg::drop`, or an
`upstream_msg::forced_drop` carrying the error stored in `shutdown_reason`.

Layout:

- `wrappers.dfy`: `Option` and `Result`.
- `upstream_msg.dfy` (module `UpstreamMsg`): opaque actor ids, error codes and
  slot pairs, and the four upstream messages (open acknowledgment, batch
  acknowledgment, `drop`, `forced_drop`). It also counts the shutdown messages
  in a sequence.
- `credit_ledger.dfy` (module `CreditLedger`): the three counters
  `last_acked_batch_id`, `last_batch_id` and `assigned_credit` as a value.
  Two functions specify a batch arrival and a credit grant. Lemmas cover whole
  sequences of batches and arbitrary traces of batches and grants.
- `inbound_path.dfy` (module `Inbound`): the class `InboundPath`, one field per
  field of the C++ class plus `outbox` (everything sent, oldest first) and
  `notified`. Each method's `modifies` clause names exactly the fields it
  changes, so "nothing else changes" is enforced by the frame. `Valid()` keeps
  the counters consistent (`last_acked_batch_id <= last_batch_id`, credit
  non-negative). It also keeps the number of shutdown messages in the outbox at
  one once the path is notified, and at zero before.
- `scenarios.dfy` (module `Scenarios`): client runs that drive a path as its
  manager would. Their results follow from the class contracts alone.

Decisions about behaviour the header states only in its comments:

- Only the header `libcaf_core/caf/inbound_path.hpp` is modelled, and the
  implementation file is not part of this model. Method bodies follow the
  header's doc comments where those say enough. Where the comments are silent,
  or say otherwise, the bodies follow the protocol's own rules: protocol
  violations are reported rather than applied, and a path sends exactly one
  shutdown notification. Each such departure is listed under "## Left out".
- `handle_batch` refuses a batch whose id is not above `last_batch_id`. This
  check comes first, so such a batch is refused whatever its size. It also
  refuses a batch larger than `assigned_credit`. A refused batch is reported as
  a `BatchError` and changes nothing. An accepted batch sets `last_batch_id` to
  its id and subtracts its size from the credit.
- `emit_ack_batch` sets the credit to `new_demand`; it does not add to it. It
  also sets `last_acked_batch_id` to `last_batch_id`.
- The destructor's send is the explicit method `Teardown`. Both
  `emit_regular_shutdown` overloads send at once and mark the path notified.
  All three are no-ops on a path that is already notified. The overload that
  takes a reason sends a `forced_drop` and does not store the reason in
  `shutdown_reason`.
- The C++ fields are public, and so are the Dafny `var`s; the scenarios assign
  `desired_batch_size` directly. The shutdown reason is recorded through
  `SetShutdownReason`, which keeps the first reason and ignores later ones.
- Every message carries the path's `slots` as stored. It is addressed to `hdl`
  and names the sending actor (`self`). The open acknowledgment also carries
  `rebind_from`.

## Model

| member | source | states |
|---|---|---|
| `Inbound.InboundPath.constructor` | libcaf_core/caf/inbound_path.hpp:81-83 | stores the given manager, slots and handle unchanged; no batch received or acknowledged, zero credit, no shutdown reason, not redeployable; nothing sent; the path invariant holds |
| `Inbound.InboundPath.HandleBatch` | libcaf_core/caf/inbound_path.hpp:87-88 | accepts a batch exactly when its id exceeds the last one and its size fits the credit; a stale id is refused whatever the size; on acceptance `last_batch_id` becomes the id and the credit drops by the size; only those two fields may change; a refused batch changes nothing; keeps `last_acked <= last_received` and credit >= 0 |
| `Inbound.InboundPath.EmitAckOpen` | libcaf_core/caf/inbound_path.hpp:90-93 | credit becomes exactly `initial_demand` and `redeployable` becomes `is_redeployable`; appends exactly one open acknowledgment carrying that credit, the desired batch size and `rebind_from` |
| `Inbound.InboundPath.EmitAckBatch` | libcaf_core/caf/inbound_path.hpp:95-96 | credit becomes exactly `new_demand`, even below what was left; `last_acked_batch_id` becomes `last_batch_id`; appends exactly one batch acknowledgment |
| `Inbound.InboundPath.EmitRegularShutdown` | libcaf_core/caf/inbound_path.hpp:98-99 | sends a `drop` unless already notified; afterwards exactly one shutdown message has been sent |
| `Inbound.InboundPath.EmitRegularShutdownWithReason` | libcaf_core/caf/inbound_path.hpp:101-102 | sends a `forced_drop` carrying the reason unless already notified; afterwards exactly one shutdown message has been sent |
| `Inbound.InboundPath.EmitIrregularShutdown` | libcaf_core/caf/inbound_path.hpp:104-107 | static and reads no path: yields one `forced_drop` to the given handle with the given slots and the reason verbatim |
| `Inbound.InboundPath.ShutdownNotice` | libcaf_core/caf/inbound_path.hpp:43-47 | the final notification is a `drop` exactly when no shutdown reason is set; otherwise it is the same `forced_drop` that `EmitIrregularShutdown` yields for that reason |
| `Inbound.InboundPath.Teardown` | libcaf_core/caf/inbound_path.hpp:85 | the destructor's send, made idempotent: the first call appends the notice chosen by `shutdown_reason`, a later call appends nothing; afterwards exactly one shutdown message has been sent |
| `Inbound.InboundPath.SetShutdownReason` | libcaf_core/caf/inbound_path.hpp:77-79 | records the error the stream failed with, once: the first reason is stored and reported as stored, a later one is reported as not stored and changes nothing; afterwards a reason is present |
| `Inbound.InboundPath.Notify` | libcaf_core/caf/inbound_path.hpp:85-102 | a shutdown is appended only when none was sent before, so the path sends at most one |
| `Inbound.InboundPath.Inspect` | libcaf_core/caf/inbound_path.hpp:110-115 | projects handle, slots, priority, last acknowledged id, last received id and credit, in that order |
| `Inbound.InspectSeesExactly` | libcaf_core/caf/inbound_path.hpp:111-115 | two paths inspect equal exactly when those six fields agree; manager, desired batch size, redeployable flag and shutdown reason are invisible |
| `CreditLedger.RecordBatch` | libcaf_core/caf/inbound_path.hpp:87-88 | success exactly when the id advances and the size fits the credit; a stale id is reported as such; on success the id is recorded, the credit reduced by the size, the acknowledged id kept; consistency is preserved and the received id strictly grows |
| `CreditLedger.Grant` | libcaf_core/caf/inbound_path.hpp:95-96 | the credit equals the new demand, every received batch is acknowledged, the result is consistent and the acknowledged id never goes back |
| `CreditLedger.ApplyBatchesAccepted` | libcaf_core/caf/inbound_path.hpp:61-68 | a batch sequence is accepted exactly when its ids strictly increase past the last one and its total size fits the credit; then credit = initial credit minus the sum of sizes, the last received id is the last batch's, nothing is acknowledged |
| `CreditLedger.RunKeepsConsistent` | libcaf_core/caf/inbound_path.hpp:61-68 | over any trace of batches and grants the counters stay consistent, neither batch id ever decreases, and without a grant the credit never grows |
| `UpstreamMsg.ShutdownCount` | libcaf_core/caf/inbound_path.hpp:43-47 | the number of shutdown messages is at most the number of messages, and zero exactly when none is a `drop` or `forced_drop` |
| `UpstreamMsg.ShutdownCountAppend` | libcaf_core/caf/inbound_path.hpp:43-47 | appending a message raises the count by one exactly when it is a shutdown |
| `Scenarios.CleanCloseScenario` | libcaf_core/caf/inbound_path.hpp:81-107 | open(100), batches of 20 with ids 1 and 2, ack(100), close, destroy: credit goes 100, 80, 60, 100 and stays 100 through the close; the source receives the open ack, one batch ack for batch 2 and exactly one `drop` |
| `Scenarios.TeardownScenario` | libcaf_core/caf/inbound_path.hpp:77-85 | a second recorded reason is ignored, and tearing down twice yields one notification: a `drop` without a reason, a `forced_drop` carrying the first reason verbatim with one |
| `Scenarios.RejectionScenario` | libcaf_core/caf/inbound_path.hpp:87-88 | a repeated id is refused as stale even within the credit, an oversized batch as over the credit, and neither changes the counters |

## Left out

- Message delivery through `local_actor*` is not modelled. A send is an append to `outbox`, and actors are opaque ids.
- Reference counting of `strong_actor_ptr` and `actor_addr` is not modelled. A handle cannot be null or become unresolvable here.
- The stream manager behind `mgr` is not modelled, and neither is its cross-path credit and priority policy. The field is kept as an opaque identity that the model never consults.
- `stream_aborter::source_aborter` (line 41) is not modelled: it monitors the source from the runtime side.
- The Inspector serialization framework and `meta::type_name` are left out. Only the projection order of `inspect` is kept.
- `error` values are opaque codes compared for equality.
- `stream_slots`, `stream_priority` and `upstream_msg` are not part of this model. Slots are a pair of naturals sent as stored, with no inversion. Priority takes the five levels of `stream_priority`. The constructor's defaults are taken to be `normal` priority and a desired batch size of 0, since the header does not state them.
- Counters are unbounded integers. The 64-bit wrap-around of `int64_t` and `long` is not modelled. Batch sizes, `initial_demand` and `new_demand` are naturals, because a negative credit grant has no meaning in the protocol.
- Inbound.InboundPath.EmitAckOpen: the header's comment (lines 90-91) names the message it emits `stream_msg::ack_batch`; the model sends a distinct open acknowledgment (`AckOpen`), because it carries `rebind_from` and the redeployable flag, which a batch acknowledgment does not.
- Inbound.InboundPath.EmitAckOpen: a second open handshake is not rejected, and neither is an open or batch acknowledgment on a path that was already notified. The acknowledgment methods send unconditionally, so usage errors after closing are not reported.
- Inbound.InboundPath.HandleBatch: the header declares `void handle_batch` (line 88) and says only that it updates `last_batch_id` and `assigned_credit` (line 87). The model instead refuses a stale id or a batch over the credit, returns a `BatchError`, and leaves the path unchanged.
- Inbound.InboundPath.EmitRegularShutdown: the header says it sends a `drop` (line 98), and that the destructor sends a shutdown too (lines 77-78). Taken literally, calling it and then destroying the path sends two shutdowns. The model sends nothing once the path is notified, so the path sends exactly one shutdown in total.
- Inbound.InboundPath.EmitRegularShutdownWithReason: the same as for `EmitRegularShutdown`. It sends a `forced_drop` (line 101) only when the path is not yet notified, and it does not store its reason in `shutdown_reason`.
- Inbound.InboundPath.SetShutdownReason: `shutdown_reason` is a public field in the header (line 79) and nothing there stops a second write. The model keeps the first reason when it is set through this method. The Dafny field itself is still public, so a client assigning it directly is not stopped either.
- The lifecycle phases (opening, open, closing clean, closing with error, closed) are not a field. They are implied by the credit, `shutdown_reason` and `notified`.
- `libcaf_io/caf/io/fwd.hpp` holds only forward declarations of network I/O classes and is not part of this model.
