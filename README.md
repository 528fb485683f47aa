# SYCL point-to-point send/recv in oneCCL, modelled in Dafny

This project models the point-to-point transfer protocol that oneCCL uses to
move a buffer between two accelerator processes on one node
(`send_sycl` / `recv_sycl` and their single-node halves), together with the
element-type trait table of the public header.

Each entry point:

1. reads the topology manager's `is_single_node` and `is_single_card`, but
   only with the native backend; otherwise both flags stay false;
2. overwrites the process-wide `sycl_pt2pt_read` flag. A single card sets it
   to read mode. An ARC device then sets it to write mode, so ARC wins;
3. throws "not supported" with `done = false` off a single node;
4. on a single node, builds the ready/done tags. The sender builds them from
   its peer's node-local rank and the receiver from its own;
5. takes one of three paths:
   - ack-only, for an empty transfer or a one-rank communicator;
   - ring delegation, for an ARC device with no active group;
   - otherwise a handle exchange, driven with `start` and then `update`
     until it completes, followed by a ready sync, a null check of the
     peer's pointer, one device copy and a done acknowledgment. In read
     mode the receiver does the copy; in write mode the sender does.

How the model is built:

- Enqueue calls are recorded as a trace of `Action`s: `WaitDeps`,
  `Exchange(role)`, `PreSync(doSend, tag)`, `Copy(dst, src, bytes)`,
  `PostAck(doSend, tag)` and `DelegateToRing`.
- A call ends in an `Outcome`. It is either `Returned(trace, done)` or
  `Thrown(error, trace, done)`. `done` records what happened to the caller's
  flag: written, left unwritten, or left to the ring path.
- `GlobalState.ProcessState` is a class holding the process-wide
  `sycl_pt2pt_read` flag and `is_group_active`.
- `SendSycl.Send` and `RecvSycl.Recv` are methods that update that object.
  They follow the code's own sequence of checks and enqueues, including the
  exchange drive loop over a `HandleExchangeEntry` object.
- Each method is proved equal to a specification function
  (`SendOutcome` / `RecvOutcome`) built on one decision table, `SelectMode`.
- Lemmas relate the two sides of one transfer: their tags, their
  acknowledgments, and which side copies.

Modules (one per file):

- `TypeTraits`: `type_info`, `is_native_type_supported` and
  `is_class_supported`.
- `Pt2ptCommon`: platform facts, tags, mode table, actions, traces and the
  copy's byte count.
- `GlobalState`: the process-wide state.
- `HandleExchange`: the exchange entry's state machine.
- `SendSycl` and `RecvSycl`: the two entry points.
- `Pt2ptProperties`: properties that relate the sender and the receiver.

Where the order of checks matters, the model follows the code. The
multi-node check comes before the empty-transfer check, so an empty
transfer off a single node also throws (`SendMultiNodeFailsFast`,
`RecvMultiNodeFailsFast`). The ring path is chosen at this layer by device
family and group state alone. No message-size threshold is applied here.

## Model

| member | source | states |
|---|---|---|
| `TypeTraits.Info` | include/oneapi/ccl/type_traits.hpp:39-79 | a type is supported exactly when it has a specialization; only supported types are classes |
| `TypeTraits.IsNativeTypeSupported` | include/oneapi/ccl/type_traits.hpp:82-85 | holds exactly for the eight fixed-width integers, float and double |
| `TypeTraits.IsClassSupported` | include/oneapi/ccl/type_traits.hpp:87-90 | holds exactly for the float16 and bfloat16 structs |
| `TypeTraits.UnspecializedDefaults` | include/oneapi/ccl/type_traits.hpp:39-40 | a type without a specialization reports size 0, datatype int8, not a class, not supported, and neither checker holds |
| `TypeTraits.FixedWidthIntegers` | include/oneapi/ccl/type_traits.hpp:43-66 | each fixed-width integer maps to the datatype of the same name; its size in bits is its width; it is supported and not a class |
| `TypeTraits.FloatingPointTypes` | include/oneapi/ccl/type_traits.hpp:68-72 | float is float32 in 4 bytes and double is float64 in 8 bytes; both are native-supported |
| `TypeTraits.LowPrecisionStructs` | include/oneapi/ccl/type_traits.hpp:74-79 | float16 and bfloat16 map to their own datatypes as supported classes, as large as one uint16_t (2 bytes) |
| `TypeTraits.SupportCheckersExclusive` | include/oneapi/ccl/type_traits.hpp:82-90 | the two checkers never both hold; exactly one holds for a supported type and neither for an unsupported one |
| `TypeTraits.StorageType` | include/oneapi/ccl/type_traits.hpp:43-79 | every datatype is the datatype of some supported element type |
| `TypeTraits.DatatypeRoundTrip` | include/oneapi/ccl/type_traits.hpp:43-79 | the datatype column is one-to-one on supported types; a datatype's element size is its type's `sizeof` |
| `TypeTraits.ElementSize` | src/coll/algorithms/send/sycl/send_sycl.cpp:119 | the element size used for the copy is between 1 and 8 bytes and agrees with the trait table |
| `Pt2ptCommon.EffectiveSingleNode` | src/coll/algorithms/send/sycl/send_sycl.cpp:173-179 | the single-node fact holds only with the native backend, and there exactly when the topology manager reports one node |
| `Pt2ptCommon.EffectiveSingleCard` | src/coll/algorithms/recv/sycl/recv_sycl.cpp:171-177 | the single-card fact holds only with the native backend, and there exactly when the topology manager reports one card |
| `Pt2ptCommon.ReadFlagAfterOverrides` | src/coll/algorithms/send/sycl/send_sycl.cpp:173-189 | an ARC device forces write mode; otherwise a single card on the native backend forces read mode; otherwise the flag keeps its value |
| `Pt2ptCommon.SelectMode` | src/coll/algorithms/send/sycl/send_sycl.cpp:54-103 | the path is Unsupported exactly off a single node, ack-only exactly for a trivial transfer on one node, ring exactly for a non-trivial transfer on ARC with no active group, and otherwise handle exchange in the flag's mode |
| `Pt2ptCommon.CopyBytes` | src/coll/algorithms/send/sycl/send_sycl.cpp:119-121 | the copy's byte count is a whole number of elements and gives back exactly `count` elements |
| `Pt2ptCommon.CopyBytesAsWritten` | src/coll/algorithms/send/sycl/send_sycl.cpp:119-121 | the code's byte count keeps only the low 32 bits of element size times `count`, sign-extended: it is below 2^31 or within 2^31 of 2^64 |
| `Pt2ptCommon.CopyBytesAsWrittenBelowLimit` | src/coll/algorithms/recv/sycl/recv_sycl.cpp:119-121 | below 2^31 bytes, the `int` byte count of the code equals the intended count |
| `Pt2ptCommon.CopyBytesAsWrittenOverflows` | src/coll/algorithms/send/sycl/send_sycl.cpp:119 | for 2^29 float32 elements, the code's byte count becomes 2^64 - 2^31 instead of 2^31 |
| `GlobalState.ProcessState.constructor` | src/coll/algorithms/send/sycl/send_sycl.cpp:69-84 | one process's own `sycl_pt2pt_read` flag and `is_group_active` state, as the entry points read them |
| `HandleExchange.HandleExchangeEntry.Start` | src/coll/algorithms/send/sycl/send_sycl.cpp:91-93 | start moves a new entry to active |
| `HandleExchange.HandleExchangeEntry.Update` | src/coll/algorithms/send/sycl/send_sycl.cpp:95-97 | update is a no-op once completed; on an active entry it uses up one of the updates the peer needs, and it completes once none is left |
| `HandleExchange.HandleExchangeEntry.GetHandle` | src/coll/algorithms/send/sycl/send_sycl.cpp:114-115 | after completion, handle slot (0, 0) yields what the peer exposed, possibly null |
| `SendSycl.SenderTags` | src/coll/algorithms/send/sycl/send_sycl.cpp:48-52 | the sender's ready and done tags are the tag creator's for its peer's node-local rank and the communicator id |
| `SendSycl.SenderRole` | src/coll/algorithms/send/sycl/send_sycl.cpp:80-84 | the sender declares role `sender` exactly in read mode |
| `SendSycl.SendSingleNode` | src/coll/algorithms/send/sycl/send_sycl.cpp:26-161 | the code's sequence of checks, drive loop and enqueues yields exactly the decision table's send outcome for the current flag and group state |
| `SendSycl.Send` | src/coll/algorithms/send/sycl/send_sycl.cpp:163-200 | the flag is left as the two overrides make it, even on the failing path; the result is the send outcome under the new flag |
| `SendSycl.SendAckOnly` | src/coll/algorithms/send/sycl/send_sycl.cpp:54-66 | a trivial send waits on its dependencies, then waits for the done ack on `tag_done`; no exchange, no copy, `done = true` |
| `SendSycl.SendMultiNodeFailsFast` | src/coll/algorithms/send/sycl/send_sycl.cpp:173-199 | off a single node, or with a non-native backend, a send throws "not supported" with `done = false` and issues nothing, even for an empty transfer |
| `SendSycl.SendRingDelegation` | src/coll/algorithms/send/sycl/send_sycl.cpp:69-75 | a non-trivial send on ARC with no active group only delegates to the ring path, whatever the flag says |
| `SendSycl.SendReadMode` | src/coll/algorithms/send/sycl/send_sycl.cpp:135-160 | in read mode the sender exchanges as `sender`, sends ready, then waits for done; it never copies, and `done = true` |
| `SendSycl.SendWriteMode` | src/coll/algorithms/send/sycl/send_sycl.cpp:103-132 | in write mode the sender exchanges as `receiver` and waits for ready. A null peer pointer then throws with `done` unwritten. Otherwise it copies `count` elements from its buffer to the peer's, then sends done |
| `RecvSycl.ReceiverTags` | src/coll/algorithms/recv/sycl/recv_sycl.cpp:40-44 | the receiver's ready and done tags are the tag creator's for its own node-local rank and the communicator id |
| `RecvSycl.ReceiverRole` | src/coll/algorithms/recv/sycl/recv_sycl.cpp:79-83 | the receiver declares role `receiver` exactly in read mode |
| `RecvSycl.RecvSingleNode` | src/coll/algorithms/recv/sycl/recv_sycl.cpp:25-159 | the code's sequence of checks, drive loop and enqueues yields exactly the decision table's recv outcome for the current flag and group state |
| `RecvSycl.Recv` | src/coll/algorithms/recv/sycl/recv_sycl.cpp:161-198 | the same two overrides as the sender, also on the failing path; the result is the recv outcome under the new flag |
| `RecvSycl.RecvAckOnly` | src/coll/algorithms/recv/sycl/recv_sycl.cpp:52-66 | a trivial recv waits on its dependencies, then sends the done ack on `tag_done`; no exchange, no copy, `done = true` |
| `RecvSycl.RecvMultiNodeFailsFast` | src/coll/algorithms/recv/sycl/recv_sycl.cpp:171-197 | off a single node, or with a non-native backend, a recv throws "not supported" with `done = false` and issues nothing |
| `RecvSycl.RecvRingDelegation` | src/coll/algorithms/recv/sycl/recv_sycl.cpp:69-73 | a non-trivial recv on ARC with no active group only delegates to the ring path, whatever the flag says |
| `RecvSycl.RecvReadMode` | src/coll/algorithms/recv/sycl/recv_sycl.cpp:102-131 | in read mode the receiver exchanges as `receiver` and waits for ready. A null peer pointer then throws with `done` unwritten. Otherwise it copies `count` elements from the peer's buffer into its own, then sends done |
| `RecvSycl.RecvWriteMode` | src/coll/algorithms/recv/sycl/recv_sycl.cpp:134-158 | in write mode the receiver exchanges as `sender`, sends ready, then waits for done; it never copies, and `done = true` |
| `Pt2ptProperties.TagsAgree` | src/coll/algorithms/recv/sycl/recv_sycl.cpp:40-44 | the sender tags by its peer's node rank and the receiver by its own, so both sides compute the same ready and done tags |
| `Pt2ptProperties.ExchangeRolesOpposite` | src/coll/algorithms/recv/sycl/recv_sycl.cpp:79-83 | for one flag value the two sides declare opposite exchange roles |
| `Pt2ptProperties.OverridesAgree` | src/coll/algorithms/recv/sycl/recv_sycl.cpp:179-187 | after the single-card or ARC override, both processes hold the same flag whatever each held before |
| `Pt2ptProperties.ArcBeatsSingleCard` | src/coll/algorithms/send/sycl/send_sycl.cpp:181-189 | ARC together with a single card gives write mode. With an active group this means a write-mode exchange in which the sender copies |
| `Pt2ptProperties.SendRecvDual` | src/coll/algorithms/recv/sycl/recv_sycl.cpp:102-155 | when both processes hold the same flag, platform facts and group state, on every path where both calls return, each ack one side sends is awaited by the other, on the same tag and in the same order |
| `Pt2ptProperties.ExactlyOneSideCopies` | src/coll/algorithms/send/sycl/send_sycl.cpp:103-157 | when both processes hold the same flag, platform facts and group state, a handle-exchange transfer has exactly one side copy: the sender in write mode, the receiver in read mode |
| `Pt2ptProperties.SendRecvDualAfterOverrides` | src/coll/algorithms/send/sycl/send_sycl.cpp:181-189 | on a single card or an ARC device the acks of the two sides pair up whatever flag each process held before its call |
| `Pt2ptProperties.MismatchedFlagsBreakPairing` | src/coll/algorithms/recv/sycl/recv_sycl.cpp:102-158 | on several cards without ARC the flags stay per process; a read-mode sender and a write-mode receiver both send ready and nobody copies, and the reverse pair both wait for ready and both copy |
| `Pt2ptProperties.CopyDirection` | src/coll/algorithms/recv/sycl/recv_sycl.cpp:119-121 | when each exchange yields the other side's buffer, every copy moves the sender's buffer into the receiver's, `count` elements long |
| `Pt2ptProperties.NoCopyOffExchange` | src/coll/algorithms/send/sycl/send_sycl.cpp:54-75 | the ack-only, ring and multi-node paths issue no copy on either side |
| `Pt2ptProperties.CopyFramedBySyncs` | src/coll/algorithms/recv/sycl/recv_sycl.cpp:107-128 | on either side a copy follows the completed exchange and the wait for ready; the done-ack send follows it and is the call's last step |
| `Pt2ptProperties.DoneFlagOutcomes` | src/coll/algorithms/send/sycl/send_sycl.cpp:54-199 | `done` is true on every returned non-ring path and false exactly with the multi-node error. It is left unwritten exactly when the peer pointer is null, and that error names the copying side's mode |
| `Pt2ptProperties.SingleCardFloatScenario` | src/coll/algorithms/recv/sycl/recv_sycl.cpp:102-131 | two ranks on one card, 1024 float32 elements, no ARC device: both sides end in read mode; the receiver copies 4096 bytes from the sender's buffer and the sender copies nothing |

## Left out

- The ring path (`send_ll` / `recv_ll`, `send_pcie.cpp`) is one opaque `DelegateToRing` action whose `done` is set by that path. Its size threshold, kernels and pattern update are not modelled.
- Collaborators are parameters, not models: the tag creator is an uninterpreted function, and injectivity is not assumed. Because of that, the model cannot prove that tags of different transfers never collide.
- Other collaborators that are not modelled: `pt2pt_pre_sync`, `post_host_task_ack`, `submit_wait_on_events` and the SYCL `memcpy`, which are trace actions; the schedule and its parameters, `is_arc_card`, and `get_rank_from_global`, which is a function of the communicator.
- The handle manager is reduced to what slot (0, 0) yields: null or a pointer.
- Termination of the exchange drive loop depends on the peer. The entry is given the number of updates the peer needs, so a peer that never answers, and the stall it causes, is not modelled.
- Events are not values. The trace order stands for the dependency chain, and the returned event is that of the last action.
- Exceptions thrown by collaborators are not modelled. One consequence: the receiver's early `done = true` before its ack-only enqueues (recv_sycl.cpp:54) cannot be observed.
- `Pt2ptProperties.SendRecvDual`, `Pt2ptProperties.ExactlyOneSideCopies`: both assume the two processes hold the same `sycl_pt2pt_read` flag, platform facts and `is_group_active` state. Each process has its own; the overrides make the flags agree only on a single card or an ARC device (`SendRecvDualAfterOverrides`). Elsewhere the code relies on the environment setting the flag alike in both processes (`MismatchedFlagsBreakPairing`), and on ARC the two group states must also agree.
- Not modelled: concurrency between threads sharing `sycl_pt2pt_read`, device-side completion, logging, and the never-freed exchange entry.
- `get_datatype_size` is not part of this model. The element size of each built-in datatype is taken from the trait table, and custom datatypes are not modelled.
- The field order of `ccl_type_info_export` (size, datatype, is_class, is_supported) is inferred from the base template and the two checkers; that template is not part of this model.
- `Pt2ptCommon.CopyBytes`: the trace uses the intended byte count, not the code's `int` narrowing (see Findings).
- Out of scope: `ccl_app_api_coll_attr.cpp` (attribute forwarding), the `config.h` files, and `lp_types.hpp`, which is used only for the two struct sizes.

## Findings

| source | as written | input that shows it | evidently intended | confidence | as-written member | corrected member |
|---|---|---|---|---|---|---|
| src/coll/algorithms/send/sycl/send_sycl.cpp:119 | `int bytes = get_datatype_size(dtype) * send_count` narrows the size_t product to a 32-bit `int` before passing it to `memcpy`; recv_sycl.cpp:119 does the same; `Pt2ptCommon.CopyBytesAsWritten` computes the count this way | 2^29 float32 elements (2 GiB): the product 2^31 becomes -2^31, which `memcpy` takes as 2^64 - 2^31 bytes | copy `element size * count` bytes | not executed; the narrowing follows from the C++ conversion rules | `Pt2ptCommon.CopyBytesAsWrittenOverflows` | `Pt2ptCommon.CopyBytes` |
