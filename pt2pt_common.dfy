/** What the SYCL send and recv entry points share: the facts they read
    about the platform, the communicator, the sync tags, the transfer-mode
    decision table, the device actions they enqueue (recorded as a trace) and
    the byte count of the device copy. */
module Pt2ptCommon {
  import opened TypeTraits

  /** size_t: an unsigned 64-bit count. */
  type SizeT = x: nat | x < 0x1_0000_0000_0000_0000

  /** A device address. */
  type Addr = nat

  /** A numeric synchronization tag as the tag creator returns it. */
  type Tag = nat

  /** What the handle registry returns for a slot: a null or a real pointer. */
  datatype Ptr = Null | At(addr: Addr)

  /** The role a side declares to the handle exchange entry. */
  datatype Role = Sender | Receiver

  /** The tag creator's two point-to-point sync kinds. */
  datatype SyncKind = Pt2ptSyncReady | Pt2ptSyncDone

  /** The tag creator's `create(rank, comm_id, kind)`. Its internals are not
      part of the model, so nothing (not even injectivity) is assumed. */
  type TagCreator = (int, nat, SyncKind) -> Tag

  datatype SyncTags = SyncTags(ready: Tag, done: Tag)

  /** The two tags one side builds from a node-local rank and a communicator id. */
  function MakeTags(rank: int, commId: nat, create: TagCreator): SyncTags {
    SyncTags(create(rank, commId, Pt2ptSyncReady), create(rank, commId, Pt2ptSyncDone))
  }

  datatype Backend = Native | NonNative

  /** The facts an entry point reads about where it runs: the configured
      backend, the topology manager's two flags and the ARC device-family check
      on the stream's device. */
  datatype Platform = Platform(backend: Backend, isSingleNode: bool, isSingleCard: bool, isArcCard: bool)

  /** The topology flags are read only with the native backend; otherwise both
      stay false. */
  function EffectiveSingleNode(p: Platform): (r: bool)
    ensures p.backend != Native ==> !r
    ensures p.backend == Native ==> (r <==> p.isSingleNode)
  {
    p.backend == Native && p.isSingleNode
  }

  function EffectiveSingleCard(p: Platform): (r: bool)
    ensures p.backend != Native ==> !r
    ensures p.backend == Native ==> (r <==> p.isSingleCard)
  {
    p.backend == Native && p.isSingleCard
  }

  /** The read/write flag after an entry point's two overrides: a single card
      sets it to read, then an ARC device sets it to write. */
  function ReadFlagAfterOverrides(read: bool, p: Platform): (r: bool)
    ensures p.isArcCard ==> !r
    ensures !p.isArcCard && EffectiveSingleCard(p) ==> r
    ensures !p.isArcCard && !EffectiveSingleCard(p) ==> r == read
  {
    var afterCard := if EffectiveSingleCard(p) then true else read;
    if p.isArcCard then false else afterCard
  }

  /** The communicator as the protocol sees it: its size, its id, this
      process's rank in the node communicator and the node communicator's
      global-to-node-local rank mapping. */
  datatype Communicator = Communicator(size: nat, commId: nat, nodeCurrRank: int, nodeRankFromGlobal: int -> int)

  /** One call's request: the local buffer, element count, datatype and the
      peer's global rank. */
  datatype Transfer = Transfer(buf: Addr, count: SizeT, dtype: Datatype, peerRank: int)

  /** Nothing to move: an empty transfer or a one-rank communicator. */
  predicate IsTrivial(t: Transfer, comm: Communicator) {
    t.count == 0 || comm.size == 1
  }

  /** The path one call takes. */
  datatype Mode = Unsupported | AckOnly | Ring | HandleExchange(read: bool)

  /** The decision both entry points make, in the order the code makes it:
      multi-node first, then the trivial transfer, then ARC without an active
      group, and otherwise the handle exchange in the mode the flag says. */
  function SelectMode(p: Platform, trivial: bool, groupActive: bool, read: bool): (m: Mode)
    ensures m == Unsupported <==> !EffectiveSingleNode(p)
    ensures m == AckOnly <==> EffectiveSingleNode(p) && trivial
    ensures m == Ring <==> EffectiveSingleNode(p) && !trivial && p.isArcCard && !groupActive
    ensures m.HandleExchange? ==> m.read == read && (p.isArcCard ==> groupActive)
  {
    if !EffectiveSingleNode(p) then Unsupported
    else if trivial then AckOnly
    else if p.isArcCard && !groupActive then Ring
    else HandleExchange(read)
  }

  /** One step a side issues. Host steps: the completed handle exchange.
      Device steps, each enqueued after the previous one (the first after the
      caller's dependencies): the wait on the dependencies, the ready sync, the
      device copy and the done acknowledgment. `DelegateToRing` hands the whole
      transfer to the low-latency ring path. */
  datatype Action =
    | WaitDeps
    | Exchange(role: Role)
    | PreSync(doSend: bool, tag: Tag)
    | Copy(dst: Addr, src: Addr, bytes: nat)
    | PostAck(doSend: bool, tag: Tag)
    | DelegateToRing

  /** What happened to the caller's `done` flag. */
  datatype DoneFlag = Unwritten | Wrote(value: bool) | SetByRingPath

  datatype Error = MultiNodeNotSupported | NoPeerPointer(readMode: bool)

  /** A call either returns or throws; either way the steps it issued before
      returning or throwing stay issued. */
  datatype Outcome =
    | Returned(trace: seq<Action>, done: DoneFlag)
    | Thrown(error: Error, trace: seq<Action>, done: DoneFlag)

  /** How the peer behaves in the handle exchange: how many `update` calls the
      entry needs before it completes, and what handle slot (0, 0) then holds. */
  datatype ExchangeBehaviour = ExchangeBehaviour(updatesToComplete: nat, peerHandle: Ptr)

  // ---------------------------------------------------------------------
  // The copy's byte count

  const SizeTModulus: int := 0x1_0000_0000_0000_0000
  const Int32Modulus: int := 0x1_0000_0000

  /** Conversion of a size_t value to a 32-bit int (modular, as C++20 defines it). */
  function ToInt32(x: nat): (r: int)
    ensures -0x8000_0000 <= r < 0x8000_0000
    ensures (r - x) % Int32Modulus == 0
  {
    var m := x % Int32Modulus;
    if m < 0x8000_0000 then m else m - Int32Modulus
  }

  /** Conversion of an int to the size_t the copy takes (modular). */
  function ToSizeT(x: int): (r: nat)
    ensures r < SizeTModulus
    ensures (r - x) % SizeTModulus == 0
  {
    x % SizeTModulus
  }

  /** The byte count as the code computes it: the size_t product stored in an
      `int` and passed on to the copy as a size_t. Only the low 32 bits of the
      product survive, sign-extended to 64. */
  function CopyBytesAsWritten(d: Datatype, count: SizeT): (r: nat)
    ensures r < 0x8000_0000 || SizeTModulus - 0x8000_0000 <= r < SizeTModulus
    ensures (r - ElementSize(d) * count) % Int32Modulus == 0
  {
    var x := (ElementSize(d) * count) % SizeTModulus;
    var v := ToInt32(x);
    var r := ToSizeT(v);
    assert r == if v < 0 then v + SizeTModulus else v;
    assert (r - ElementSize(d) * count) % Int32Modulus == 0 by {
      WrapAgreesMod32(ElementSize(d) * count, x, v, r);
    }
    r
  }

  /** Reducing modulo 2^64 or 2^32 keeps the low 32 bits. */
  lemma WrapAgreesMod32(n: int, x: int, v: int, r: int)
    requires (x - n) % SizeTModulus == 0 && (v - x) % Int32Modulus == 0 && (r - v) % SizeTModulus == 0
    ensures (r - n) % Int32Modulus == 0
  {
    var a := (x - n) / SizeTModulus;
    var b := (v - x) / Int32Modulus;
    var c := (r - v) / SizeTModulus;
    assert r - n == (a * 0x1_0000_0000 + b + c * 0x1_0000_0000) * Int32Modulus;
  }

  /** The byte count the copy needs: a whole number of elements, exactly
      `count` of them. */
  function CopyBytes(d: Datatype, count: SizeT): (n: nat)
    ensures n % ElementSize(d) == 0 && n / ElementSize(d) == count
    ensures count <= n <= 8 * count
  {
    ElementSize(d) * count
  }

  /** Below 2 GiB the code's byte count is the intended one. */
  lemma CopyBytesAsWrittenBelowLimit(d: Datatype, count: SizeT)
    requires ElementSize(d) * count < 0x8000_0000
    ensures CopyBytesAsWritten(d, count) == CopyBytes(d, count)
  {
  }

  /** 2^29 float32 elements (2 GiB) make the code's byte count wrap to a
      negative int, which the copy reads as a size_t just below 2^64. */
  lemma CopyBytesAsWrittenOverflows()
    ensures CopyBytes(Float32, 0x2000_0000) == 0x8000_0000
    ensures CopyBytesAsWritten(Float32, 0x2000_0000) == SizeTModulus - 0x8000_0000
  {
  }

  // ---------------------------------------------------------------------
  // Traces

  datatype Phase = ReadySync | DoneAck

  /** One acknowledgment message a side takes part in: which handshake, whether
      it sends (true) or waits for (false) the message, and its tag. */
  datatype Sync = Sync(phase: Phase, doSend: bool, tag: Tag)

  function SyncOf(a: Action): seq<Sync> {
    match a
    case PreSync(s, tag) => [Sync(ReadySync, s, tag)]
    case PostAck(s, tag) => [Sync(DoneAck, s, tag)]
    case _ => []
  }

  /** The acknowledgment messages of a trace, in issue order. */
  function Syncs(t: seq<Action>): seq<Sync> {
    if t == [] then [] else SyncOf(t[0]) + Syncs(t[1..])
  }

  /** The number of device copies in a trace. */
  function CopyCount(t: seq<Action>): (n: nat)
    ensures n <= |t|
    ensures n == 0 <==> forall i :: 0 <= i < |t| ==> !t[i].Copy?
  {
    if t == [] then 0 else (if t[0].Copy? then 1 else 0) + CopyCount(t[1..])
  }

  lemma {:induction false} SyncsAppend(a: seq<Action>, b: seq<Action>)
    ensures Syncs(a + b) == Syncs(a) + Syncs(b)
  {
    if a == [] {
      assert a + b == b;
    } else {
      assert (a + b)[1..] == a[1..] + b;
      SyncsAppend(a[1..], b);
    }
  }

  lemma {:induction false} CopyCountAppend(a: seq<Action>, b: seq<Action>)
    ensures CopyCount(a + b) == CopyCount(a) + CopyCount(b)
  {
    if a == [] {
      assert a + b == b;
    } else {
      assert (a + b)[1..] == a[1..] + b;
      CopyCountAppend(a[1..], b);
    }
  }

  /** Two sides' messages pair up one to one, in order: same handshake, same
      tag, and exactly one of the two sends. */
  predicate Mirrors(a: seq<Sync>, b: seq<Sync>) {
    |a| == |b| &&
    forall i :: 0 <= i < |a| ==> a[i].phase == b[i].phase && a[i].tag == b[i].tag && a[i].doSend != b[i].doSend
  }
}
