/** Properties that relate the two sides of one transfer: the sender's call
    in one process and the matching receiver's call in its peer. */
module Pt2ptProperties {
  import opened TypeTraits
  import opened Pt2ptCommon
  import opened SendSycl
  import opened RecvSycl

  /** A sender's call and a receiver's call that make one transfer: the sender
      addresses the receiver's node-local rank, both use the same communicator
      id, and both agree on whether there is anything to move. */
  predicate Paired(st: Transfer, sc: Communicator, rt: Transfer, rc: Communicator) {
    && sc.nodeRankFromGlobal(st.peerRank) == rc.nodeCurrRank
    && sc.commId == rc.commId
    && IsTrivial(st, sc) == IsTrivial(rt, rc)
  }

  /** The sender tags by its peer's node-local rank, the receiver by its own:
      for one transfer both compute the same two tags. */
  lemma TagsAgree(st: Transfer, sc: Communicator, rc: Communicator, create: TagCreator)
    requires sc.nodeRankFromGlobal(st.peerRank) == rc.nodeCurrRank && sc.commId == rc.commId
    ensures SenderTags(st, sc, create) == ReceiverTags(rc, create)
  {
  }

  /** For one flag value the two sides declare opposite exchange roles. */
  lemma ExchangeRolesOpposite(read: bool)
    ensures SenderRole(read) != ReceiverRole(read)
    ensures SenderRole(read) == Sender <==> read
  {
  }

  /** Both overrides make the flag independent of its previous value: a
      single card (on the native backend) or an ARC device leaves the two
      processes of a transfer in the same mode whatever each held before. */
  lemma OverridesAgree(f1: bool, f2: bool, p: Platform)
    requires EffectiveSingleCard(p) || p.isArcCard
    ensures ReadFlagAfterOverrides(f1, p) == ReadFlagAfterOverrides(f2, p)
  {
  }

  /** The ARC override is applied after the single-card one and wins: an ARC
      device whose group is active goes to the write-mode exchange even on a
      single card, and then the sender is the side that copies. */
  lemma ArcBeatsSingleCard(st: Transfer, sc: Communicator, p: Platform, f: bool,
                           ex: ExchangeBehaviour, create: TagCreator)
    requires EffectiveSingleNode(p) && EffectiveSingleCard(p) && p.isArcCard
    requires !IsTrivial(st, sc)
    ensures !ReadFlagAfterOverrides(f, p)
    ensures SelectMode(p, false, true, ReadFlagAfterOverrides(f, p)) == HandleExchange(false)
    ensures ex.peerHandle.At? ==>
      CopyCount(SendOutcome(st, sc, p, ReadFlagAfterOverrides(f, p), true, ex, create).trace) == 1
  {
    if ex.peerHandle.At? {
      SendWriteMode(st, sc, p, true, ex, create);
    }
  }

  /** When both processes hold the same flag, platform facts and group state:
      every acknowledgment one side sends, the other side waits for, on the
      same tag and in the same order, whatever path the pair takes. The flag
      is per process; `SendRecvDualAfterOverrides` gives the platforms on
      which the overrides make the two agree, and `MismatchedFlagsBreakPairing`
      what happens when they do not. */
  lemma SendRecvDual(st: Transfer, sc: Communicator, rt: Transfer, rc: Communicator, p: Platform,
                     read: bool, groupActive: bool, exS: ExchangeBehaviour, exR: ExchangeBehaviour,
                     create: TagCreator)
    requires Paired(st, sc, rt, rc)
    requires SendOutcome(st, sc, p, read, groupActive, exS, create).Returned?
    requires RecvOutcome(rt, rc, p, read, groupActive, exR, create).Returned?
    ensures Mirrors(Syncs(SendOutcome(st, sc, p, read, groupActive, exS, create).trace),
                    Syncs(RecvOutcome(rt, rc, p, read, groupActive, exR, create).trace))
  {
    TagsAgree(st, sc, rc, create);
    var m := SelectMode(p, IsTrivial(st, sc), groupActive, read);
    assert m == SelectMode(p, IsTrivial(rt, rc), groupActive, read);
    match m
    case Unsupported =>
    case AckOnly =>
      SendAckOnly(st, sc, p, read, groupActive, exS, create);
      RecvAckOnly(rt, rc, p, read, groupActive, exR, create);
    case Ring =>
      assert Syncs([DelegateToRing]) == [] by {
        SyncsAppend([DelegateToRing], []);
      }
    case HandleExchange(r) =>
      if r {
        SendReadMode(st, sc, p, groupActive, exS, create);
        RecvReadMode(rt, rc, p, groupActive, exR, create);
      } else {
        SendWriteMode(st, sc, p, groupActive, exS, create);
        RecvWriteMode(rt, rc, p, groupActive, exR, create);
      }
  }

  /** When both processes hold the same flag, platform facts and group state,
      a handle-exchange transfer has exactly one side copy: the receiver in
      read mode, the sender in write mode. */
  lemma ExactlyOneSideCopies(st: Transfer, sc: Communicator, rt: Transfer, rc: Communicator, p: Platform,
                             read: bool, groupActive: bool, exS: ExchangeBehaviour, exR: ExchangeBehaviour,
                             create: TagCreator)
    requires Paired(st, sc, rt, rc)
    requires SelectMode(p, IsTrivial(st, sc), groupActive, read).HandleExchange?
    requires SendOutcome(st, sc, p, read, groupActive, exS, create).Returned?
    requires RecvOutcome(rt, rc, p, read, groupActive, exR, create).Returned?
    ensures var s := CopyCount(SendOutcome(st, sc, p, read, groupActive, exS, create).trace);
      var r := CopyCount(RecvOutcome(rt, rc, p, read, groupActive, exR, create).trace);
      s + r == 1 && (s == 1 <==> !read)
  {
    if read {
      SendReadMode(st, sc, p, groupActive, exS, create);
      RecvReadMode(rt, rc, p, groupActive, exR, create);
    } else {
      SendWriteMode(st, sc, p, groupActive, exS, create);
      RecvWriteMode(rt, rc, p, groupActive, exR, create);
    }
  }

  /** On a single card or an ARC device, with the same platform facts and
      group state on both sides, the acknowledgments pair up whatever flag
      each process held before its call: the overrides leave both in the
      same mode. */
  lemma SendRecvDualAfterOverrides(st: Transfer, sc: Communicator, rt: Transfer, rc: Communicator,
                                   p: Platform, fS: bool, fR: bool, groupActive: bool,
                                   exS: ExchangeBehaviour, exR: ExchangeBehaviour, create: TagCreator)
    requires Paired(st, sc, rt, rc)
    requires EffectiveSingleCard(p) || p.isArcCard
    requires SendOutcome(st, sc, p, ReadFlagAfterOverrides(fS, p), groupActive, exS, create).Returned?
    requires RecvOutcome(rt, rc, p, ReadFlagAfterOverrides(fR, p), groupActive, exR, create).Returned?
    ensures Mirrors(Syncs(SendOutcome(st, sc, p, ReadFlagAfterOverrides(fS, p), groupActive, exS, create).trace),
                    Syncs(RecvOutcome(rt, rc, p, ReadFlagAfterOverrides(fR, p), groupActive, exR, create).trace))
  {
    OverridesAgree(fS, fR, p);
    SendRecvDual(st, sc, rt, rc, p, ReadFlagAfterOverrides(fS, p), groupActive, exS, exR, create);
  }

  /** On a node with several cards and no ARC device the overrides keep each
      process's flag, and the protocol depends on the two flags agreeing. A
      sender in read mode facing a receiver in write mode: both send ready,
      both wait for done, and neither copies. A sender in write mode facing a
      receiver in read mode: both wait for ready, and both would copy. */
  lemma MismatchedFlagsBreakPairing(st: Transfer, sc: Communicator, rt: Transfer, rc: Communicator,
                                    groupActive: bool, exS: ExchangeBehaviour, exR: ExchangeBehaviour,
                                    create: TagCreator)
    requires Paired(st, sc, rt, rc) && !IsTrivial(st, sc)
    ensures var p := Platform(Native, true, false, false);
      var s := SendOutcome(st, sc, p, true, groupActive, exS, create);
      var r := RecvOutcome(rt, rc, p, false, groupActive, exR, create);
      && s.Returned? && r.Returned?
      && !Mirrors(Syncs(s.trace), Syncs(r.trace))
      && CopyCount(s.trace) + CopyCount(r.trace) == 0
    ensures var p := Platform(Native, true, false, false);
      var s := SendOutcome(st, sc, p, false, groupActive, exS, create);
      var r := RecvOutcome(rt, rc, p, true, groupActive, exR, create);
      && s.trace[1] == PreSync(false, SenderTags(st, sc, create).ready)
      && r.trace[1] == PreSync(false, ReceiverTags(rc, create).ready)
      && (exS.peerHandle.At? && exR.peerHandle.At? ==> CopyCount(s.trace) + CopyCount(r.trace) == 2)
  {
    var p := Platform(Native, true, false, false);
    SendReadMode(st, sc, p, groupActive, exS, create);
    RecvWriteMode(rt, rc, p, groupActive, exR, create);
    SendWriteMode(st, sc, p, groupActive, exS, create);
    RecvReadMode(rt, rc, p, groupActive, exR, create);
    var ss := Syncs(SendOutcome(st, sc, p, true, groupActive, exS, create).trace);
    var rs := Syncs(RecvOutcome(rt, rc, p, false, groupActive, exR, create).trace);
    assert ss[0].doSend && rs[0].doSend;
  }

  /** When each side's exchange yields the other side's buffer, the one copy
      of a transfer moves the sender's buffer into the receiver's, `count`
      whole elements, in either mode. */
  lemma CopyDirection(st: Transfer, sc: Communicator, rt: Transfer, rc: Communicator, p: Platform,
                      read: bool, groupActive: bool, create: TagCreator)
    requires Paired(st, sc, rt, rc) && st.dtype == rt.dtype && st.count == rt.count
    ensures var s := SendOutcome(st, sc, p, read, groupActive, ExchangeBehaviour(0, At(rt.buf)), create);
      var r := RecvOutcome(rt, rc, p, read, groupActive, ExchangeBehaviour(0, At(st.buf)), create);
      forall a :: a in s.trace + r.trace && a.Copy? ==> a == Copy(rt.buf, st.buf, CopyBytes(st.dtype, st.count))
  {
  }

  /** Only the handle-exchange path copies: the ack-only, ring and
      multi-node paths issue no copy on either side. */
  lemma NoCopyOffExchange(st: Transfer, sc: Communicator, rt: Transfer, rc: Communicator, p: Platform,
                          read: bool, groupActive: bool, exS: ExchangeBehaviour, exR: ExchangeBehaviour,
                          create: TagCreator)
    requires Paired(st, sc, rt, rc)
    requires !SelectMode(p, IsTrivial(st, sc), groupActive, read).HandleExchange?
    ensures CopyCount(SendOutcome(st, sc, p, read, groupActive, exS, create).trace) == 0
    ensures CopyCount(RecvOutcome(rt, rc, p, read, groupActive, exR, create).trace) == 0
  {
  }

  /** On either side a copy comes right after waiting for the ready sync and
      right before sending done, which is the call's last step; the exchange
      has finished before any of them. */
  lemma CopyFramedBySyncs(t: Transfer, comm: Communicator, p: Platform, read: bool, groupActive: bool,
                          ex: ExchangeBehaviour, create: TagCreator, sending: bool, i: nat)
    requires var o := if sending then SendOutcome(t, comm, p, read, groupActive, ex, create)
                      else RecvOutcome(t, comm, p, read, groupActive, ex, create);
      i < |o.trace| && o.trace[i].Copy?
    ensures var o := if sending then SendOutcome(t, comm, p, read, groupActive, ex, create)
                     else RecvOutcome(t, comm, p, read, groupActive, ex, create);
      var tags := if sending then SenderTags(t, comm, create) else ReceiverTags(comm, create);
      && o.Returned? && o.done == Wrote(true)
      && o.trace[0].Exchange?
      && 2 <= i && i + 2 == |o.trace|
      && o.trace[i - 1] == PreSync(false, tags.ready)
      && o.trace[i + 1] == PostAck(true, tags.done)
  {
  }

  /** What becomes of the caller's `done` flag: true on every completed path
      other than the ring (which sets it itself), false with the multi-node
      error, untouched when the peer exposed no buffer. */
  lemma DoneFlagOutcomes(t: Transfer, comm: Communicator, p: Platform, read: bool, groupActive: bool,
                         ex: ExchangeBehaviour, create: TagCreator, sending: bool)
    ensures var o := if sending then SendOutcome(t, comm, p, read, groupActive, ex, create)
                     else RecvOutcome(t, comm, p, read, groupActive, ex, create);
      && (o.Returned? && o.trace != [DelegateToRing] ==> o.done == Wrote(true))
      && (o.Returned? && o.trace == [DelegateToRing] <==> o.done == SetByRingPath)
      && (o.Thrown? && o.error == MultiNodeNotSupported <==> o.done == Wrote(false))
      && (o.Thrown? && o.error.NoPeerPointer? <==> o.done == Unwritten)
      && (o.Thrown? && o.error.NoPeerPointer? ==> o.error.readMode == !sending)
  {
  }

  /** Two ranks of one node on one card, 1024 float32 elements, no ARC
      device: both sides end in read mode whatever their flags held; the
      receiver copies 4096 bytes from the sender's buffer and the sender does
      not copy. */
  lemma SingleCardFloatScenario(fS: bool, fR: bool, sendBuf: Addr, recvBuf: Addr, groupActive: bool,
                                sc: Communicator, rc: Communicator, create: TagCreator)
    requires sc.size == 2 && rc.size == 2
    ensures var p := Platform(Native, true, true, false);
      var st := Transfer(sendBuf, 1024, Float32, 1);
      var rt := Transfer(recvBuf, 1024, Float32, 0);
      && ReadFlagAfterOverrides(fS, p) && ReadFlagAfterOverrides(fR, p)
      && CopyCount(SendOutcome(st, sc, p, true, groupActive, ExchangeBehaviour(0, At(recvBuf)), create).trace) == 0
      && RecvOutcome(rt, rc, p, true, groupActive, ExchangeBehaviour(0, At(sendBuf)), create).trace[2]
           == Copy(recvBuf, sendBuf, 4096)
  {
  }
}
