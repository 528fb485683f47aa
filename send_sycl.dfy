/** The sending side of a SYCL point-to-point transfer. */
module SendSycl {
  import opened TypeTraits
  import opened Pt2ptCommon
  import opened GlobalState
  import opened HandleExchange

  /** The sender builds both tags from its PEER's node-local rank. */
  function SenderTags(t: Transfer, comm: Communicator, create: TagCreator): (tags: SyncTags)
    ensures tags.ready == create(comm.nodeRankFromGlobal(t.peerRank), comm.commId, Pt2ptSyncReady)
    ensures tags.done == create(comm.nodeRankFromGlobal(t.peerRank), comm.commId, Pt2ptSyncDone)
  {
    MakeTags(comm.nodeRankFromGlobal(t.peerRank), comm.commId, create)
  }

  /** The role the sender declares to the exchange: `sender` in read mode,
      `receiver` in write mode. */
  function SenderRole(read: bool): (r: Role)
    ensures r == Sender <==> read
  {
    if read then Sender else Receiver
  }

  /** What a send issues once its path is known. */
  function SendSteps(m: Mode, t: Transfer, tags: SyncTags, ex: ExchangeBehaviour): Outcome {
    match m
    case Unsupported => Thrown(MultiNodeNotSupported, [], Wrote(false))
    case AckOnly => Returned([WaitDeps, PostAck(false, tags.done)], Wrote(true))
    case Ring => Returned([DelegateToRing], SetByRingPath)
    case HandleExchange(read) =>
      if read then
        // read mode: tell the receiver the data is ready, wait for its done
        Returned([Exchange(SenderRole(read)), PreSync(true, tags.ready), PostAck(false, tags.done)], Wrote(true))
      else if ex.peerHandle.Null? then
        Thrown(NoPeerPointer(false), [Exchange(SenderRole(read)), PreSync(false, tags.ready)], Unwritten)
      else
        // write mode: wait for ready, copy into the peer's buffer, report done
        Returned([Exchange(SenderRole(read)), PreSync(false, tags.ready),
                  Copy(ex.peerHandle.addr, t.buf, CopyBytes(t.dtype, t.count)),
                  PostAck(true, tags.done)], Wrote(true))
  }

  /** The outcome of a send, given the read/write flag in effect after the
      overrides and the group state. */
  function SendOutcome(t: Transfer, comm: Communicator, p: Platform, read: bool, groupActive: bool,
                       ex: ExchangeBehaviour, create: TagCreator): Outcome
  {
    SendSteps(SelectMode(p, IsTrivial(t, comm), groupActive, read), t, SenderTags(t, comm, create), ex)
  }

  /** send_sycl_single_node: the checks and enqueues in the code's order. */
  method SendSingleNode(env: ProcessState, t: Transfer, comm: Communicator, p: Platform,
                        ex: ExchangeBehaviour, create: TagCreator) returns (r: Outcome)
    requires EffectiveSingleNode(p)
    ensures r == SendOutcome(t, comm, p, env.syclPt2ptRead, env.isGroupActive, ex, create)
  {
    var nodePeerRank := comm.nodeRankFromGlobal(t.peerRank);
    var tagReady := create(nodePeerRank, comm.commId, Pt2ptSyncReady);
    var tagDone := create(nodePeerRank, comm.commId, Pt2ptSyncDone);

    if t.count == 0 || comm.size == 1 {
      var trace := [WaitDeps];
      trace := trace + [PostAck(false, tagDone)];
      return Returned(trace, Wrote(true));
    }

    if p.isArcCard && !env.isGroupActive {
      return Returned([DelegateToRing], SetByRingPath);
    }

    var role := Sender;
    if !env.syclPt2ptRead {
      role := Receiver;
    }
    var entry := new HandleExchangeEntry(role, ex);
    entry.Start();
    while !entry.IsCompleted()
      invariant entry.Started()
      decreases entry.Progress()
    {
      entry.Update();
    }

    var trace := [Exchange(entry.role)];
    if !env.syclPt2ptRead {
      trace := trace + [PreSync(false, tagReady)];
      var outBuf := entry.GetHandle();
      if outBuf.Null? {
        return Thrown(NoPeerPointer(false), trace, Unwritten);
      }
      trace := trace + [Copy(outBuf.addr, t.buf, CopyBytes(t.dtype, t.count))];
      trace := trace + [PostAck(true, tagDone)];
    } else {
      trace := trace + [PreSync(true, tagReady)];
      trace := trace + [PostAck(false, tagDone)];
    }
    r := Returned(trace, Wrote(true));
  }

  /** send_sycl: read the topology (native backend only), apply the two
      overrides of the process-wide flag, then take the single-node path or
      fail. The overrides happen on the failing path too. */
  method Send(env: ProcessState, t: Transfer, comm: Communicator, p: Platform,
              ex: ExchangeBehaviour, create: TagCreator) returns (r: Outcome)
    modifies env`syclPt2ptRead
    ensures env.syclPt2ptRead == ReadFlagAfterOverrides(old(env.syclPt2ptRead), p)
    ensures r == SendOutcome(t, comm, p, env.syclPt2ptRead, env.isGroupActive, ex, create)
  {
    var isSingleNode, isSingleCard := false, false;
    if p.backend == Native {
      isSingleNode := p.isSingleNode;
      isSingleCard := p.isSingleCard;
    }

    if isSingleCard {
      env.syclPt2ptRead := true;
    }
    if p.isArcCard {
      env.syclPt2ptRead := false;
    }

    if isSingleNode {
      r := SendSingleNode(env, t, comm, p, ex, create);
    } else {
      r := Thrown(MultiNodeNotSupported, [], Wrote(false));
    }
  }

  // ---------------------------------------------------------------------
  // What each path of a send does

  /** An empty transfer or a one-rank communicator: no exchange and no copy;
      wait on the dependencies, then wait for the done acknowledgment. */
  lemma SendAckOnly(t: Transfer, comm: Communicator, p: Platform, read: bool, groupActive: bool,
                    ex: ExchangeBehaviour, create: TagCreator)
    requires EffectiveSingleNode(p) && IsTrivial(t, comm)
    ensures var o := SendOutcome(t, comm, p, read, groupActive, ex, create);
      && o == Returned([WaitDeps, PostAck(false, SenderTags(t, comm, create).done)], Wrote(true))
      && CopyCount(o.trace) == 0
      && (forall a :: a in o.trace ==> !a.Exchange?)
      && Syncs(o.trace) == [Sync(DoneAck, false, SenderTags(t, comm, create).done)]
  {
    SyncsAppend([WaitDeps], [PostAck(false, SenderTags(t, comm, create).done)]);
  }

  /** Off a single node (or off the native backend) a send throws "not
      supported" with `done = false` before any step, even for an empty
      transfer. */
  lemma SendMultiNodeFailsFast(t: Transfer, comm: Communicator, p: Platform, read: bool, groupActive: bool,
                               ex: ExchangeBehaviour, create: TagCreator)
    requires !EffectiveSingleNode(p)
    ensures SendOutcome(t, comm, p, read, groupActive, ex, create) == Thrown(MultiNodeNotSupported, [], Wrote(false))
  {
  }

  /** A non-empty transfer on an ARC device without an active group goes to
      the ring path whatever the flag says, and exchanges nothing. */
  lemma SendRingDelegation(t: Transfer, comm: Communicator, p: Platform, read: bool, groupActive: bool,
                           ex: ExchangeBehaviour, create: TagCreator)
    requires EffectiveSingleNode(p) && !IsTrivial(t, comm) && p.isArcCard && !groupActive
    ensures SendOutcome(t, comm, p, read, groupActive, ex, create) == Returned([DelegateToRing], SetByRingPath)
  {
  }

  /** Read mode: the sender sends the ready sync, then waits for done; it
      never copies and never looks at the peer's handle. */
  lemma SendReadMode(t: Transfer, comm: Communicator, p: Platform, groupActive: bool,
                     ex: ExchangeBehaviour, create: TagCreator)
    requires SelectMode(p, IsTrivial(t, comm), groupActive, true) == HandleExchange(true)
    ensures var o := SendOutcome(t, comm, p, true, groupActive, ex, create);
      var tags := SenderTags(t, comm, create);
      && o == Returned([Exchange(Sender), PreSync(true, tags.ready), PostAck(false, tags.done)], Wrote(true))
      && CopyCount(o.trace) == 0
      && Syncs(o.trace) == [Sync(ReadySync, true, tags.ready), Sync(DoneAck, false, tags.done)]
  {
    var tags := SenderTags(t, comm, create);
    SyncsAppend([Exchange(Sender)], [PreSync(true, tags.ready), PostAck(false, tags.done)]);
    SyncsAppend([PreSync(true, tags.ready)], [PostAck(false, tags.done)]);
  }

  /** Write mode: the sender waits for the ready sync, then either throws
      (the peer exposed no buffer) or copies `count` elements from its buffer
      into the peer's and sends done. */
  lemma SendWriteMode(t: Transfer, comm: Communicator, p: Platform, groupActive: bool,
                      ex: ExchangeBehaviour, create: TagCreator)
    requires SelectMode(p, IsTrivial(t, comm), groupActive, false) == HandleExchange(false)
    ensures var o := SendOutcome(t, comm, p, false, groupActive, ex, create);
      var tags := SenderTags(t, comm, create);
      && o.trace[0] == Exchange(Receiver)
      && (ex.peerHandle.Null? ==>
            o == Thrown(NoPeerPointer(false), [Exchange(Receiver), PreSync(false, tags.ready)], Unwritten))
      && (ex.peerHandle.At? ==>
            && o == Returned([Exchange(Receiver), PreSync(false, tags.ready),
                              Copy(ex.peerHandle.addr, t.buf, CopyBytes(t.dtype, t.count)),
                              PostAck(true, tags.done)], Wrote(true))
            && CopyCount(o.trace) == 1
            && Syncs(o.trace) == [Sync(ReadySync, false, tags.ready), Sync(DoneAck, true, tags.done)])
  {
    var tags := SenderTags(t, comm, create);
    if ex.peerHandle.At? {
      var c := Copy(ex.peerHandle.addr, t.buf, CopyBytes(t.dtype, t.count));
      var o := SendOutcome(t, comm, p, false, groupActive, ex, create);
      assert o.trace == [Exchange(Receiver), PreSync(false, tags.ready)] + [c, PostAck(true, tags.done)];
      SyncsAppend([Exchange(Receiver), PreSync(false, tags.ready)], [c, PostAck(true, tags.done)]);
      SyncsAppend([Exchange(Receiver)], [PreSync(false, tags.ready)]);
      SyncsAppend([c], [PostAck(true, tags.done)]);
      CopyCountAppend([Exchange(Receiver), PreSync(false, tags.ready)], [c, PostAck(true, tags.done)]);
    }
  }
}
