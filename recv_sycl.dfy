/** The receiving side of a SYCL point-to-point transfer: the mirror of the
    sender, with the roles and the acknowledgment directions swapped. */
module RecvSycl {
  import opened TypeTraits
  import opened Pt2ptCommon
  import opened GlobalState
  import opened HandleExchange

  /** The receiver builds both tags from its OWN node-local rank. */
  function ReceiverTags(comm: Communicator, create: TagCreator): (tags: SyncTags)
    ensures tags.ready == create(comm.nodeCurrRank, comm.commId, Pt2ptSyncReady)
    ensures tags.done == create(comm.nodeCurrRank, comm.commId, Pt2ptSyncDone)
  {
    MakeTags(comm.nodeCurrRank, comm.commId, create)
  }

  /** The role the receiver declares to the exchange: `receiver` in read
      mode, `sender` in write mode. */
  function ReceiverRole(read: bool): (r: Role)
    ensures r == Receiver <==> read
  {
    if read then Receiver else Sender
  }

  /** What a recv issues once its path is known. */
  function RecvSteps(m: Mode, t: Transfer, tags: SyncTags, ex: ExchangeBehaviour): Outcome {
    match m
    case Unsupported => Thrown(MultiNodeNotSupported, [], Wrote(false))
    case AckOnly => Returned([WaitDeps, PostAck(true, tags.done)], Wrote(true))
    case Ring => Returned([DelegateToRing], SetByRingPath)
    case HandleExchange(read) =>
      if !read then
        // write mode: tell the sender we are ready, wait for its done
        Returned([Exchange(ReceiverRole(read)), PreSync(true, tags.ready), PostAck(false, tags.done)], Wrote(true))
      else if ex.peerHandle.Null? then
        Thrown(NoPeerPointer(true), [Exchange(ReceiverRole(read)), PreSync(false, tags.ready)], Unwritten)
      else
        // read mode: wait for ready, copy from the peer's buffer, report done
        Returned([Exchange(ReceiverRole(read)), PreSync(false, tags.ready),
                  Copy(t.buf, ex.peerHandle.addr, CopyBytes(t.dtype, t.count)),
                  PostAck(true, tags.done)], Wrote(true))
  }

  /** The outcome of a recv, given the read/write flag in effect after the
      overrides and the group state. */
  function RecvOutcome(t: Transfer, comm: Communicator, p: Platform, read: bool, groupActive: bool,
                       ex: ExchangeBehaviour, create: TagCreator): Outcome
  {
    RecvSteps(SelectMode(p, IsTrivial(t, comm), groupActive, read), t, ReceiverTags(comm, create), ex)
  }

  /** recv_sycl_single_node: the checks and enqueues in the code's order. */
  method RecvSingleNode(env: ProcessState, t: Transfer, comm: Communicator, p: Platform,
                        ex: ExchangeBehaviour, create: TagCreator) returns (r: Outcome)
    requires EffectiveSingleNode(p)
    ensures r == RecvOutcome(t, comm, p, env.syclPt2ptRead, env.isGroupActive, ex, create)
  {
    var nodeCurrRank := comm.nodeCurrRank;
    var tagReady := create(nodeCurrRank, comm.commId, Pt2ptSyncReady);
    var tagDone := create(nodeCurrRank, comm.commId, Pt2ptSyncDone);

    if t.count == 0 || comm.size == 1 {
      var trace := [WaitDeps];
      trace := trace + [PostAck(true, tagDone)];
      return Returned(trace, Wrote(true));
    }

    if p.isArcCard && !env.isGroupActive {
      return Returned([DelegateToRing], SetByRingPath);
    }

    var role := Receiver;
    if !env.syclPt2ptRead {
      role := Sender;
    }
    var entry := new HandleExchangeEntry(role, ex);
    entry.Start();
    while !entry.IsCompleted()
      invariant entry.Started()
      decreases entry.Progress()
    {
      entry.Update();
    }

    var trace := [Exchange(entry.role)];
    if env.syclPt2ptRead {
      trace := trace + [PreSync(false, tagReady)];
      var outBuf := entry.GetHandle();
      if outBuf.Null? {
        return Thrown(NoPeerPointer(true), trace, Unwritten);
      }
      trace := trace + [Copy(t.buf, outBuf.addr, CopyBytes(t.dtype, t.count))];
      trace := trace + [PostAck(true, tagDone)];
    } else {
      trace := trace + [PreSync(true, tagReady)];
      trace := trace + [PostAck(false, tagDone)];
    }
    r := Returned(trace, Wrote(true));
  }

  /** recv_sycl: the same topology reads and flag overrides as the sender,
      then the single-node path or failure. */
  method Recv(env: ProcessState, t: Transfer, comm: Communicator, p: Platform,
              ex: ExchangeBehaviour, create: TagCreator) returns (r: Outcome)
    modifies env`syclPt2ptRead
    ensures env.syclPt2ptRead == ReadFlagAfterOverrides(old(env.syclPt2ptRead), p)
    ensures r == RecvOutcome(t, comm, p, env.syclPt2ptRead, env.isGroupActive, ex, create)
  {
    var isSingleNode, isSingleCard := false, false;
    if p.backend == Native {
      isSingleNode := p.isSingleNode;
      isSingleCard := p.isSingleCard;
    }

    if isSingleCard {
      env.syclPt2ptRead := true;
    }
    if p.isArcCard {
      env.syclPt2ptRead := false;
    }

    if isSingleNode {
      r := RecvSingleNode(env, t, comm, p, ex, create);
    } else {
      r := Thrown(MultiNodeNotSupported, [], Wrote(false));
    }
  }

  // ---------------------------------------------------------------------
  // What each path of a recv does

  /** An empty transfer or a one-rank communicator: no exchange and no copy;
      wait on the dependencies, then send the done acknowledgment. */
  lemma RecvAckOnly(t: Transfer, comm: Communicator, p: Platform, read: bool, groupActive: bool,
                    ex: ExchangeBehaviour, create: TagCreator)
    requires EffectiveSingleNode(p) && IsTrivial(t, comm)
    ensures var o := RecvOutcome(t, comm, p, read, groupActive, ex, create);
      && o == Returned([WaitDeps, PostAck(true, ReceiverTags(comm, create).done)], Wrote(true))
      && CopyCount(o.trace) == 0
      && (forall a :: a in o.trace ==> !a.Exchange?)
      && Syncs(o.trace) == [Sync(DoneAck, true, ReceiverTags(comm, create).done)]
  {
    SyncsAppend([WaitDeps], [PostAck(true, ReceiverTags(comm, create).done)]);
  }

  /** Off a single node (or off the native backend) a recv throws "not
      supported" with `done = false` before any step, even for an empty
      transfer. */
  lemma RecvMultiNodeFailsFast(t: Transfer, comm: Communicator, p: Platform, read: bool, groupActive: bool,
                               ex: ExchangeBehaviour, create: TagCreator)
    requires !EffectiveSingleNode(p)
    ensures RecvOutcome(t, comm, p, read, groupActive, ex, create) == Thrown(MultiNodeNotSupported, [], Wrote(false))
  {
  }

  /** A non-empty transfer on an ARC device without an active group goes to
      the ring path whatever the flag says, and exchanges nothing. */
  lemma RecvRingDelegation(t: Transfer, comm: Communicator, p: Platform, read: bool, groupActive: bool,
                           ex: ExchangeBehaviour, create: TagCreator)
    requires EffectiveSingleNode(p) && !IsTrivial(t, comm) && p.isArcCard && !groupActive
    ensures RecvOutcome(t, comm, p, read, groupActive, ex, create) == Returned([DelegateToRing], SetByRingPath)
  {
  }

  /** Read mode: the receiver waits for the ready sync, then either throws
      (the peer exposed no buffer) or copies `count` elements from the peer's
      buffer into its own and sends done. */
  lemma RecvReadMode(t: Transfer, comm: Communicator, p: Platform, groupActive: bool,
                     ex: ExchangeBehaviour, create: TagCreator)
    requires SelectMode(p, IsTrivial(t, comm), groupActive, true) == HandleExchange(true)
    ensures var o := RecvOutcome(t, comm, p, true, groupActive, ex, create);
      var tags := ReceiverTags(comm, create);
      && o.trace[0] == Exchange(Receiver)
      && (ex.peerHandle.Null? ==>
            o == Thrown(NoPeerPointer(true), [Exchange(Receiver), PreSync(false, tags.ready)], Unwritten))
      && (ex.peerHandle.At? ==>
            && o == Returned([Exchange(Receiver), PreSync(false, tags.ready),
                              Copy(t.buf, ex.peerHandle.addr, CopyBytes(t.dtype, t.count)),
                              PostAck(true, tags.done)], Wrote(true))
            && CopyCount(o.trace) == 1
            && Syncs(o.trace) == [Sync(ReadySync, false, tags.ready), Sync(DoneAck, true, tags.done)])
  {
    var tags := ReceiverTags(comm, create);
    if ex.peerHandle.At? {
      var c := Copy(t.buf, ex.peerHandle.addr, CopyBytes(t.dtype, t.count));
      var o := RecvOutcome(t, comm, p, true, groupActive, ex, create);
      assert o.trace == [Exchange(Receiver), PreSync(false, tags.ready)] + [c, PostAck(true, tags.done)];
      SyncsAppend([Exchange(Receiver), PreSync(false, tags.ready)], [c, PostAck(true, tags.done)]);
      SyncsAppend([Exchange(Receiver)], [PreSync(false, tags.ready)]);
      SyncsAppend([c], [PostAck(true, tags.done)]);
      CopyCountAppend([Exchange(Receiver), PreSync(false, tags.ready)], [c, PostAck(true, tags.done)]);
    }
  }

  /** Write mode: the receiver sends the ready sync, then waits for done; it
      never copies and never looks at the peer's handle. */
  lemma RecvWriteMode(t: Transfer, comm: Communicator, p: Platform, groupActive: bool,
                      ex: ExchangeBehaviour, create: TagCreator)
    requires SelectMode(p, IsTrivial(t, comm), groupActive, false) == HandleExchange(false)
    ensures var o := RecvOutcome(t, comm, p, false, groupActive, ex, create);
      var tags := ReceiverTags(comm, create);
      && o == Returned([Exchange(Sender), PreSync(true, tags.ready), PostAck(false, tags.done)], Wrote(true))
      && CopyCount(o.trace) == 0
      && Syncs(o.trace) == [Sync(ReadySync, true, tags.ready), Sync(DoneAck, false, tags.done)]
  {
    var tags := ReceiverTags(comm, create);
    SyncsAppend([Exchange(Sender)], [PreSync(true, tags.ready), PostAck(false, tags.done)]);
    SyncsAppend([PreSync(true, tags.ready)], [PostAck(false, tags.done)]);
  }
}
