/** A session and the LogicSystem on one heap: a completed read as CSession makes it, with
    its call of PostMsgToQue, while the queue holds nodes of this and of other sessions. */
module PostedNodes {
  import opened Wire
  import opened MsgNodes
  import Reader
  import Logic
  import opened Session
  import opened LogicQueue

  /** The queue holds no node that s is still going to write to. */
  ghost predicate OutOfReach(s: CSession, l: LogicSystem)
    reads s`recvMsgNode, s`handler, l`msgQue
  {
    forall n :: n in l.msgQue ==> n.recvNode.data !in s.Buffers()
  }

  /** The queue once session id has read chunk with its reader in the state r. */
  function AfterRead(l: Logic.State, id: nat, r: Reader.State, chunk: seq<Byte>, table: set<Short>): Logic.State
    requires id !in l.notifying && (Reader.Completes(r, |chunk|) ==> Logic.MutexFree(l))
  {
    if Reader.Completes(r, |chunk|) then
      Logic.Step(l, Logic.Post(Logic.Node(id, Frame(r.phase.id, r.got + chunk))), table)
    else l
  }

  /** A read leaves every queued node, whosever it is, with the message it was posted with. */
  method Read(s: CSession, l: LogicSystem, chunk: seq<Byte>)
    requires s.RxValid() && Reader.CanRead(s.Rx(), |chunk|)
    requires l.Intact() && OutOfReach(s, l)
    modifies s`recvMsgNode, s`handler, s`reading, s`readLen, s`totalLen, s`posted, s`received, s.Repr() - {s}
    ensures s.RxValid() && s.Rx() == Reader.OnBytes(old(s.Rx()), chunk)
    ensures fresh(s.Repr() - old(s.Repr()))
    ensures s.posted == old(s.posted) +
      if Reader.Completes(old(s.Rx()), |chunk|) then [old(s.recvMsgNode)] else []
    ensures l.Intact() && OutOfReach(s, l)
  {
    hide Reader.Valid, Reader.OnBytes, CSession.RxNodes, RecvNode.Message;
    s.OnReadSome(chunk);
  }

  /** The newest posted node goes to the queue, holding the message the reader posted. */
  method PostLast(s: CSession, id: nat, l: LogicSystem)
    requires s.RxValid() && s.received != [] && l.Intact() && OutOfReach(s, l)
    requires id !in l.notifying && Logic.MutexFree(l.Abs())
    modifies l`msgQue, l`notifying, l`queued, l`posted
    ensures l.Intact() && OutOfReach(s, l)
    ensures forall n :: n in l.msgQue ==> n in old(l.msgQue) || n.recvNode == s.posted[|s.posted| - 1]
    ensures var f := s.received[|s.received| - 1];
      l.Abs() == Logic.Step(old(l.Abs()), Logic.Post(Logic.Node(id, f)), l.callbacks)
  {
    hide Reader.Valid, RecvNode.Message;
    var recvNode := s.posted[|s.posted| - 1];
    assert recvNode.data !in s.Buffers();
    var node := new LogicNode(id, recvNode);
    l.Post(node);
  }

  /** The reader makes its step, and the queue makes a post exactly if that completed a body:
      of the node that was filled, which the session gives up with it. */
  method ReadAndPost(s: CSession, id: nat, l: LogicSystem, chunk: seq<Byte>)
    requires s.RxValid() && Reader.CanRead(s.Rx(), |chunk|)
    requires l.Intact() && OutOfReach(s, l)
    requires id !in l.notifying && (Reader.Completes(s.Rx(), |chunk|) ==> Logic.MutexFree(l.Abs()))
    modifies s`recvMsgNode, s`handler, s`reading, s`readLen, s`totalLen, s`posted, s`received, s.Repr() - {s}
    modifies l`msgQue, l`notifying, l`queued, l`posted
    ensures s.RxValid() && s.Rx() == Reader.OnBytes(old(s.Rx()), chunk)
    ensures fresh(s.Repr() - old(s.Repr()))
    ensures l.Intact() && OutOfReach(s, l)
    ensures l.Abs() == AfterRead(old(l.Abs()), id, old(s.Rx()), chunk, l.callbacks)
    ensures s.posted == old(s.posted) +
      if Reader.Completes(old(s.Rx()), |chunk|) then [old(s.recvMsgNode)] else []
    ensures forall n :: n in l.msgQue ==>
      n in old(l.msgQue) || (Reader.Completes(old(s.Rx()), |chunk|) && n.recvNode == old(s.recvMsgNode))
  {
    hide Reader.Valid, Reader.OnBytes, Reader.Completes, CSession.Rx, CSession.RxNodes;
    hide OutOfReach, Logic.Step;
    Counted(s);
    Reader.PostsIfComplete(s.Rx(), chunk);
    var before := |s.posted|;
    Read(s, l, chunk);
    Counted(s);
    if |s.posted| > before {
      PostLast(s, id, l);
    }
  }

  lemma Counted(s: CSession)
    requires s.RxValid()
    ensures |s.posted| == |s.received| && s.received == s.Rx().posted && Reader.Valid(s.Rx())
  {
  }
}
