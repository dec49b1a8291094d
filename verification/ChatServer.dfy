/** The ChatServer on one heap: any number of sessions, sending and receiving, and the
    LogicSystem they post to. Every step of the machine in Duplex is made by the objects, and
    keeps their arrays apart. */
module ChatServer {
  import opened Wire
  import opened MsgNodes
  import Reader
  import Sender
  import Logic
  import opened Session
  import opened LogicQueue
  import opened PostedNodes
  import Pipeline
  import Duplex

  datatype Server = Server(sessions: seq<CSession>, logic: LogicSystem)

  /** Nothing that t writes to belongs to s, was posted by it, or is queued to be sent. */
  ghost predicate Spared(s: CSession, t: CSession)
    reads s`recvMsgNode, s`handler, s`posted, s`sendQue, t`recvMsgNode, t`handler
  {
    && s.Repr() !! t.Repr()
    && (forall n :: n in s.posted ==> n.data !in t.Buffers())
    && (forall n :: n in s.sendQue ==> n.data !in t.Buffers())
  }

  /** The sessions share no array, and no session can reach a node in the queue, or a node
      that any of them has posted or is sending. */
  ghost predicate Sound(w: Server)
    reads *
  {
    && (forall i, j :: 0 <= i < |w.sessions| && 0 <= j < |w.sessions| && i != j ==>
          Spared(w.sessions[i], w.sessions[j]))
    && (forall i :: 0 <= i < |w.sessions| ==>
          w.sessions[i].Valid() && OutOfReach(w.sessions[i], w.logic))
    && w.logic.Intact()
  }

  /** No object that Valid, Rx and Tx read of t is one that s writes to. */
  ghost predicate Beyond(s: CSession, t: CSession)
    reads s`recvMsgNode, s`handler, t`recvMsgNode, t`handler, t`posted, t`sendQue
  {
    && t !in s.Repr() && t.data !in s.Repr() && t.recvHeadNode.data !in s.Repr()
    && (t.handler.BodyHandler? && t.recvMsgNode != null ==> t.recvMsgNode !in s.Repr())
    && (forall n :: n in t.posted ==> n !in s.Repr() && n.data !in s.Repr())
    && (forall n :: n in t.sendQue ==> n.data !in s.Repr())
  }

  lemma SparedIsBeyond(s: CSession, t: CSession)
    requires Spared(t, s)
    ensures Beyond(s, t)
  {
    assert forall o :: o in t.Repr() ==> o !in s.Repr();
    forall n | n in t.posted ensures n !in s.Repr() && n.data !in s.Repr() {
      assert n.data !in s.Buffers();
    }
  }

  // ----- what a step of one session leaves to the others -----

  /** Everything that Valid, Rx and Tx read of t is as it was. */
  twostate predicate Unnoticed(t: CSession)
    reads *
  {
    && unchanged(t) && unchanged(t.data) && unchanged(t.recvHeadNode.data)
    && (t.handler.BodyHandler? && t.recvMsgNode != null ==> unchanged(t.recvMsgNode))
    && (forall n :: n in t.posted ==> unchanged(n) && unchanged(n.data))
    && (forall n :: n in t.sendQue ==> unchanged(n.data))
  }

  /** t is a valid session, in the state that it was in. */
  twostate predicate Kept(t: CSession)
    requires old(t.Valid())
    reads *
  {
    && t.Valid() && t.Rx() == old(t.Rx()) && t.Tx() == old(t.Tx()) && t.Repr() == old(t.Repr())
    && t.posted == old(t.posted) && t.sendQue == old(t.sendQue)
    && t.recvMsgNode == old(t.recvMsgNode) && t.handler == old(t.handler)
  }

  twostate lemma StaysValid(t: CSession)
    requires old(t.Valid()) && Unnoticed(t)
    ensures Kept(t)
  {
    hide Reader.Valid, Sender.Valid, Encode;
  }

  /** All that session k did was to take new arrays and to give up some of its own. */
  twostate predicate OnlyGaveUp(w: Server, new k: nat)
    requires k < |w.sessions|
    reads *
  {
    var s := w.sessions[k];
    && fresh(s.Repr() - old(s.Repr()))
    && (forall n :: n in s.posted ==> n in old(s.posted) || n.data in old(s.Buffers()))
    && (forall n :: n in s.sendQue ==> n in old(s.sendQue) || fresh(n.data))
    && (forall n :: n in w.logic.msgQue ==> n in old(w.logic.msgQue) || n.recvNode.data in old(s.Buffers()))
  }

  twostate lemma StaysSpared(w: Server, new k: nat, new i: nat)
    requires k < |w.sessions| && i < |w.sessions|
    requires old(Spared(w.sessions[k], w.sessions[i])) && old(Spared(w.sessions[i], w.sessions[k]))
    requires old(OutOfReach(w.sessions[i], w.logic))
    requires OnlyGaveUp(w, k) && Unnoticed(w.sessions[i])
    ensures Spared(w.sessions[k], w.sessions[i]) && Spared(w.sessions[i], w.sessions[k])
    ensures OutOfReach(w.sessions[i], w.logic)
  {
  }

  twostate lemma OthersKeep(w: Server, new k: nat)
    requires old(Sound(w)) && k < |w.sessions|
    requires OnlyGaveUp(w, k)
    requires forall i :: 0 <= i < |w.sessions| && i != k ==> Unnoticed(w.sessions[i])
    requires w.sessions[k].Valid() && OutOfReach(w.sessions[k], w.logic) && w.logic.Intact()
    ensures Sound(w)
    ensures forall i :: 0 <= i < |w.sessions| && i != k ==> Kept(w.sessions[i])
  {
    hide Reader.Valid, CSession.RxNodes, CSession.Valid, CSession.Rx, CSession.Tx, RecvNode.Message;
    hide Spared, OutOfReach, OnlyGaveUp, CSession.Repr, CSession.RxShape, LogicSystem.Intact;
    var ss := w.sessions;
    forall i | 0 <= i < |ss| && i != k ensures Kept(ss[i]) {
      StaysValid(ss[i]);
    }
    forall i | 0 <= i < |ss| && i != k
      ensures OutOfReach(ss[i], w.logic) && Spared(ss[i], ss[k]) && Spared(ss[k], ss[i])
    {
      StaysSpared(w, k, i);
    }
    forall i, j | 0 <= i < |ss| && 0 <= j < |ss| && i != j ensures Spared(ss[i], ss[j]) {
      assert old(Spared(ss[i], ss[j]));
    }
  }

  // ----- the steps -----

  lemma Filling(s: CSession, n: nat)
    requires s.Valid()
    ensures s in s.Repr() && s.RxValid() && s.TxValid() && s.Apart()
    ensures Reader.Valid(s.Rx()) && Sender.Valid(s.Tx())
    ensures forall n :: n in s.sendQue ==> n.data !in s.Repr()
    ensures Reader.Completes(s.Rx(), n) ==> s.recvMsgNode != null && s.recvMsgNode.data in s.Buffers()
  {
  }

  /** A read of session k completes; the others do not notice. */
  method Arrive(w: Server, k: nat, chunk: seq<Byte>)
    requires Sound(w) && k < |w.sessions| && Reader.CanRead(w.sessions[k].Rx(), |chunk|)
    requires k !in w.logic.notifying
    requires Reader.Completes(w.sessions[k].Rx(), |chunk|) ==> Logic.MutexFree(w.logic.Abs())
    modifies w.sessions[k].Repr(), w.logic
    ensures Sound(w)
    ensures w.sessions[k].Rx() == Reader.OnBytes(old(w.sessions[k].Rx()), chunk)
    ensures w.sessions[k].Tx() == old(w.sessions[k].Tx())
    ensures fresh(w.sessions[k].Repr() - old(w.sessions[k].Repr()))
    ensures forall i :: 0 <= i < |w.sessions| && i != k ==> Kept(w.sessions[i])
    ensures w.logic.Abs() ==
      AfterRead(old(w.logic.Abs()), k, old(w.sessions[k].Rx()), chunk, w.logic.callbacks)
  {
    hide Reader.Valid, Reader.OnBytes, Sender.Valid, CSession.RxValid, CSession.TxValid, CSession.Apart;
    hide CSession.Rx, CSession.Tx, Logic.Step, RecvNode.Message;
    hide OutOfReach, Spared, Kept, AfterRead, CSession.Repr, LogicSystem.Intact, Reader.CanRead, Reader.Completes;
    var s := w.sessions[k];
    Filling(s, |chunk|);
    forall i | 0 <= i < |w.sessions| && i != k ensures Beyond(s, w.sessions[i]) {
      SparedIsBeyond(s, w.sessions[i]);
    }
    ReadAndPost(s, k, w.logic, chunk);
    s.SendingIsKept();
    forall i | 0 <= i < |w.sessions| && i != k ensures Unnoticed(w.sessions[i]) {
      assert old(Beyond(s, w.sessions[i]));
    }
    OthersKeep(w, k);
  }

  /** A read of session k fails. */
  method Fail(w: Server, k: nat)
    requires Sound(w) && k < |w.sessions| && Reader.Reading(w.sessions[k].Rx())
    modifies w.sessions[k]
    ensures Sound(w)
    ensures w.sessions[k].Rx() == Reader.OnError(old(w.sessions[k].Rx()))
    ensures forall n :: !Reader.CanRead(w.sessions[k].Rx(), n)
    ensures w.sessions[k].Tx() == Sender.Step(old(w.sessions[k].Tx()), Sender.Close)
    ensures w.sessions[k].Repr() == old(w.sessions[k].Repr())
    ensures forall i :: 0 <= i < |w.sessions| && i != k ==> Kept(w.sessions[i])
    ensures w.logic.Abs() == old(w.logic.Abs())
  {
    hide Reader.Valid, Reader.OnError, Sender.Valid, CSession.RxValid, CSession.TxValid, CSession.Apart;
    hide CSession.Rx, CSession.Tx, Sender.Step, RecvNode.Message;
    hide OutOfReach, Spared, Kept, CSession.Repr, LogicSystem.Intact;
    var s := w.sessions[k];
    Filling(s, 0);
    forall i | 0 <= i < |w.sessions| && i != k ensures Beyond(s, w.sessions[i]) {
      SparedIsBeyond(s, w.sessions[i]);
    }
    s.OnReadError();
    s.SendingIsKept();
    forall i | 0 <= i < |w.sessions| && i != k ensures Unnoticed(w.sessions[i]) {
      assert old(Beyond(s, w.sessions[i]));
    }
    OthersKeep(w, k);
  }

  /** Session k sends, or its transport moves on. */
  method Emit(w: Server, k: nat, e: Sender.Event)
    requires Sound(w) && k < |w.sessions| && Sender.Enabled(w.sessions[k].Tx(), e) && !e.Close?
    modifies w.sessions[k]
    ensures Sound(w)
    ensures w.sessions[k].Rx() == old(w.sessions[k].Rx())
    ensures w.sessions[k].Tx() == Sender.Step(old(w.sessions[k].Tx()), e)
    ensures w.sessions[k].Repr() == old(w.sessions[k].Repr())
    ensures forall i :: 0 <= i < |w.sessions| && i != k ==> Kept(w.sessions[i])
    ensures w.logic.Abs() == old(w.logic.Abs())
  {
    hide Reader.Valid, Sender.Valid, Sender.Enabled, CSession.RxValid, CSession.TxValid, CSession.Apart;
    hide CSession.Rx, CSession.Tx, Sender.Step, RecvNode.Message;
    hide OutOfReach, Spared, Kept, CSession.Repr, LogicSystem.Intact;
    var s := w.sessions[k];
    Filling(s, 0);
    forall i | 0 <= i < |w.sessions| && i != k ensures Beyond(s, w.sessions[i]) {
      SparedIsBeyond(s, w.sessions[i]);
    }
    s.Output(e);
    forall i | 0 <= i < |w.sessions| && i != k ensures Unnoticed(w.sessions[i]) {
      assert old(Beyond(s, w.sessions[i]));
    }
    OthersKeep(w, k);
  }

  /** Any step at the queue but a post. */
  method Work(w: Server, e: Logic.Event)
    requires Sound(w) && Logic.Enabled(w.logic.Abs(), e) && !e.Post?
    modifies w.logic
    ensures Sound(w) && w.logic.Abs() == Logic.Step(old(w.logic.Abs()), e, w.logic.callbacks)
    ensures forall i :: 0 <= i < |w.sessions| ==> Kept(w.sessions[i])
  {
    hide CSession.Valid, CSession.Rx, CSession.Tx, CSession.Repr, RecvNode.Message;
    hide Logic.Step, Logic.Enabled, Spared, LogicSystem.Intact;
    w.logic.Do(e);
    forall i | 0 <= i < |w.sessions| ensures Kept(w.sessions[i]) && OutOfReach(w.sessions[i], w.logic) {
      StaysValid(w.sessions[i]);
      assert old(OutOfReach(w.sessions[i], w.logic));
    }
  }

  // ----- runs -----

  /** The objects are in the state d, in which aliasing cannot be expressed. */
  ghost predicate Matches(w: Server, d: Duplex.State)
    reads *
  {
    && Sound(w) && |w.sessions| == |d.inbound.conns| == |d.out| && w.logic.Abs() == d.inbound.logic
    && forall i :: 0 <= i < |w.sessions| ==>
         w.sessions[i].Rx() == d.inbound.conns[i].reader && w.sessions[i].Tx() == d.out[i]
  }

  ghost function Footprint(w: Server): set<object>
    reads w.sessions
  {
    {w.logic} + set i: nat, o: object | i < |w.sessions| && o in w.sessions[i].Repr() :: o
  }

  twostate lemma FootprintGrows(w: Server)
    requires forall i :: 0 <= i < |w.sessions| ==> fresh(w.sessions[i].Repr() - old(w.sessions[i].Repr()))
    ensures fresh(Footprint(w) - old(Footprint(w)))
  {
    hide CSession.Repr;
    forall o | o in Footprint(w) && o !in old(Footprint(w)) ensures fresh(o) {
      var i :| 0 <= i < |w.sessions| && o in w.sessions[i].Repr();
      assert o !in old(w.sessions[i].Repr());
    }
  }

  /** Session k is in the state of d', and the others are as they were in d. */
  twostate lemma MatchesAfter(w: Server, new k: nat, new d: Duplex.State, new d': Duplex.State)
    requires old(Matches(w, d)) && k < |w.sessions|
    requires Sound(w) && w.logic.Abs() == d'.inbound.logic
    requires forall i :: 0 <= i < |w.sessions| && i != k ==> Kept(w.sessions[i])
    requires |d'.inbound.conns| == |d'.out| == |w.sessions|
    requires forall i :: 0 <= i < |w.sessions| && i != k ==>
      d'.inbound.conns[i] == d.inbound.conns[i] && d'.out[i] == d.out[i]
    requires w.sessions[k].Rx() == d'.inbound.conns[k].reader && w.sessions[k].Tx() == d'.out[k]
    ensures Matches(w, d')
  {
    hide CSession.Valid, CSession.Rx, CSession.Tx, CSession.Repr, Spared, OutOfReach, LogicSystem.Intact;
  }

  lemma InFootprint(w: Server, k: nat)
    requires k < |w.sessions| && w.sessions[k].Valid()
    ensures w.logic in Footprint(w) && w.sessions[k].Repr() <= Footprint(w)
    ensures w.sessions[k] in w.sessions[k].Repr() && Reader.Valid(w.sessions[k].Rx())
  {
    hide CSession.Repr, CSession.Valid;
    Filling(w.sessions[k], 0);
  }

  lemma PeerMoves(w: Server, d: Duplex.State, e: Duplex.Event)
    requires Matches(w, d) && Duplex.Enabled(d, e) && e.In? && e.ev.Tx?
    ensures Matches(w, Duplex.Step(d, e, w.logic.callbacks))
  {
    hide Sound, CSession.Rx, CSession.Tx, Sender.Step, Sender.Enabled;
  }

  // one step of the machine is one step of the objects

  /** The peers that send, and what they have put on the wire, are values. */
  method AdvanceRead(w: Server, d: Duplex.State, i: nat, n: nat)
    requires Matches(w, d) && Duplex.Enabled(d, Duplex.In(Pipeline.Read(i, n)))
    modifies Footprint(w)
    ensures Matches(w, Duplex.Step(d, Duplex.In(Pipeline.Read(i, n)), w.logic.callbacks))
    ensures fresh(Footprint(w) - old(Footprint(w)))
  {
    hide Reader.OnBytes, Reader.OnError, Reader.CanRead, Reader.Valid, Sender.Step, Sender.Enabled, Spared;
    hide OutOfReach, LogicSystem.Intact, Logic.Step, CSession.Valid, CSession.Repr, CSession.Rx, CSession.Tx;
    InFootprint(w, i);
    var chunk := Pipeline.Chunk(d.inbound.conns[i], n);
    Reader.PostsIfComplete(d.inbound.conns[i].reader, chunk);
    Arrive(w, i, chunk);
    MatchesAfter(w, i, d, Duplex.Step(d, Duplex.In(Pipeline.Read(i, n)), w.logic.callbacks));
    FootprintGrows(w);
  }

  method AdvanceReadError(w: Server, d: Duplex.State, i: nat)
    requires Matches(w, d) && Duplex.Enabled(d, Duplex.In(Pipeline.ReadError(i)))
    modifies Footprint(w)
    ensures Matches(w, Duplex.Step(d, Duplex.In(Pipeline.ReadError(i)), w.logic.callbacks))
    ensures fresh(Footprint(w) - old(Footprint(w)))
  {
    hide Reader.OnBytes, Reader.OnError, Reader.CanRead, Reader.Valid, Sender.Step, Sender.Enabled, Spared;
    hide OutOfReach, LogicSystem.Intact, Logic.Step, CSession.Valid, CSession.Repr, CSession.Rx, CSession.Tx;
    InFootprint(w, i);
    Fail(w, i);
    MatchesAfter(w, i, d, Duplex.Step(d, Duplex.In(Pipeline.ReadError(i)), w.logic.callbacks));
    FootprintGrows(w);
  }

  method AdvanceWork(w: Server, d: Duplex.State, e: Logic.Event)
    requires Matches(w, d) && Duplex.Enabled(d, Duplex.In(Pipeline.Work(e)))
    modifies Footprint(w)
    ensures Matches(w, Duplex.Step(d, Duplex.In(Pipeline.Work(e)), w.logic.callbacks))
    ensures fresh(Footprint(w) - old(Footprint(w)))
  {
    hide Reader.OnBytes, Reader.OnError, Reader.CanRead, Reader.Valid, Sender.Step, Sender.Enabled, Spared;
    hide OutOfReach, LogicSystem.Intact, Logic.Step, CSession.Valid, CSession.Repr, CSession.Rx, CSession.Tx;
    assert w.logic in Footprint(w);
    Work(w, e);
    FootprintGrows(w);
  }

  method AdvanceOut(w: Server, d: Duplex.State, i: nat, e: Sender.Event)
    requires Matches(w, d) && Duplex.Enabled(d, Duplex.Out(i, e))
    modifies Footprint(w)
    ensures Matches(w, Duplex.Step(d, Duplex.Out(i, e), w.logic.callbacks))
    ensures fresh(Footprint(w) - old(Footprint(w)))
  {
    hide Reader.OnBytes, Reader.OnError, Reader.CanRead, Reader.Valid, Sender.Step, Sender.Enabled, Spared;
    hide OutOfReach, LogicSystem.Intact, Logic.Step, CSession.Valid, CSession.Repr, CSession.Rx, CSession.Tx;
    InFootprint(w, i);
    Emit(w, i, e);
    MatchesAfter(w, i, d, Duplex.Step(d, Duplex.Out(i, e), w.logic.callbacks));
    FootprintGrows(w);
  }

  method Advance(w: Server, d: Duplex.State, e: Duplex.Event)
    requires Matches(w, d) && Duplex.Enabled(d, e)
    modifies Footprint(w)
    ensures Matches(w, Duplex.Step(d, e, w.logic.callbacks))
    ensures fresh(Footprint(w) - old(Footprint(w)))
  {
    hide Sound, Footprint, Duplex.Enabled;
    match e
    case In(Tx(_, _)) => PeerMoves(w, d, e);
    case In(Read(i, n)) => AdvanceRead(w, d, i, n);
    case In(ReadError(i)) => AdvanceReadError(w, d, i);
    case In(Work(e)) => AdvanceWork(w, d, e);
    case Out(i, e) => AdvanceOut(w, d, i, e);
  }

  method RunAll(w: Server, d: Duplex.State, es: seq<Duplex.Event>)
    requires Matches(w, d) && Duplex.Allowed(d, es, w.logic.callbacks)
    modifies Footprint(w)
    ensures Matches(w, Duplex.Run(d, es, w.logic.callbacks))
    ensures fresh(Footprint(w) - old(Footprint(w)))
    decreases |es|
  {
    hide Matches, Footprint, Duplex.Enabled, Duplex.Step;
    if es != [] {
      Advance(w, d, es[0]);
      label Between:
      RunAll(w, Duplex.Step(d, es[0], w.logic.callbacks), es[1..]);
      forall o | o in Footprint(w) && o !in old(Footprint(w)) ensures fresh(o) {
        assert o in old@Between(Footprint(w)) || fresh@Between(o);
      }
    }
  }

  /** A new session shares nothing with the others, and the queue nothing with it. */
  twostate lemma NewIsSpared(t: CSession, new s: CSession)
    requires unchanged(t) && fresh(s.Repr()) && s.posted == [] && s.sendQue == []
    ensures Spared(t, s) && Spared(s, t)
  {
  }

  twostate lemma NewIsOutOfReach(l: LogicSystem, new s: CSession)
    requires unchanged(l) && fresh(s.Repr())
    ensures OutOfReach(s, l)
  {
  }

  /** What a valid session that shares nothing with the others is added to stays sound. */
  lemma SoundGrows(w: Server, s: CSession)
    requires Sound(w) && s.Valid() && OutOfReach(s, w.logic)
    requires forall i :: 0 <= i < |w.sessions| ==> Spared(w.sessions[i], s) && Spared(s, w.sessions[i])
    ensures Sound(Server(w.sessions + [s], w.logic))
  {
    hide CSession.Valid, CSession.Repr, OutOfReach, Spared, LogicSystem.Intact;
  }

  /** Nothing but new objects was changed. */
  twostate lemma SoundStays(w: Server)
    requires old(Sound(w)) && unchanged(w.logic)
    requires forall i :: 0 <= i < |w.sessions| ==> Unnoticed(w.sessions[i])
    requires w.logic.Intact()
    ensures Sound(w) && forall i :: 0 <= i < |w.sessions| ==> Kept(w.sessions[i])
  {
    hide CSession.Valid, CSession.Rx, CSession.Tx, CSession.RxShape, CSession.Repr, Spared, LogicSystem.Intact;
    var ss := w.sessions;
    forall i | 0 <= i < |ss| ensures Kept(ss[i]) && OutOfReach(ss[i], w.logic) {
      StaysValid(ss[i]);
      assert old(OutOfReach(ss[i], w.logic));
    }
    forall i, j | 0 <= i < |ss| && 0 <= j < |ss| && i != j ensures Spared(ss[i], ss[j]) {
      assert old(Spared(ss[i], ss[j]));
    }
  }

  /** A connection is accepted and its first read started. */
  method Accept(w: Server) returns (w': Server)
    requires Sound(w)
    ensures Sound(w') && w'.logic == w.logic && |w'.sessions| == |w.sessions| + 1
    ensures w'.sessions[..|w.sessions|] == w.sessions && fresh(w'.sessions[|w.sessions|].Repr())
    ensures w'.sessions[|w.sessions|].Rx() == Reader.START && w'.sessions[|w.sessions|].Tx() == Sender.START
    ensures forall i :: 0 <= i < |w.sessions| ==> Kept(w.sessions[i])
  {
    hide CSession.Valid, CSession.Rx, CSession.Tx, CSession.RxShape, CSession.Repr, Sound, Kept;
    hide OutOfReach, Spared, LogicSystem.Intact;
    assert w.logic.Intact() by { SoundIsIntact(w); }
    var s := NewSession();
    SoundStays(w);
    forall i | 0 <= i < |w.sessions| ensures Spared(w.sessions[i], s) && Spared(s, w.sessions[i]) {
      NewIsSpared(w.sessions[i], s);
    }
    NewIsOutOfReach(w.logic, s);
    SoundGrows(w, s);
    w' := Server(w.sessions + [s], w.logic);
  }

  lemma SoundIsIntact(w: Server)
    requires Sound(w)
    ensures w.logic.Intact()
  {
  }

  method NewSession() returns (s: CSession)
    ensures fresh(s.Repr()) && s.Valid() && s.Rx() == Reader.START && s.Tx() == Sender.START
    ensures s.posted == [] && s.sendQue == []
  {
    hide CSession.RxValid, CSession.RxShape, CSession.Rx, CSession.TxValid, CSession.Tx, CSession.Apart;
    s := new CSession();
    label Made:
    s.Start();
    s.SendingIsKept@Made();
  }

  /** n accepted connections, and the LogicSystem with its handlers. */
  method Launch(n: nat, table: set<Short>) returns (w: Server)
    ensures Matches(w, Duplex.Start(n)) && w.logic.callbacks == table && fresh(Footprint(w))
  {
    hide CSession.Valid, CSession.Rx, CSession.Tx, CSession.RxShape, CSession.Repr,
      OutOfReach, Spared, LogicSystem.Intact, Reader.Valid;
    var l := new LogicSystem(table);
    w := Server([], l);
    while |w.sessions| < n
      invariant |w.sessions| <= n && w.logic == l && fresh(l) && l.callbacks == table
      invariant Sound(w) && l.Abs() == Logic.START
      invariant forall i :: 0 <= i < |w.sessions| ==>
        w.sessions[i].Rx() == Reader.START && w.sessions[i].Tx() == Sender.START && fresh(w.sessions[i].Repr())
      decreases n - |w.sessions|
    {
      w := Accept(w);
    }
  }

  /** The server from its launch, through any run. The objects end as the machine does: what
      the worker took from a session is a first part of what its peer called Send with and
      fitted the queue there; the handlers were called for exactly the taken messages whose id
      has one; and what a session has put on the wire is a first part of the encodings of
      what its own Send was called with and fitted. */
  method Serve(n: nat, table: set<Short>, es: seq<Duplex.Event>) returns (w: Server)
    requires Duplex.Allowed(Duplex.Start(n), es, table)
    ensures var d := Duplex.Run(Duplex.Start(n), es, table);
      && Matches(w, d) && |w.sessions| == n
      && w.logic.calls == Logic.Filter(w.logic.taken, table)
      && Logic.ServedExactly(w.logic.calls, w.logic.taken, table)
      && forall i :: 0 <= i < n ==>
           && Pipeline.Of(w.logic.taken, i) <= Deliverable(Pipeline.Accepted(Duplex.Inbound(es), i))
           && w.sessions[i].accepted == Sender.Fitting(0, Duplex.Outbound(es, i))
           && w.sessions[i].wire <= EncodeAll(w.sessions[i].accepted)
  {
    hide Sound, CSession.Rx, CSession.Valid, CSession.RxShape, Footprint, Duplex.Allowed, Duplex.Run;
    hide Pipeline.ConnValid, Pipeline.Of, Pipeline.Run, Pipeline.Allowed, Pipeline.Accepted, Logic.Filter;
    hide Logic.ServedExactly, Sender.Fitting, Deliverable, EncodeAll;
    w := Launch(n, table);
    RunAll(w, Duplex.Start(n), es);
    Outcome(n, table, es);
    ghost var d := Duplex.Run(Duplex.Start(n), es, table);
    forall i | 0 <= i < n
      ensures w.sessions[i].accepted == Sender.Fitting(0, Duplex.Outbound(es, i))
      ensures w.sessions[i].wire <= EncodeAll(w.sessions[i].accepted)
    {
      assert w.sessions[i].Tx() == d.out[i];
    }
  }

  /** The same of the machine alone. */
  lemma Outcome(n: nat, table: set<Short>, es: seq<Duplex.Event>)
    requires Duplex.Allowed(Duplex.Start(n), es, table)
    ensures var d := Duplex.Run(Duplex.Start(n), es, table);
      && |d.inbound.conns| == |d.out| == n
      && d.inbound.logic.handled == Logic.Filter(d.inbound.logic.taken, table)
      && Logic.ServedExactly(d.inbound.logic.handled, d.inbound.logic.taken, table)
      && forall i :: 0 <= i < n ==>
           && Pipeline.Of(d.inbound.logic.taken, i) <= Deliverable(Pipeline.Accepted(Duplex.Inbound(es), i))
           && d.out[i].accepted == Sender.Fitting(0, Duplex.Outbound(es, i))
           && d.out[i].wire <= EncodeAll(d.out[i].accepted)
  {
    hide Duplex.Run, Duplex.Allowed, Pipeline.Run, Pipeline.Allowed, Pipeline.ConnValid, Sender.Run, Sender.Allowed;
    hide Pipeline.Of, Pipeline.Accepted, Logic.Filter, Logic.ServedExactly, Deliverable, EncodeAll;
    hide Sender.Valid, Sender.Fitting, Duplex.Inbound, Duplex.Outbound;
    var inbound := Duplex.Inbound(es);
    Duplex.RunProjects(Duplex.Start(n), es, table);
    Pipeline.StartValid(n, table);
    Pipeline.RunKeepsValid(Pipeline.Start(n), inbound, table);
    Pipeline.RunKeepsCount(Pipeline.Start(n), inbound, table);
    Sender.StartValid();
    var d := Duplex.Run(Duplex.Start(n), es, table);
    Logic.FilterServesExactly(d.inbound.logic.taken, table);
    forall i | 0 <= i < n
      ensures Pipeline.Of(d.inbound.logic.taken, i) <= Deliverable(Pipeline.Accepted(inbound, i))
      ensures d.out[i].accepted == Sender.Fitting(0, Duplex.Outbound(es, i))
      ensures d.out[i].wire <= EncodeAll(d.out[i].accepted)
    {
      Pipeline.TakenIsPrefixOfAccepted(n, inbound, table, i);
      Duplex.RunProjectsOut(Duplex.Start(n), es, table, i);
      Sender.RunKeepsValid(Sender.START, Duplex.Outbound(es, i));
      Sender.AcceptsWhatFits(Sender.START, Duplex.Outbound(es, i));
      Sender.WireIsPrefixOfAccepted(d.out[i]);
    }
  }
}
