/** LogicSystem.cpp in its own form. Each method is one stretch of code that runs under
    mutex_, or one notify, and is proved to be one step of the machine in Logic. */
module LogicQueue {
  import Bytes
  import opened Wire
  import opened MsgNodes
  import Logic

  class LogicNode {
    const session: nat
    const recvNode: RecvNode

    constructor (session: nat, recvNode: RecvNode)
      ensures this.session == session && this.recvNode == recvNode
    {
      this.session, this.recvNode := session, recvNode;
    }

    ghost predicate Holds(node: Logic.Node)
      reads recvNode, recvNode.data
    {
      recvNode.Filled() && Logic.Node(session, recvNode.Message()) == node
    }
  }

  class LogicSystem {
    var msgQue: seq<LogicNode>
    var bStop: bool
    const callbacks: set<Short>    // the ids in fun_callbacks_
    var calls: seq<Logic.Node>     // the calls made: session, id and data handed over

    // consume_ and the threads around it
    var worker: Logic.Worker
    var notifying: set<nat>
    var stopNotice: bool

    ghost var queued: seq<Logic.Node>
    ghost var posted: seq<Logic.Node>
    ghost var taken: seq<Logic.Node>

    ghost function Abs(): Logic.State
      reads this
    {
      Logic.State(queued, worker, notifying, bStop, stopNotice, posted, taken, calls)
    }

    /** The nodes in the queue still hold what was posted. */
    ghost predicate Intact()
      reads this`msgQue, this`queued
      reads set n | n in msgQue :: n.recvNode, set n | n in msgQue :: n.recvNode.data
    {
      && |msgQue| == |queued|
      && forall k :: 0 <= k < |msgQue| ==> msgQue[k].Holds(queued[k])
    }

    constructor (callbacks: set<Short>)
      ensures this.callbacks == callbacks && Intact() && Abs() == Logic.START
    {
      this.callbacks := callbacks;
      msgQue, bStop, calls := [], false, [];
      worker, notifying, stopNotice := Logic.Awake, {}, false;
      queued, posted, taken := [], [], [];
    }

    /** PostMsgToQue up to the unlock. */
    method Post(msg: LogicNode)
      requires Intact() && msg.recvNode.Filled()
      requires Logic.Enabled(Abs(), Logic.Post(Logic.Node(msg.session, msg.recvNode.Message())))
      modifies this`msgQue, this`notifying, this`queued, this`posted
      ensures Intact() && msgQue == old(msgQue) + [msg]
      ensures var node := Logic.Node(msg.session, msg.recvNode.Message());
        Abs() == Logic.Step(old(Abs()), Logic.Post(node), callbacks)
    {
      ghost var node := Logic.Node(msg.session, msg.recvNode.Message());
      msgQue, queued, posted := msgQue + [msg], queued + [node], posted + [node];
      if |msgQue| == 1 {
        notifying := notifying + {msg.session};
      }
    }

    /** The notify_one that follows the unlock. */
    method Notify(session: nat)
      requires Intact() && Logic.Enabled(Abs(), Logic.Notify(session))
      modifies this`notifying, this`worker
      ensures Intact() && Abs() == Logic.Step(old(Abs()), Logic.Notify(session), callbacks)
    {
      notifying := notifying - {session};
      worker := Logic.Wake(worker);
    }

    /** find in fun_callbacks_, and the call if there is one. */
    method Dispatch(node: LogicNode, ghost what: Logic.Node)
      requires node.Holds(what)
      modifies this`calls
      ensures calls == old(calls) + Logic.Filter([what], callbacks)
      ensures calls == if what.msg.id in callbacks then old(calls) + [what] else old(calls)
    {
      var recv := node.recvNode;
      assert Logic.Filter([], callbacks) == [] && [what][..0] == [];
      if recv.msgId in callbacks {
        calls := calls + [Logic.Node(node.session, Frame(recv.msgId, recv.data[..recv.totalLen]))];
      }
    }

    /** One pass of DealMsg's loop, from the lock to the unlock or the wait. */
    method Round()
      requires Intact() && Logic.Enabled(Abs(), Logic.Round)
      modifies this`msgQue, this`calls, this`worker, this`queued, this`taken
      ensures Intact() && Abs() == Logic.Step(old(Abs()), Logic.Round, callbacks)
      ensures msgQue == if bStop || old(msgQue) == [] then [] else old(msgQue)[1..]
    {
      if bStop {
        Drain();
        worker := Logic.Exited;
      } else if msgQue != [] {
        Dispatch(msgQue[0], queued[0]);
        taken, queued := taken + queued[..1], queued[1..];
        msgQue := msgQue[1..];
        assert old(queued)[..1] == [old(queued)[0]];
      } else {
        worker := Logic.Deciding;
      }
    }

    /** The inner loop that empties the queue once b_stop_ was seen. */
    method Drain()
      requires Intact()
      modifies this`msgQue, this`calls, this`queued, this`taken
      ensures Intact() && msgQue == [] && queued == []
      ensures taken == old(taken) + old(queued)
      ensures calls == old(calls) + Logic.Filter(old(queued), callbacks)
      ensures Logic.ServedExactly(calls[|old(calls)|..], old(queued), callbacks)
    {
      hide Logic.Filter, Logic.ServedExactly;
      Logic.FilterServesExactly(queued, callbacks);
      ghost var all, k := queued, 0;
      DrainedNone();
      while msgQue != []
        invariant Intact() && k <= |all| && queued == all[k..]
        invariant taken == old(taken) + all[..k]
        invariant calls == old(calls) + Logic.Filter(all[..k], callbacks)
        decreases |msgQue|
      {
        Bytes.PastOne(all, k);
        Bytes.Reassociate(old(taken), all[..k], [all[k]]);
        Bytes.Reassociate(old(calls), Logic.Filter(all[..k], callbacks), Logic.Filter([all[k]], callbacks));
        Logic.FilterAppend(all[..k], [all[k]], callbacks);
        Dispatch(msgQue[0], queued[0]);
        taken, queued, k := taken + [queued[0]], queued[1..], k + 1;
        msgQue := msgQue[1..];
      }
      assert all[..k] == all;
    }

    lemma DrainedNone()
      ensures Logic.Filter([], callbacks) == []
    {
    }

    method Sleep()
      requires Intact() && Logic.Enabled(Abs(), Logic.Sleep)
      modifies this`worker
      ensures Intact() && Abs() == Logic.Step(old(Abs()), Logic.Sleep, callbacks)
    {
      worker := Logic.Asleep;
    }

    method Spurious()
      requires Intact() && Logic.Enabled(Abs(), Logic.Spurious)
      modifies this`worker
      ensures Intact() && Abs() == Logic.Step(old(Abs()), Logic.Spurious, callbacks)
    {
      worker := Logic.Awake;
    }

    /** The destructor's first statement, made without the mutex. */
    method SetStop()
      requires Intact() && Logic.Enabled(Abs(), Logic.SetStop)
      modifies this`bStop, this`stopNotice
      ensures Intact() && Abs() == Logic.Step(old(Abs()), Logic.SetStop, callbacks)
    {
      bStop, stopNotice := true, true;
    }

    method StopNotify()
      requires Intact() && Logic.Enabled(Abs(), Logic.StopNotify)
      modifies this`stopNotice, this`worker
      ensures Intact() && Abs() == Logic.Step(old(Abs()), Logic.StopNotify, callbacks)
    {
      stopNotice := false;
      worker := Logic.Wake(worker);
    }

    /** Any step at the queue but a post. What stays in the queue was in it. */
    method Do(e: Logic.Event)
      requires Intact() && Logic.Enabled(Abs(), e) && !e.Post?
      modifies this
      ensures Intact() && Abs() == Logic.Step(old(Abs()), e, callbacks)
      ensures forall n :: n in msgQue ==> n in old(msgQue)
    {
      hide Intact, Logic.Step;
      match e
      case Notify(session) => Notify(session);
      case Round => Round();
      case Sleep => Sleep();
      case Spurious => Spurious();
      case SetStop => SetStop();
      case StopNotify => StopNotify();
    }
  }
}
