/** RPConPool.h in its own form: each method is one stretch of code under mutex_, and is
    proved to be one step of PoolMachine. */
module RpcPool {
  import opened Bytes
  import opened PoolMachine

  class Stub {
    const host: string
    const port: string

    constructor (host: string, port: string)
      ensures this.host == host && this.port == port
    {
      this.host, this.port := host, port;
    }
  }

  /** How a pass through getConnection's locked part ends: the thread blocks in cond_.wait,
      or it returns a null or a stub. */
  datatype Outcome = Blocks | Null | Lent(stub: Stub)

  class RPConPool {
    const poolSize: nat
    const host: string
    const port: string
    var connections: seq<Stub>
    var bStop: bool

    // the threads inside cond_
    var blocked: set<nat>
    var woken: set<nat>

    ghost var loans: seq<Loan<Stub>>
    ghost var destroyed: seq<Stub>

    ghost function Abs(): State<Stub>
      reads this
    {
      State(connections, loans, destroyed, bStop, blocked, woken)
    }

    constructor (poolSize: nat, host: string, port: string)
      ensures this.poolSize == poolSize && |connections| == poolSize
      ensures Distinct(connections) && Abs() == Fresh(connections) && Valid(Abs())
      ensures forall k :: 0 <= k < poolSize ==>
        fresh(connections[k]) && connections[k].host == host && connections[k].port == port
    {
      this.poolSize, this.host, this.port := poolSize, host, port;
      connections, bStop, blocked, woken := [], false, {}, {};
      loans, destroyed := [], [];
      new;
      for i := 0 to poolSize
        modifies this`connections
        invariant |connections| == i && Distinct(connections)
        invariant forall k :: 0 <= k < i ==>
          fresh(connections[k]) && connections[k].host == host && connections[k].port == port
      {
        var stub := new Stub(host, port);
        connections := connections + [stub];
      }
    }

    /** A call of getConnection, up to its first wait or its end. */
    method GetConnection(t: nat) returns (r: Outcome)
      requires Valid(Abs()) && Enabled(Abs(), Get(t))
      modifies this`connections, this`blocked, this`loans
      ensures Valid(Abs()) && Abs() == Step(old(Abs()), Get(t))
      ensures r == (if old(bStop) then Null else if old(connections) == [] then Blocks
                    else Lent(old(connections)[0]))
    {
      StepKeepsValid(Abs(), Get(t));
      r := Attempt(t);
    }

    /** A thread whose wait was notified has the mutex again. */
    method Resume(t: nat) returns (r: Outcome)
      requires Valid(Abs()) && Enabled(Abs(), Recheck(t))
      modifies this`connections, this`blocked, this`woken, this`loans
      ensures Valid(Abs()) && Abs() == Step(old(Abs()), Recheck(t))
      ensures r == (if old(bStop) then Null else if old(connections) == [] then Blocks
                    else Lent(old(connections)[0]))
    {
      StepKeepsValid(Abs(), Recheck(t));
      woken := woken - {t};
      r := Attempt(t);
    }

    method Attempt(t: nat) returns (r: Outcome)
      modifies this`connections, this`blocked, this`loans
      ensures Abs() == PoolMachine.Attempt(old(Abs()), t)
      ensures r == (if bStop then Null else if old(connections) == [] then Blocks
                    else Lent(old(connections)[0]))
    {
      if !bStop && connections == [] {
        blocked := blocked + {t};
        return Blocks;
      }
      if bStop {
        return Null;
      }
      var context := connections[0];
      connections := connections[1..];
      loans := loans + [Loan(t, context)];
      return Lent(context);
    }

    /** The stub of loan i comes back; w is whom notify_one picks, if anybody is waiting. */
    method ReturnConnection(ghost i: nat, context: Stub, w: nat)
      requires Valid(Abs()) && Enabled(Abs(), Return(i, w)) && loans[i].stub == context
      modifies this`connections, this`blocked, this`woken, this`loans, this`destroyed
      ensures Valid(Abs()) && Abs() == Step(old(Abs()), Return(i, w))
    {
      StepKeepsValid(Abs(), Return(i, w));
      loans := loans[..i] + loans[i + 1..];
      if bStop {
        destroyed := destroyed + [context];
        return;
      }
      connections := connections + [context];
      if blocked != {} {
        blocked, woken := blocked - {w}, woken + {w};
      }
    }

    method Close()
      modifies this`bStop, this`blocked, this`woken
      ensures Abs() == Step(old(Abs()), PoolMachine.Close)
      ensures bStop && blocked == {} && woken == old(woken + blocked)
    {
      bStop := true;
      blocked, woken := {}, woken + blocked;
    }

    /** The destructor. */
    method Destroy()
      requires Valid(Abs())
      modifies this
      ensures Valid(Abs()) && Abs() == Step(old(Abs()), PoolMachine.Destroy)
    {
      hide PoolMachine.Valid;
      StepKeepsValid(Abs(), PoolMachine.Destroy);
      Close();
      ghost var all, k := connections, 0;
      while connections != []
        invariant k <= |all| && connections == all[k..] && destroyed == old(destroyed) + all[..k]
        invariant bStop && blocked == {} && woken == old(woken + blocked) && loans == old(loans)
        decreases |connections|
      {
        PastOne(all, k);
        Reassociate(old(destroyed), all[..k], [all[k]]);
        destroyed := destroyed + [connections[0]];
        connections, k := connections[1..], k + 1;
      }
      assert all[..k] == all;
    }
  }
}
