/** MySqlPool's health check (MysqlDao.cpp): every connection is popped and re-enqueued by a
    scope guard, whichever way the iteration ends. The check thread has no try clause, so an
    exception that leaves checkConnection ends the process. */
module MySql {
  import opened Bytes

  const KEEP_ALIVE := 5
  const SLEEP := 60

  /** What the driver does in one iteration, if it is asked at all. Threw: SELECT 1 failed
      and so did the reconnect, whose exception leaves checkConnection. */
  datatype Probe = Alive | Reconnected(con: int) | Threw

  // ----- one connection -----

  /** The driver's connection behind con_, and last_oper_time_. */
  datatype Snap = Snap(con: int, last: int) {
    predicate Stale(timestamp: int) {
      timestamp - last >= KEEP_ALIVE
    }

    predicate Fails(timestamp: int, p: Probe) {
      Stale(timestamp) && p.Threw?
    }

    function After(timestamp: int, p: Probe): Snap {
      if !Stale(timestamp) || p.Threw? then this
      else Snap(if p.Reconnected? then p.con else con, timestamp)
    }
  }

  // ----- the whole pool -----

  /** The connections after a pass over the first n of them. */
  function Probed(was: seq<Snap>, timestamp: int, probe: seq<Probe>, n: nat): (now: seq<Snap>)
    requires n <= |was| == |probe|
    ensures |now| == |was|
  {
    seq(|was|, k requires 0 <= k < |was| => if k < n then was[k].After(timestamp, probe[k]) else was[k])
  }

  lemma ProbedNone(was: seq<Snap>, timestamp: int, probe: seq<Probe>)
    requires |was| == |probe|
    ensures Probed(was, timestamp, probe, 0) == was
  {
  }

  lemma ProbedOneMore(was: seq<Snap>, timestamp: int, probe: seq<Probe>, n: nat)
    requires n < |was| == |probe|
    ensures Probed(was, timestamp, probe, n)[n] == was[n]
    ensures Probed(was, timestamp, probe, n)[n := was[n].After(timestamp, probe[n])]
      == Probed(was, timestamp, probe, n + 1)
  {
  }

  ghost predicate FailsNone(was: seq<Snap>, timestamp: int, probe: seq<Probe>, n: nat)
    requires n <= |was| == |probe|
  {
    forall k :: 0 <= k < n ==> !was[k].Fails(timestamp, probe[k])
  }

  /** The n-th is the first to fail. */
  ghost predicate FailsFirst(was: seq<Snap>, timestamp: int, probe: seq<Probe>, n: nat)
    requires n < |was| == |probe|
  {
    FailsNone(was, timestamp, probe, n) && was[n].Fails(timestamp, probe[n])
  }

  /** What a pass over the first n connections does to each: one that was not reached, was
      in use less than 5 seconds ago, or at which the pass threw, is as it was; any other is
      stamped, on the new connection after a reconnect. */
  lemma PassTouchesStale(was: seq<Snap>, timestamp: int, probe: seq<Probe>, n: nat, k: nat)
    requires n <= |was| == |probe| && k < |was|
    ensures Probed(was, timestamp, probe, n)[k] ==
      if k >= n || timestamp - was[k].last < 5 || probe[k].Threw? then was[k]
      else Snap(if probe[k].Reconnected? then probe[k].con else was[k].con, timestamp)
    ensures was[k].Fails(timestamp, probe[k]) <==> timestamp - was[k].last >= 5 && probe[k].Threw?
  {
  }

  lemma FullPassLeavesNoneStale(was: seq<Snap>, timestamp: int, probe: seq<Probe>)
    requires |was| == |probe| && FailsNone(was, timestamp, probe, |was|)
    ensures forall s :: s in Probed(was, timestamp, probe, |was|) ==> !s.Stale(timestamp)
  {
  }

  /** The connections after n whole passes. */
  function Aged(was: seq<Snap>, times: seq<int>, probes: seq<seq<Probe>>, n: nat): (now: seq<Snap>)
    requires n <= |times| == |probes| && forall j :: 0 <= j < n ==> |probes[j]| == |was|
    ensures |now| == |was|
  {
    if n == 0 then was else Probed(Aged(was, times, probes, n - 1), times[n - 1], probes[n - 1], |was|)
  }

  ghost predicate NeverFailed(was: seq<Snap>, times: seq<int>, probes: seq<seq<Probe>>, n: nat)
    requires n <= |times| == |probes| && forall j :: 0 <= j < n ==> |probes[j]| == |was|
  {
    forall j :: 0 <= j < n ==> FailsNone(Aged(was, times, probes, j), times[j], probes[j], |was|)
  }

  lemma NeverFailedYet(was: seq<Snap>, times: seq<int>, probes: seq<seq<Probe>>)
    requires |times| == |probes|
    ensures NeverFailed(was, times, probes, 0) && Aged(was, times, probes, 0) == was
  {
  }

  lemma OneMorePass(was: seq<Snap>, times: seq<int>, probes: seq<seq<Probe>>, n: nat)
    requires n < |times| == |probes| && forall j :: 0 <= j <= n ==> |probes[j]| == |was|
    requires NeverFailed(was, times, probes, n)
    requires FailsNone(Aged(was, times, probes, n), times[n], probes[n], |was|)
    ensures NeverFailed(was, times, probes, n + 1)
    ensures Aged(was, times, probes, n + 1)
      == Probed(Aged(was, times, probes, n), times[n], probes[n], |was|)
  {
  }

  /** The thread sleeps SLEEP seconds between two passes, and starts after the connections. */
  ghost predicate Spaced(was: seq<Snap>, times: seq<int>) {
    && (forall j :: 0 < j < |times| ==> times[j - 1] + SLEEP <= times[j])
    && (times != [] ==> forall s :: s in was ==> s.last <= times[0])
  }

  /** As the sleep is longer than KEEP_ALIVE, every pass but the first asks every connection
      it gets to: pass n throws at exactly the first one that cannot be reconnected, and
      after any number of its iterations just the ones it got to and did not throw at are
      stamped. */
  lemma {:induction false} EveryPassAsks(was: seq<Snap>, times: seq<int>, probes: seq<seq<Probe>>, n: nat)
    requires 0 < n < |times| == |probes| && forall j :: 0 <= j <= n ==> |probes[j]| == |was|
    requires Spaced(was, times)
    ensures forall s :: s in Aged(was, times, probes, n) ==> s.Stale(times[n])
    ensures forall k :: 0 <= k < |was| ==>
      (FailsFirst(Aged(was, times, probes, n), times[n], probes[n], k)
      <==> probes[n][k].Threw? && forall i :: 0 <= i < k ==> !probes[n][i].Threw?)
    ensures var before := Aged(was, times, probes, n);
      forall visited, k :: 0 <= visited <= |was| && 0 <= k < |was| ==>
        var now, p := Probed(before, times[n], probes[n], visited)[k], probes[n][k];
        if k < visited && !p.Threw? then
          now == Snap(if p.Reconnected? then p.con else before[k].con, times[n])
        else now == before[k]
  {
    if n > 1 {
      EveryPassAsks(was, times, probes, n - 1);
    }
    var before, now := Aged(was, times, probes, n - 1), Aged(was, times, probes, n);
    forall k | 0 <= k < |was| ensures now[k].last <= times[n - 1] {
      assert now[k] == before[k].After(times[n - 1], probes[n - 1][k]);
      assert n == 1 ==> before[k] in was;
      assert before[k] in before;
    }
  }

  // ----- the code -----

  class SqlConnection {
    var con: int
    var lastOperTime: int

    constructor (con: int, lastTime: int)
      ensures State() == Snap(con, lastTime)
    {
      this.con, lastOperTime := con, lastTime;
    }

    function State(): Snap
      reads this
    {
      Snap(con, lastOperTime)
    }
  }

  function Rotate<T>(q: seq<T>, k: nat): seq<T>
    requires k <= |q|
  {
    q[k..] + q[..k]
  }

  ghost function Snaps(cs: seq<SqlConnection>): (s: seq<Snap>)
    reads cs
    ensures |s| == |cs| && forall k :: 0 <= k < |cs| ==> s[k] == cs[k].State()
  {
    seq(|cs|, k requires 0 <= k < |cs| reads cs => cs[k].State())
  }

  lemma RotatedNone<T>(q: seq<T>)
    ensures Rotate(q, 0) == q && Rotate(q, |q|) == q
  {
  }

  lemma RotatedOneMore<T>(q: seq<T>, k: nat)
    requires k < |q|
    ensures Rotate(q, k) != [] && Rotate(q, k)[0] == q[k]
    ensures Rotate(q, k)[1..] + [q[k]] == Rotate(q, k + 1)
  {
    assert q[..k + 1] == q[..k] + [q[k]] && q[k..] == [q[k]] + q[k + 1..];
  }

  lemma RotationKeepsDistinct<T>(q: seq<T>, k: nat)
    requires k <= |q| && Distinct(q)
    ensures Distinct(Rotate(q, k))
  {
  }

  class MySqlPool {
    // unique_ptrs, so no connection is in it twice
    var pool: seq<SqlConnection>

    /** One iteration, for the connection that was popped. */
    static method Service(c: SqlConnection, timestamp: int, p: Probe) returns (threw: bool)
      modifies c
      ensures c.State() == old(c.State()).After(timestamp, p)
      ensures threw <==> old(c.State()).Fails(timestamp, p)
    {
      threw := false;
      if timestamp - c.lastOperTime >= KEEP_ALIVE {
        match p
        case Alive =>
          c.lastOperTime := timestamp;
        case Reconnected(newcon) =>
          c.con, c.lastOperTime := newcon, timestamp;
        case Threw =>
          threw := true;
      }
    }

    /** One pass over the pool; visited counts the iterations that ended. The pass throws at
        the first stale connection whose probe throws, and never loses a connection. */
    method CheckConnection(timestamp: int, probe: seq<Probe>) returns (threw: bool, visited: nat)
      requires Distinct(pool) && |probe| == |pool|
      modifies this, pool
      ensures Distinct(pool) && visited <= |old(pool)| && pool == Rotate(old(pool), visited)
      ensures if threw then visited > 0 else visited == |old(pool)| && pool == old(pool)
      ensures if threw then FailsFirst(old(Snaps(pool)), timestamp, probe, visited - 1)
        else FailsNone(old(Snaps(pool)), timestamp, probe, visited)
      ensures Snaps(old(pool)) == Probed(old(Snaps(pool)), timestamp, probe, visited)
      ensures !threw ==> forall s :: s in Snaps(pool) ==> !s.Stale(timestamp)
    {
      hide Probed, Rotate;
      ghost var all, was := pool, Snaps(pool);
      threw, visited := false, 0;
      ProbedNone(was, timestamp, probe);
      RotatedNone(all);
      var poolsize := |pool|;
      for i := 0 to poolsize
        invariant visited == i && pool == Rotate(all, i) && !threw
        invariant FailsNone(was, timestamp, probe, i)
        invariant Snaps(all) == Probed(was, timestamp, probe, i)
      {
        ghost var before := Snaps(all);
        ProbedOneMore(was, timestamp, probe, i);
        RotatedOneMore(all, i);
        var con := pool[0];
        pool := pool[1..];
        threw := Service(con, timestamp, probe[i]);
        assert Snaps(all) == before[i := con.State()];
        // the scope guard
        pool := pool + [con];
        visited := i + 1;
        if threw {
          RotationKeepsDistinct(all, visited);
          return;
        }
      }
      FullPassLeavesNoneStale(was, timestamp, probe);
    }

    /** The check thread's loop, up to the test that sees b_stop_; times[j] is the clock in
        the j-th pass. Unless an exception ends it, the queue is as it was; in either case
        every connection is still in it and has aged by the passes that reached it. */
    method CheckThread(times: seq<int>, probes: seq<seq<Probe>>) returns (threw: bool, full: nat, visited: nat)
      requires Distinct(pool) && |probes| == |times| && forall j :: 0 <= j < |probes| ==> |probes[j]| == |pool|
      modifies this, pool
      ensures Distinct(pool) && visited <= |old(pool)| && pool == Rotate(old(pool), visited)
      ensures if threw then visited > 0 && full < |times| else visited == 0 && full == |times|
      ensures NeverFailed(old(Snaps(pool)), times, probes, full)
      ensures var now := Aged(old(Snaps(pool)), times, probes, full);
        if threw then
          && FailsFirst(now, times[full], probes[full], visited - 1)
          && Snaps(old(pool)) == Probed(now, times[full], probes[full], visited)
        else
          Snaps(old(pool)) == now
    {
      hide Aged, NeverFailed, Probed, FailsNone, FailsFirst, Rotate;
      ghost var all, was := pool, Snaps(pool);
      RotatedNone(all);
      NeverFailedYet(was, times, probes);
      full := 0;
      while full < |times|
        invariant full <= |times| && pool == all
        invariant NeverFailed(was, times, probes, full)
        invariant Snaps(all) == Aged(was, times, probes, full)
      {
        threw, visited := CheckConnection(times[full], probes[full]);
        if threw {
          return;
        }
        OneMorePass(was, times, probes, full);
        full := full + 1;
      }
      threw, visited := false, 0;
    }
  }
}
