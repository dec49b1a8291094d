/** The blocking pool of RPConPool.h as a step machine for any number of threads. A step is
    one stretch under mutex_; waiting in cond_ is the set of blocked threads, and threads
    that were notified but have not yet tested the predicate again are woken. */
module PoolMachine {
  import opened Bytes

  datatype Loan<T> = Loan(thread: nat, stub: T)

  datatype State<T> = State(idle: seq<T>, loans: seq<Loan<T>>, destroyed: seq<T>,
                            stop: bool, blocked: set<nat>, woken: set<nat>)

  datatype Event =
    | Get(thread: nat)                   // a newcomer in getConnection, who may barge in
    | Recheck(thread: nat)               // a woken thread in getConnection
    | Return(loan: nat, wakes: nat)      // returnConnection, and whom its notify_one picks
    | Spurious(thread: nat)
    | Close
    | Destroy                            // ~RPConPool: Close, then empty the queue

  predicate Enabled<T>(s: State<T>, e: Event) {
    match e
    case Get(t) => t !in s.blocked && t !in s.woken
    case Recheck(t) => t in s.woken
    case Return(i, w) => i < |s.loans| && (s.stop || s.blocked == {} || w in s.blocked)
    case Spurious(t) => t in s.blocked
    case Close => true
    case Destroy => true
  }

  /** getConnection from the point where the thread holds the mutex and is in neither set:
      null once stopped, else the front stub, else blocked. */
  function Attempt<T>(s: State<T>, t: nat): State<T> {
    if s.stop then s
    else if s.idle == [] then s.(blocked := s.blocked + {t})
    else s.(idle := s.idle[1..], loans := s.loans + [Loan(t, s.idle[0])])
  }

  function Stop<T>(s: State<T>): State<T> {
    s.(stop := true, woken := s.woken + s.blocked, blocked := {})
  }

  function Step<T>(s: State<T>, e: Event): State<T>
    requires Enabled(s, e)
  {
    match e
    case Get(t) => Attempt(s, t)
    case Recheck(t) => Attempt(s.(woken := s.woken - {t}), t)
    case Return(i, w) =>
      var stub := s.loans[i].stub;
      var s' := s.(loans := s.loans[..i] + s.loans[i + 1..]);
      if s.stop then s'.(destroyed := s.destroyed + [stub])
      else
        var s'' := s'.(idle := s.idle + [stub]);
        if s.blocked == {} then s''
        else s''.(blocked := s.blocked - {w}, woken := s.woken + {w})
    case Spurious(t) => s.(blocked := s.blocked - {t}, woken := s.woken + {t})
    case Close => Stop(s)
    case Destroy => Stop(s).(idle := [], destroyed := s.destroyed + s.idle)
  }

  function Stubs<T>(loans: seq<Loan<T>>): seq<T> {
    if loans == [] then [] else Stubs(loans[..|loans| - 1]) + [loans[|loans| - 1].stub]
  }

  /** Every stub the pool ever made, wherever it is. */
  ghost function All<T>(s: State<T>): multiset<T> {
    multiset(s.idle) + multiset(Stubs(s.loans)) + multiset(s.destroyed)
  }

  ghost predicate Valid<T>(s: State<T>) {
    // a stub sits idle beside blocked threads only while as many woken ones are to come
    && (!s.stop && s.blocked != {} ==> |s.idle| <= |s.woken|)
    && s.blocked !! s.woken
    && (s.stop ==> s.blocked == {})
    && (s.destroyed != [] ==> s.stop)
  }

  // ----- waiting -----

  lemma AttemptWaits<T>(s: State<T>, t: nat)
    requires t !in s.blocked && t !in s.woken
    requires s.blocked !! s.woken && (s.stop ==> s.blocked == {}) && (s.destroyed != [] ==> s.stop)
    requires !s.stop && s.blocked != {} ==> |s.idle| <= |s.woken| + 1
    ensures Valid(Attempt(s, t))
  {
  }

  lemma StepKeepsValid<T>(s: State<T>, e: Event)
    requires Valid(s) && Enabled(s, e)
    ensures Valid(Step(s, e))
  {
    match e
    case Recheck(t) => AttemptWaits(s.(woken := s.woken - {t}), t);
    case _ =>
  }

  /** No connection sits idle beside a sleeping thread: either a woken thread is about to
      test the predicate, and will find the stub, or every stub is on loan. */
  lemma NoIdleBesideBlocked<T>(s: State<T>)
    requires Valid(s) && !s.stop && s.blocked != {}
    ensures s.woken == {} ==> s.idle == []
    ensures s.idle != [] ==>
      exists t :: t in s.woken && Step(s, Recheck(t)).loans == s.loans + [Loan(t, s.idle[0])]
  {
  }

  /** Once stopped nobody is blocked, nobody blocks again, and nobody is given a stub. */
  lemma StoppedGivesNothing<T>(s: State<T>, e: Event)
    requires Valid(s) && s.stop && Enabled(s, e)
    ensures var s' := Step(s, e);
      && s'.stop && s'.blocked == {}
      && multiset(s'.loans) <= multiset(s.loans) && |s'.idle| <= |s.idle|
      && (e.Recheck? ==> s'.woken == s.woken - {e.thread})
  {
    if e.Return? { SplitAt(s.loans, e.loan); }
  }

  // ----- conservation -----

  lemma SplitAt<T>(q: seq<T>, i: nat)
    requires i < |q|
    ensures q == q[..i] + [q[i]] + q[i + 1..]
    ensures multiset(q) == multiset(q[..i] + q[i + 1..]) + multiset{q[i]}
  {
  }

  lemma {:induction false} StubsAppend<T>(a: seq<Loan<T>>, b: seq<Loan<T>>)
    ensures Stubs(a + b) == Stubs(a) + Stubs(b)
    decreases |b|
  {
    if b == [] {
      assert a + b == a;
    } else {
      var init := b[..|b| - 1];
      assert (a + b)[..|a + b| - 1] == a + init;
      StubsAppend(a, init);
    }
  }

  lemma ReturnConserves<T>(loans: seq<Loan<T>>, i: nat)
    requires i < |loans|
    ensures multiset(Stubs(loans)) == multiset(Stubs(loans[..i] + loans[i + 1..])) + multiset{loans[i].stub}
  {
    SplitAt(loans, i);
    StubsAppend(loans[..i] + [loans[i]], loans[i + 1..]);
    StubsAppend(loans[..i], [loans[i]]);
    StubsAppend(loans[..i], loans[i + 1..]);
    assert Stubs([loans[i]]) == [loans[i].stub];
  }

  lemma AttemptConserves<T>(s: State<T>, t: nat)
    ensures All(Attempt(s, t)) == All(s)
  {
    if !s.stop && s.idle != [] {
      StubsAppend(s.loans, [Loan(t, s.idle[0])]);
      assert Stubs([Loan(t, s.idle[0])]) == [s.idle[0]];
      assert s.idle == [s.idle[0]] + s.idle[1..];
    }
  }

  lemma ReturnStepConserves<T>(s: State<T>, i: nat, w: nat)
    requires Enabled(s, Return(i, w))
    ensures All(Step(s, Return(i, w))) == All(s)
  {
    var s' := Step(s, Return(i, w));
    var x := s.loans[i].stub;
    ReturnConserves(s.loans, i);
    if s.stop {
      assert multiset(s'.destroyed) == multiset(s.destroyed) + multiset{x};
    } else {
      assert multiset(s'.idle) == multiset(s.idle) + multiset{x};
    }
  }

  lemma StepConserves<T>(s: State<T>, e: Event)
    requires Enabled(s, e)
    ensures All(Step(s, e)) == All(s)
  {
    match e
    case Get(t) => AttemptConserves(s, t);
    case Recheck(t) => AttemptConserves(s.(woken := s.woken - {t}), t);
    case Return(i, w) => ReturnStepConserves(s, i, w);
    case Destroy => assert multiset(s.destroyed + s.idle) == multiset(s.destroyed) + multiset(s.idle);
    case _ =>
  }

  // ----- runs -----

  predicate Allowed<T>(s: State<T>, es: seq<Event>)
    decreases |es|
  {
    es == [] || (Enabled(s, es[0]) && Allowed(Step(s, es[0]), es[1..]))
  }

  function Run<T>(s: State<T>, es: seq<Event>): State<T>
    requires Allowed(s, es)
    decreases |es|
  {
    if es == [] then s else Run(Step(s, es[0]), es[1..])
  }

  lemma {:induction false} RunKeepsValid<T>(s: State<T>, es: seq<Event>)
    requires Valid(s) && Allowed(s, es)
    ensures Valid(Run(s, es)) && All(Run(s, es)) == All(s)
    decreases |es|
  {
    if es != [] {
      StepKeepsValid(s, es[0]);
      StepConserves(s, es[0]);
      RunKeepsValid(Step(s, es[0]), es[1..]);
    }
  }

  function Fresh<T>(stubs: seq<T>): State<T> {
    State(stubs, [], [], false, {}, {})
  }

  lemma {:induction false} DistinctCounts<T>(q: seq<T>, x: T)
    requires Distinct(q)
    ensures multiset(q)[x] <= 1
    decreases |q|
  {
    if q != [] {
      var init := q[..|q| - 1];
      assert q == init + [q[|q| - 1]];
      DistinctCounts(init, x);
      if multiset(init)[x] > 0 {
        assert x in init;
      }
    }
  }

  lemma {:induction false} StubAt<T>(loans: seq<Loan<T>>, i: nat)
    requires i < |loans|
    ensures |Stubs(loans)| == |loans| && Stubs(loans)[i] == loans[i].stub
    decreases |loans|
  {
    var n := |loans| - 1;
    if i < n {
      StubAt(loans[..n], i);
    } else if n > 0 {
      StubAt(loans[..n], 0);
    }
  }

  lemma CountTwice<T>(q: seq<T>, i: nat, j: nat)
    requires i < j < |q| && q[i] == q[j]
    ensures multiset(q)[q[i]] >= 2
  {
    assert q == q[..j] + q[j..];
    assert q[i] in q[..j] && q[j] in q[j..];
  }

  /** In every run that starts with distinct stubs, idle, loaned and destroyed ones make up
      the initial stubs: no stub is held twice, held and idle, or in use after its end. */
  lemma StubsAreExclusive<T>(stubs: seq<T>, es: seq<Event>, i: nat, j: nat)
    requires Distinct(stubs) && Allowed(Fresh(stubs), es)
    ensures var s := Run(Fresh(stubs), es);
      && All(s) == multiset(stubs)
      && (s.destroyed != [] ==> s.stop)
      && (i < j < |s.loans| ==> s.loans[i].stub != s.loans[j].stub)
      && (i < |s.loans| ==> s.loans[i].stub !in s.idle && s.loans[i].stub !in s.destroyed)
  {
    var s := Run(Fresh(stubs), es);
    RunKeepsValid(Fresh(stubs), es);
    assert All(Fresh(stubs)) == multiset(stubs);
    if i < |s.loans| {
      var x := s.loans[i].stub;
      StubAt(s.loans, i);
      DistinctCounts(stubs, x);
      assert multiset(Stubs(s.loans))[x] >= 1 by { assert x in Stubs(s.loans); }
      if i < j < |s.loans| && s.loans[j].stub == x {
        StubAt(s.loans, j);
        CountTwice(Stubs(s.loans), i, j);
        assert false;
      }
    }
  }

  /** In every run, before the stop: threads blocked with none woken means that all stubs
      of the pool are on loan, so a pool with any stub cannot be stuck. */
  lemma BlockedMeansAllLent<T>(stubs: seq<T>, es: seq<Event>)
    requires Allowed(Fresh(stubs), es)
    ensures var s := Run(Fresh(stubs), es);
      !s.stop && s.blocked != {} && s.woken == {} ==>
        && s.idle == [] && multiset(Stubs(s.loans)) == multiset(stubs)
        && (stubs != [] ==> exists w :: w in s.blocked && Enabled(s, Return(0, w)))
  {
    var s := Run(Fresh(stubs), es);
    RunKeepsValid(Fresh(stubs), es);
    assert All(Fresh(stubs)) == multiset(stubs);
    if !s.stop && s.blocked != {} && s.woken == {} {
      NoIdleBesideBlocked(s);
      if stubs != [] {
        assert s.loans != [] by { assert stubs[0] in stubs; }
        var w :| w in s.blocked;
        assert Enabled(s, Return(0, w));
      }
    }
  }

  // ----- progress -----

  /** The steps that are due when no newcomer arrives: woken threads go on, lent stubs come
      back. */
  predicate Due(e: Event) {
    e.Recheck? || e.Return?
  }

  /** An upper bound on the number of due steps. */
  function Remaining<T>(s: State<T>): nat {
    2 * |s.blocked| + 3 * |s.woken| + 2 * |s.loans|
  }

  lemma DueStepShrinks<T>(s: State<T>, e: Event)
    requires Valid(s) && Enabled(s, e) && Due(e)
    ensures Remaining(Step(s, e)) < Remaining(s)
    ensures Step(s, e).stop == s.stop
  {
    if e.Recheck? {
      var woken := s.woken - {e.thread};
      assert |woken| == |s.woken| - 1;
      assert |s.blocked + {e.thread}| == |s.blocked| + 1;
    } else if !s.stop && s.blocked != {} {
      assert |s.blocked - {e.wakes}| == |s.blocked| - 1;
      assert |s.woken + {e.wakes}| == |s.woken| + 1;
    }
  }

  lemma {:induction false} DueRunIsBounded<T>(s: State<T>, es: seq<Event>)
    requires Valid(s) && Allowed(s, es) && forall e :: e in es ==> Due(e)
    ensures |es| + Remaining(Run(s, es)) <= Remaining(s)
    ensures Run(s, es).stop == s.stop && Valid(Run(s, es)) && All(Run(s, es)) == All(s)
    decreases |es|
  {
    if es != [] {
      DueStepShrinks(s, es[0]);
      StepKeepsValid(s, es[0]);
      StepConserves(s, es[0]);
      DueRunIsBounded(Step(s, es[0]), es[1..]);
    }
  }

  /** The threads inside getConnection that do not have the mutex. */
  function Waiting<T>(s: State<T>): set<nat> {
    s.blocked + s.woken
  }

  /** Nobody leaves the wait but by testing the predicate, and then with the front stub, or
      with null once the pool was stopped. */
  lemma LeavesByTest<T>(s: State<T>, e: Event, t: nat)
    requires Enabled(s, e) && t in Waiting(s) && t !in Waiting(Step(s, e))
    ensures e == Recheck(t)
    ensures if s.stop then Step(s, e).loans == s.loans
      else s.idle != [] && Step(s, e).loans == s.loans + [Loan(t, s.idle[0])]
  {
  }

  /** A newcomer gets null, the front stub, or a place among the blocked threads. */
  lemma NewcomerOutcome<T>(s: State<T>, t: nat)
    requires t !in Waiting(s)
    ensures Enabled(s, Get(t))
    ensures var s' := Step(s, Get(t));
      if s.stop then s' == s
      else if s.idle == [] then s' == s.(blocked := s.blocked + {t})
      else s'.loans == s.loans + [Loan(t, s.idle[0])] && Waiting(s') == Waiting(s)
  {
  }

  /** Waking by itself a blocked thread only comes to test the predicate again. */
  lemma SpuriousOnlyWakes<T>(s: State<T>, t: nat)
    requires Valid(s) && t in s.blocked
    ensures Enabled(s, Spurious(t))
    ensures var s' := Step(s, Spurious(t));
      t in s'.woken && Waiting(s') == Waiting(s) && s'.idle == s.idle && s'.loans == s.loans
  {
    assert s.blocked - {t} + (s.woken + {t}) == s.blocked + s.woken;
  }

  /** The k-th step of es is t's test of the predicate, at which it leaves: with a stub, or
      with null after the stop. */
  ghost predicate LeavesAt<T>(s: State<T>, es: seq<Event>, t: nat, k: nat)
    requires Allowed(s, es)
  {
    && k < |es| && es[k] == Recheck(t)
    && Allowed(s, es[..k]) && Allowed(s, es[..k + 1])
    && var before, after := Run(s, es[..k]), Run(s, es[..k + 1]);
       && t !in Waiting(after)
       && if before.stop then after.loans == before.loans
          else before.idle != [] && after.loans == before.loans + [Loan(t, before.idle[0])]
  }

  lemma {:induction false} SomebodyLeft<T>(s: State<T>, es: seq<Event>, t: nat) returns (k: nat)
    requires Allowed(s, es) && t in Waiting(s) && t !in Waiting(Run(s, es))
    ensures LeavesAt(s, es, t, k)
    decreases |es|
  {
    hide Enabled, Step, Waiting;
    var s' := Step(s, es[0]);
    if t in Waiting(s') {
      k := SomebodyLeft(s', es[1..], t);
      RunFirst(s, es, k);
      RunFirst(s, es, k + 1);
      k := k + 1;
    } else {
      LeavesByTest(s, es[0], t);
      k := 0;
      RunFirst(s, es, 0);
    }
  }

  lemma RunFirst<T>(s: State<T>, es: seq<Event>, k: nat)
    requires es != [] && k < |es| && Allowed(s, es) && Allowed(Step(s, es[0]), es[1..][..k])
    ensures Allowed(s, []) && Run(s, []) == s
    ensures Allowed(s, es[..k + 1]) && Run(s, es[..k + 1]) == Run(Step(s, es[0]), es[1..][..k])
  {
    hide Enabled, Step;
    assert es[..k + 1][1..] == es[1..][..k];
  }

  /** From every state a run reaches before the stop, if no newcomer arrives, the due steps
      come to an end, and then nobody is blocked or woken and every stub is idle: each thread
      that was waiting has left with a stub. */
  lemma EveryoneIsServed<T>(stubs: seq<T>, past: seq<Event>, es: seq<Event>)
    requires stubs != [] && Allowed(Fresh(stubs), past) && !Run(Fresh(stubs), past).stop
    requires Allowed(Run(Fresh(stubs), past), es) && forall e :: e in es ==> Due(e)
    ensures var s := Run(Fresh(stubs), past); var q := Run(s, es);
      && |es| <= Remaining(s)
      && ((forall e :: Due(e) ==> !Enabled(q, e)) ==>
            && q.blocked == {} && q.woken == {} && q.loans == [] && multiset(q.idle) == multiset(stubs)
            && forall t :: t in Waiting(s) ==> exists k :: LeavesAt(s, es, t, k))
  {
    hide LeavesAt;
    var s := Run(Fresh(stubs), past);
    RunKeepsValid(Fresh(stubs), past);
    DueRunIsBounded(s, es);
    var q := Run(s, es);
    if forall e :: Due(e) ==> !Enabled(q, e) {
      NothingDue(q);
      assert stubs[0] in multiset(stubs);
      assert multiset(q.idle) == All(q) == multiset(stubs);
      forall t | t in Waiting(s) ensures exists k :: LeavesAt(s, es, t, k) {
        var k := SomebodyLeft(s, es, t);
      }
    }
  }

  /** After Close, or the destructor, whoever was waiting is awake: their tests come to an
      end, whatever else is done, each of them gets null, and nobody waits again. */
  lemma EveryoneIsReleased<T>(s: State<T>, e: Event, es: seq<Event>)
    requires Valid(s) && (e.Close? || e.Destroy?) && Allowed(Step(s, e), es)
    ensures var s' := Step(s, e); var q := Run(s', es);
      && Waiting(s') == Waiting(s) == s'.woken
      && multiset(q.loans) <= multiset(s.loans) && |q.woken| + Rechecks(es) == |s'.woken|
      && ((forall t :: !Enabled(q, Recheck(t))) ==>
            && Waiting(q) == {}
            && forall t :: t in Waiting(s) ==> exists k :: LeavesAt(s', es, t, k))
  {
    hide LeavesAt, Enabled, Run, Allowed, Rechecks;
    StopWakesAll(s, e);
    var s' := Step(s, e);
    StoppedRun(s', es);
    var q := Run(s', es);
    if forall t :: !Enabled(q, Recheck(t)) {
      NobodyTests(q);
      forall t | t in Waiting(s) ensures exists k :: LeavesAt(s', es, t, k) {
        var k := SomebodyLeft(s', es, t);
      }
    }
  }

  /** The destructor destroys what is idle, and every later return what it brings: once all
      loans have ended, every stub of the pool has been destroyed. */
  lemma DestroyedInTheEnd<T>(s: State<T>, es: seq<Event>)
    requires Valid(s) && Allowed(Step(s, Destroy), es)
    ensures var q := Run(Step(s, Destroy), es);
      q.idle == [] && (q.loans == [] ==> multiset(q.destroyed) == All(s))
  {
    hide Step, Enabled;
    StepConserves(s, Destroy);
    StopWakesAll(s, Destroy);
    NothingIdle(s);
    var s' := Step(s, Destroy);
    RunKeepsValid(s', es);
    StaysEmpty(s', es);
  }

  lemma NothingIdle<T>(s: State<T>)
    ensures Enabled(s, Destroy) && Step(s, Destroy).idle == []
  {
  }

  lemma {:induction false} StaysEmpty<T>(s: State<T>, es: seq<Event>)
    requires Valid(s) && s.stop && s.idle == [] && Allowed(s, es)
    ensures Run(s, es).idle == []
    decreases |es|
  {
    if es != [] {
      StepKeepsValid(s, es[0]);
      StoppedGivesNothing(s, es[0]);
      hide Step, Enabled;
      StaysEmpty(Step(s, es[0]), es[1..]);
    }
  }

  lemma StopWakesAll<T>(s: State<T>, e: Event)
    requires Valid(s) && (e.Close? || e.Destroy?)
    ensures Enabled(s, e)
    ensures var s' := Step(s, e);
      Valid(s') && s'.stop && s'.loans == s.loans && Waiting(s') == Waiting(s) == s'.woken
  {
    hide Valid;
    StepKeepsValid(s, e);
    assert s.woken + s.blocked == s.blocked + s.woken;
  }

  lemma NobodyTests<T>(q: State<T>)
    requires forall t :: !Enabled(q, Recheck(t))
    ensures q.woken == {}
  {
    forall t ensures t !in q.woken {
      assert !Enabled(q, Recheck(t));
    }
  }

  function Rechecks(es: seq<Event>): nat {
    if es == [] then 0 else (if es[0].Recheck? then 1 else 0) + Rechecks(es[1..])
  }

  lemma {:induction false} StoppedRun<T>(s: State<T>, es: seq<Event>)
    requires Valid(s) && s.stop && Allowed(s, es)
    ensures var q := Run(s, es);
      && q.stop && q.blocked == {} && multiset(q.loans) <= multiset(s.loans)
      && |q.woken| + Rechecks(es) == |s.woken|
    decreases |es|
  {
    if es != [] {
      StepKeepsValid(s, es[0]);
      StoppedGivesNothing(s, es[0]);
      StoppedWaits(s, es[0]);
      hide Step, Enabled;
      StoppedRun(Step(s, es[0]), es[1..]);
    }
  }

  lemma StoppedWaits<T>(s: State<T>, e: Event)
    requires Valid(s) && s.stop && Enabled(s, e)
    ensures |Step(s, e).woken| + (if e.Recheck? then 1 else 0) == |s.woken|
  {
  }

  // ----- the order of the stubs -----

  /** The stubs lent in a run, one for each new loan. */
  function LentIn<T>(s: State<T>, es: seq<Event>): seq<T>
    requires Allowed(s, es)
    decreases |es|
  {
    if es == [] then []
    else
      var s' := Step(s, es[0]);
      (if |s'.loans| > |s.loans| then [s'.loans[|s.loans|].stub] else []) + LentIn(s', es[1..])
  }

  /** The stubs brought back in a run. */
  function BroughtBack<T>(s: State<T>, es: seq<Event>): seq<T>
    requires Allowed(s, es)
    decreases |es|
  {
    if es == [] then []
    else
      (if es[0].Return? then [s.loans[es[0].loan].stub] else []) + BroughtBack(Step(s, es[0]), es[1..])
  }

  /** Before the stop the stubs are lent in the order in which they became idle. */
  lemma {:induction false} LentInOrder<T>(s: State<T>, es: seq<Event>)
    requires Allowed(s, es) && !Run(s, es).stop
    ensures LentIn(s, es) + Run(s, es).idle == s.idle + BroughtBack(s, es)
    decreases |es|
  {
    if es != [] {
      var s', rest := Step(s, es[0]), es[1..];
      LentInOrder(s', rest);
      StopIsFinal(s', rest);
      QueueStep(s, es[0]);
      var lent := if |s'.loans| > |s.loans| then [s'.loans[|s.loans|].stub] else [];
      var back := if es[0].Return? then [s.loans[es[0].loan].stub] else [];
      hide Step;
      Reassociate(lent, LentIn(s', rest), Run(s', rest).idle);
      Reassociate(lent, s'.idle, BroughtBack(s', rest));
      Reassociate(s.idle, back, BroughtBack(s', rest));
    }
  }

  lemma QueueStep<T>(s: State<T>, e: Event)
    requires Enabled(s, e) && !Step(s, e).stop
    ensures var s' := Step(s, e);
      (if |s'.loans| > |s.loans| then [s'.loans[|s.loans|].stub] else []) + s'.idle
      == s.idle + if e.Return? then [s.loans[e.loan].stub] else []
  {
  }

  lemma {:induction false} StopIsFinal<T>(s: State<T>, es: seq<Event>)
    requires Allowed(s, es)
    ensures s.stop ==> Run(s, es).stop
    decreases |es|
  {
    if es != [] {
      StopIsFinal(Step(s, es[0]), es[1..]);
    }
  }

  /** A return ends that loan and no other. */
  lemma ReturnEndsLoan<T>(s: State<T>, i: nat, w: nat)
    requires Enabled(s, Return(i, w))
    ensures multiset(Step(s, Return(i, w)).loans) == multiset(s.loans) - multiset{s.loans[i]}
  {
    SplitAt(s.loans, i);
  }

  lemma NothingDue<T>(q: State<T>)
    requires Valid(q) && forall e :: Due(e) ==> !Enabled(q, e)
    ensures q.woken == {} && q.loans == []
  {
    forall t ensures t !in q.woken {
      assert Due(Recheck(t)) && !Enabled(q, Recheck(t));
    }
    var w :| q.blocked == {} || w in q.blocked;
    assert Due(Return(0, w)) && !Enabled(q, Return(0, w));
  }
}
