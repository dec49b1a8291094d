/** RedisConPool (RedisMgr.cpp): how it opens its contexts, and its health check. The health
    check replaces a context in a catch clause, while the calls in the try clause are C
    functions that report by value: a PING without a reply puts the context back. The clause
    is modelled as written, for whatever may throw there. */
module Redis {
  import opened Bytes

  type Context = int

  /** What redisConnect gives: no context, one with its error set, or a good one, to which
      AUTH may be refused. */
  datatype Opening = NoContext | InError(ctx: Context) | Refused(ctx: Context) | Good(ctx: Context)

  /** One iteration of the check: PING got a reply or none, or something threw. */
  datatype Visit = Reply | NoReply | Threw(opening: Opening)

  // ----- what the loops do -----

  /** What is enqueued, freed and made in turn. */
  datatype Effect = Effect(kept: seq<Context>, freed: seq<Context>, made: seq<Context>)

  function Join(a: Effect, b: Effect): Effect {
    Effect(a.kept + b.kept, a.freed + b.freed, a.made + b.made)
  }

  function Opened(o: Opening): Effect {
    match o
    case NoContext => Effect([], [], [])
    case InError(d) => Effect([], [d], [d])
    case Refused(d) => Effect([], [], [d])
    case Good(d) => Effect([d], [], [d])
  }

  function OpenedAll(openings: seq<Opening>): Effect {
    if openings == [] then Effect([], [], [])
    else
      var n := |openings| - 1;
      Join(OpenedAll(openings[..n]), Opened(openings[n]))
  }

  /** One iteration of the check for the context c. */
  function One(c: Context, v: Visit): Effect {
    if v.Threw? then Join(Effect([], [c], []), Opened(v.opening)) else Effect([c], [], [])
  }

  /** The effect of visiting the contexts of q in order. */
  function Pass(q: seq<Context>, visits: seq<Visit>): Effect
    requires |visits| == |q|
  {
    if q == [] then Effect([], [], [])
    else
      var n := |q| - 1;
      Join(Pass(q[..n], visits[..n]), One(q[n], visits[n]))
  }

  lemma PassStep(q: seq<Context>, visits: seq<Visit>, k: nat)
    requires k < |q| == |visits|
    ensures Pass(q[..k + 1], visits[..k + 1]) == Join(Pass(q[..k], visits[..k]), One(q[k], visits[k]))
  {
    assert q[..k + 1][..k] == q[..k] && visits[..k + 1][..k] == visits[..k];
  }

  /** The visit leaves a context in the queue. */
  predicate Survives(v: Visit) {
    v.Threw? ==> v.opening.Good?
  }

  function Survivors(visits: seq<Visit>): nat {
    if visits == [] then 0
    else
      var n := |visits| - 1;
      Survivors(visits[..n]) + if Survives(visits[n]) then 1 else 0
  }

  lemma OneOutcome(c: Context, v: Visit)
    ensures One(c, v).kept ==
      if !Survives(v) then [] else if v.Threw? then [v.opening.ctx] else [c]
    ensures if v.Threw? then c in One(c, v).freed else One(c, v) == Effect([c], [], [])
  {
  }

  lemma LastVisit(q: seq<Context>, visits: seq<Visit>)
    requires 0 < |q| == |visits|
    ensures var n := |q| - 1;
      && Pass(q, visits).kept == Pass(q[..n], visits[..n]).kept + One(q[n], visits[n]).kept
      && Pass(q, visits).freed == Pass(q[..n], visits[..n]).freed + One(q[n], visits[n]).freed
      && Survivors(visits) == Survivors(visits[..n]) + |One(q[n], visits[n]).kept|
      && |One(q[n], visits[n]).kept| <= 1
      && (Survives(visits[n]) ==>
            One(q[n], visits[n]).kept == [if visits[n].Threw? then visits[n].opening.ctx else q[n]])
      && (visits[n].Threw? ==> q[n] in One(q[n], visits[n]).freed)
  {
    OneOutcome(q[|q| - 1], visits[|q| - 1]);
  }

  /** What each context comes to, whatever the other visits did. If nothing threw for it, it
      is behind the survivors of the earlier visits, with a reply to its PING or without;
      else it is freed, and a good new context takes that place. */
  lemma {:induction false} ReplacesOnlyOnThrow(q: seq<Context>, visits: seq<Visit>, k: nat)
    requires k < |q| == |visits|
    ensures var kept, place := Pass(q, visits).kept, Survivors(visits[..k]);
      && place <= k && |kept| == Survivors(visits) <= |q|
      && (Survives(visits[k]) ==>
            place < |kept| && kept[place] == if visits[k].Threw? then visits[k].opening.ctx else q[k])
    ensures visits[k].Threw? ==> q[k] in Pass(q, visits).freed
    decreases |q|
  {
    hide One, Survives, Pass, Survivors;
    var n := |q| - 1;
    LastVisit(q, visits);
    if k < n {
      ReplacesOnlyOnThrow(q[..n], visits[..n], k);
      assert visits[..n][..k] == visits[..k];
    } else {
      SurvivorsCount(q[..n], visits[..n]);
    }
  }

  lemma {:induction false} SurvivorsCount(q: seq<Context>, visits: seq<Visit>)
    requires |visits| == |q|
    ensures |Pass(q, visits).kept| == Survivors(visits) <= |q|
    decreases |q|
  {
    hide One, Survives;
    if q != [] {
      var n := |q| - 1;
      SurvivorsCount(q[..n], visits[..n]);
      OneOutcome(q[n], visits[n]);
    }
  }

  /** A pass frees something exactly if something threw, and otherwise replaces nothing. */
  lemma {:induction false} FreesOnlyOnThrow(q: seq<Context>, visits: seq<Visit>)
    requires |visits| == |q|
    ensures Pass(q, visits).freed == [] <==> forall v :: v in visits ==> !v.Threw?
    ensures Pass(q, visits).freed == [] ==> Pass(q, visits) == Effect(q, [], [])
    decreases |q|
  {
    hide One, Survives;
    if q != [] {
      var n := |q| - 1;
      FreesOnlyOnThrow(q[..n], visits[..n]);
      OneOutcome(q[n], visits[n]);
      assert visits == visits[..n] + [visits[n]] && q == q[..n] + [q[n]];
    }
  }

  // ----- where the contexts are -----

  /** The pool: its queue, the arguments of redisFree and the results of redisConnect. */
  datatype Pool = Pool(queue: seq<Context>, freed: seq<Context>, made: seq<Context>)

  function Apply(p: Pool, e: Effect): Pool {
    Pool(p.queue + e.kept, p.freed + e.freed, p.made + e.made)
  }

  lemma ApplyJoins(p: Pool, a: Effect, b: Effect)
    ensures Apply(Apply(p, a), b) == Apply(p, Join(a, b))
  {
    Reassociate(p.queue, a.kept, b.kept);
    Reassociate(p.freed, a.freed, b.freed);
    Reassociate(p.made, a.made, b.made);
  }

  /** From a to b every context of the queue and every new one went to the queue, was freed,
      or is in lost, once. */
  ghost predicate Balanced(a: Pool, b: Pool, lost: seq<Context>) {
    multiset(a.queue) + multiset(a.freed) + multiset(b.made)
    == multiset(b.queue) + multiset(b.freed) + multiset(a.made) + multiset(lost)
  }

  lemma BalanceChains(a: Pool, b: Pool, c: Pool, x: seq<Context>, y: seq<Context>)
    requires Balanced(a, b, x) && Balanced(b, c, y)
    ensures Balanced(a, c, x + y)
  {
    var before := multiset(a.queue) + multiset(a.freed) + multiset(c.made);
    var after := multiset(c.queue) + multiset(c.freed) + multiset(a.made) + multiset(x + y);
    forall d: Context ensures before[d] == after[d] {
      var p := multiset(a.queue) + multiset(a.freed) + multiset(b.made);
      var q := multiset(b.queue) + multiset(b.freed) + multiset(c.made);
      assert p[d] + q[d] == before[d] + multiset(b.queue)[d] + multiset(b.freed)[d] + multiset(b.made)[d];
    }
  }

  lemma OpeningBalances(p: Pool, o: Opening)
    ensures Balanced(p, Apply(p, Opened(o)), RefusedIn([o]))
  {
    hide RefusedIn;
    RefusedInOne(o);
    var e := Opened(o);
    SumOfParts(p.queue, e.kept);
    SumOfParts(p.freed, e.freed);
    SumOfParts(p.made, e.made);
  }

  lemma SumOfParts(a: seq<Context>, b: seq<Context>)
    ensures multiset(a + b) == multiset(a) + multiset(b)
  {
  }

  lemma RefusedInOne(o: Opening)
    ensures RefusedIn([o]) == if o.Refused? then [o.ctx] else []
    ensures RefusedIn([]) == []
  {
  }

  /** The front is moved to the back, or freed. */
  lemma PopBalances(p: Pool, e: Effect)
    requires p.queue != []
    requires e == Effect([], p.queue[..1], []) || e == Effect(p.queue[..1], [], [])
    ensures Balanced(p, Apply(p.(queue := p.queue[1..]), e), [])
  {
    assert p.queue == p.queue[..1] + p.queue[1..];
    SumOfParts(p.queue[..1], p.queue[1..]);
    SumOfParts(p.queue[1..], e.kept);
    SumOfParts(p.freed, e.freed);
    SumOfParts(p.made, []);
  }

  lemma VisitBalances(p: Pool, v: Visit)
    requires p.queue != []
    ensures Balanced(p, Apply(p.(queue := p.queue[1..]), One(p.queue[0], v)), RefusedIn(Attempts([v])))
  {
    hide RefusedIn, Opened, Balanced, Apply;
    RefusedInOne(NoContext);
    AttemptsOfOne(v);
    var popped, front := p.(queue := p.queue[1..]), p.queue[..1];
    assert front == [p.queue[0]];
    var e := if v.Threw? then Effect([], front, []) else Effect(front, [], []);
    PopBalances(p, e);
    if v.Threw? {
      OpeningBalances(Apply(popped, e), v.opening);
      ApplyJoins(popped, e, Opened(v.opening));
      BalanceChains(p, Apply(popped, e), Apply(Apply(popped, e), Opened(v.opening)), [], RefusedIn([v.opening]));
      assert [] + RefusedIn([v.opening]) == RefusedIn([v.opening]);
    }
  }

  /** The new contexts that were refused at AUTH. */
  function RefusedIn(openings: seq<Opening>): seq<Context> {
    if openings == [] then []
    else
      var n := |openings| - 1;
      RefusedIn(openings[..n]) + if openings[n].Refused? then [openings[n].ctx] else []
  }

  /** What redisConnect gave in all openings, good, refused or in error. */
  function Contexts(openings: seq<Opening>): seq<Context> {
    if openings == [] then []
    else
      var n := |openings| - 1;
      Contexts(openings[..n]) + match openings[n]
                                case NoContext => []
                                case InError(d) => [d]
                                case Refused(d) => [d]
                                case Good(d) => [d]
  }

  /** None of them is missing from the account: an opening makes what redisConnect gives,
      queues the good contexts and frees those in error. */
  lemma {:induction false} OpeningsMakeAll(openings: seq<Opening>)
    ensures OpenedAll(openings).made == Contexts(openings)
    ensures forall d :: Good(d) in openings ==> d in OpenedAll(openings).kept
    ensures forall d :: InError(d) in openings ==> d in OpenedAll(openings).freed
  {
    if openings != [] {
      var n := |openings| - 1;
      OpeningsMakeAll(openings[..n]);
      assert openings == openings[..n] + [openings[n]];
    }
  }

  /** So does a pass. */
  lemma {:induction false} PassMakesAll(q: seq<Context>, visits: seq<Visit>)
    requires |visits| == |q|
    ensures Pass(q, visits).made == Contexts(Attempts(visits))
    decreases |q|
  {
    if q != [] {
      var n := |q| - 1;
      PassMakesAll(q[..n], visits[..n]);
      var before := Attempts(visits[..n]);
      if visits[n].Threw? {
        assert (before + [visits[n].opening])[..|before|] == before;
      } else {
        assert Attempts(visits) == before;
      }
    }
  }

  /** The openings that a pass attempts. */
  function Attempts(visits: seq<Visit>): seq<Opening> {
    if visits == [] then []
    else
      var n := |visits| - 1;
      Attempts(visits[..n]) + if visits[n].Threw? then [visits[n].opening] else []
  }

  lemma RefusedGrows(openings: seq<Opening>, more: seq<Opening>)
    requires |more| <= 1
    ensures RefusedIn(openings + more) == RefusedIn(openings) + RefusedIn(more)
  {
    if more == [] {
      assert openings + more == openings;
    } else {
      assert (openings + more)[..|openings|] == openings && more[..0] == [];
    }
  }

  lemma AttemptsStep(visits: seq<Visit>, k: nat)
    requires k < |visits|
    ensures Attempts(visits[..k + 1]) == Attempts(visits[..k]) + Attempts([visits[k]])
  {
    assert visits[..k + 1][..k] == visits[..k];
  }

  lemma {:induction false} SomeRefused(openings: seq<Opening>)
    ensures RefusedIn(openings) == [] <==> forall o :: o in openings ==> !o.Refused?
  {
    if openings != [] {
      var n := |openings| - 1;
      SomeRefused(openings[..n]);
      assert openings == openings[..n] + [openings[n]];
    }
  }

  /** Every context is queued or freed if and only if none was opened and then refused. */
  lemma LosesOnRefusal(a: Pool, b: Pool, openings: seq<Opening>)
    requires Balanced(a, b, RefusedIn(openings))
    ensures Balanced(a, b, []) <==> forall o :: o in openings ==> !o.Refused?
  {
    SomeRefused(openings);
    var after := multiset(b.queue) + multiset(b.freed) + multiset(a.made);
    assert |after + multiset(RefusedIn(openings))| == |after| + |RefusedIn(openings)|;
    assert after + multiset([]) == after;
  }

  // ----- the two loops -----

  ghost predicate HasOpened(start: Pool, now: Pool, openings: seq<Opening>) {
    now == Apply(start, OpenedAll(openings)) && Balanced(start, now, RefusedIn(openings))
  }

  lemma OpenedNone(start: Pool)
    ensures HasOpened(start, start, [])
  {
  }

  lemma OpenedOneMore(start: Pool, now: Pool, openings: seq<Opening>, k: nat)
    requires k < |openings| && HasOpened(start, now, openings[..k])
    ensures HasOpened(start, Apply(now, Opened(openings[k])), openings[..k + 1])
  {
    hide Balanced, RefusedIn, Opened;
    var was, o := openings[..k], [openings[k]];
    assert openings[..k + 1] == was + o && (was + o)[..k] == was;
    ApplyJoins(start, OpenedAll(was), Opened(openings[k]));
    OpeningBalances(now, openings[k]);
    RefusedGrows(was, o);
    BalanceChains(start, now, Apply(now, Opened(openings[k])), RefusedIn(was), RefusedIn(o));
  }

  /** The state after the first k visits of a pass over the queue of start. */
  ghost predicate HasVisited(start: Pool, now: Pool, visits: seq<Visit>, k: nat)
    requires k <= |start.queue| == |visits|
  {
    && now == Apply(start.(queue := start.queue[k..]), Pass(start.queue[..k], visits[..k]))
    && Balanced(start, now, RefusedIn(Attempts(visits[..k])))
  }

  lemma VisitedNone(start: Pool, visits: seq<Visit>)
    requires |start.queue| == |visits|
    ensures HasVisited(start, start, visits, 0)
  {
    assert start.queue[0..] == start.queue;
  }

  lemma PassShrinks(start: Pool, now: Pool, visits: seq<Visit>, k: nat)
    requires k <= |start.queue| == |visits| && HasVisited(start, now, visits, k)
    ensures |now.queue| <= |start.queue|
  {
    hide Balanced;
    SurvivorsCount(start.queue[..k], visits[..k]);
  }

  lemma VisitedOneMore(start: Pool, now: Pool, visits: seq<Visit>, k: nat)
    requires k < |start.queue| == |visits| && HasVisited(start, now, visits, k)
    ensures now.queue != [] && now.queue[0] == start.queue[k]
    ensures HasVisited(start, Apply(now.(queue := now.queue[1..]), One(start.queue[k], visits[k])), visits, k + 1)
  {
    hide Balanced, RefusedIn, Attempts, One;
    var all, e, v := start.queue, Pass(start.queue[..k], visits[..k]), visits[k];
    FrontOf(all, k, e.kept);
    PassStep(all, visits, k);
    var popped := start.(queue := all[k + 1..]);
    assert now.(queue := now.queue[1..]) == Apply(popped, e);
    ApplyJoins(popped, e, One(all[k], v));
    VisitBalances(now, v);
    AttemptsStep(visits, k);
    AttemptsOfOne(v);
    RefusedGrows(Attempts(visits[..k]), Attempts([v]));
    BalanceChains(start, now, Apply(Apply(popped, e), One(all[k], v)),
      RefusedIn(Attempts(visits[..k])), RefusedIn(Attempts([v])));
  }

  lemma FrontOf(all: seq<Context>, k: nat, kept: seq<Context>)
    requires k < |all|
    ensures var q := all[k..] + kept; q != [] && q[0] == all[k] && q[1..] == all[k + 1..] + kept
  {
  }

  lemma AttemptsOfOne(v: Visit)
    ensures Attempts([v]) == if v.Threw? then [v.opening] else []
  {
  }

  // ----- the code -----

  class RedisConPool {
    var connections: seq<Context>
    var freed: seq<Context>
    var made: seq<Context>

    function State(): Pool
      reads this
    {
      Pool(connections, freed, made)
    }

    /** The constructor's loop, openings[i] being what its i-th redisConnect and AUTH give.
        Of the contexts made, exactly the refused ones end neither queued nor freed. */
    constructor (openings: seq<Opening>)
      ensures State() == Apply(Pool([], [], []), OpenedAll(openings))
      ensures Balanced(Pool([], [], []), State(), RefusedIn(openings))
      ensures Balanced(Pool([], [], []), State(), []) <==> forall o :: o in openings ==> !o.Refused?
    {
      hide Balanced, RefusedIn, Opened;
      connections, freed, made := [], [], [];
      new;
      ghost var start := State();
      OpenedNone(start);
      for i := 0 to |openings|
        invariant HasOpened(start, State(), openings[..i])
      {
        OpenedOneMore(start, State(), openings, i);
        Open(openings[i]);
      }
      assert openings[..|openings|] == openings;
      LosesOnRefusal(start, State(), openings);
    }

    /** Connects and authenticates. A context that is refused is neither enqueued nor freed. */
    method Open(o: Opening)
      modifies this
      ensures State() == Apply(old(State()), Opened(o))
    {
      if o.NoContext? {
        return;
      }
      made := made + [o.ctx];
      if o.InError? {
        freed := freed + [o.ctx];
      } else if o.Good? {
        connections := connections + [o.ctx];
      }
    }

    /** The body of the check's loop, for the front of the queue. */
    method Check(v: Visit)
      requires connections != []
      modifies this
      ensures State() == Apply(old(Pool(connections[1..], freed, made)), One(old(connections)[0], v))
    {
      var context := connections[0];
      connections := connections[1..];
      if v.Threw? {
        freed := freed + [context];
        Open(v.opening);
      } else {
        // with a reply and without one
        connections := connections + [context];
      }
    }

    /** stops[i] is what the i-th test of b_stop_ in the loop reads; another thread sets the
        flag without the mutex. The queue is never popped when empty, and ends as the
        unvisited rest followed by what the visited part became. Of the contexts queued or
        made, exactly the new ones that were refused end neither queued nor freed. */
    method CheckThread(stopAtEntry: bool, stops: seq<bool>, visits: seq<Visit>) returns (visited: nat)
      requires |stops| == |visits| == |connections|
      modifies this
      ensures visited <= |old(connections)| && |connections| <= |old(connections)|
      ensures var was := old(State());
        State() == Apply(was.(queue := was.queue[visited..]), Pass(was.queue[..visited], visits[..visited]))
      ensures Balanced(old(State()), State(), RefusedIn(Attempts(visits[..visited])))
      ensures Balanced(old(State()), State(), []) <==>
        forall o :: o in Attempts(visits[..visited]) ==> !o.Refused?
      ensures stopAtEntry ==> visited == 0
      ensures !stopAtEntry ==>
        (forall k :: 0 <= k < visited ==> !stops[k]) && (visited < |stops| ==> stops[visited])
    {
      hide One, Balanced, RefusedIn, Attempts, Pass, Apply;
      visited := 0;
      var poolSize := |connections|;
      ghost var start := State();
      VisitedNone(start, visits);
      if stopAtEntry {
        LosesOnRefusal(start, State(), Attempts(visits[..visited]));
        return;
      }
      while visited < poolSize && !stops[visited]
        invariant visited <= poolSize && HasVisited(start, State(), visits, visited)
        invariant forall k :: 0 <= k < visited ==> !stops[k]
        decreases poolSize - visited
      {
        VisitedOneMore(start, State(), visits, visited);
        Check(visits[visited]);
        visited := visited + 1;
      }
      PassShrinks(start, State(), visits, visited);
      LosesOnRefusal(start, State(), Attempts(visits[..visited]));
    }
  }

  /** Such a loss: a context that is connected and refused while the pool is constructed is
      made, and neither queued nor freed. */
  method RefusedContextIsLost(d: Context) returns (pool: RedisConPool)
    ensures fresh(pool) && pool.State() == Pool([], [], [d])
  {
    pool := new RedisConPool([Refused(d)]);
    assert OpenedAll([Refused(d)]) == Join(OpenedAll([]), Opened(Refused(d)));
  }
}
