/** LogicSystem as a step machine: any number of posting sessions, one worker, one mutex
    and one condition variable (LogicSystem.cpp). */
module Logic {
  import Bytes
  import opened Wire

  /** A LogicNode: the session it came from and the message of its RecvNode. */
  datatype Node = Node(session: nat, msg: Frame)

  /** Awake: about to lock the mutex and test the wait predicate. Deciding: tested it, found
      it false, still holds the mutex. Asleep: blocked in consume_. Exited: left DealMsg. */
  datatype Worker = Awake | Deciding | Asleep | Exited

  /** notifying: sessions whose post saw size 1 and that have unlocked but not yet notified.
      stopNotice: the destructor has set b_stop_ and not yet notified.
      posted, taken and handled record the history: all posts, all nodes popped by the
      worker, all calls of a handler. */
  datatype State = State(queue: seq<Node>, worker: Worker, notifying: set<nat>,
                         stop: bool, stopNotice: bool,
                         posted: seq<Node>, taken: seq<Node>, handled: seq<Node>)

  const START := State([], Awake, {}, false, false, [], [], [])

  datatype Event =
    | Post(node: Node)      // PostMsgToQue, up to the end of its locked section
    | Notify(session: nat)  // its notify_one, after the unlock
    | Round                 // the worker locks, tests the predicate, and serves what it may
    | Sleep                 // wait() blocks and releases the mutex in one step
    | Spurious              // wait() wakes by itself
    | SetStop               // the destructor's assignment, made without the mutex
    | StopNotify            // the destructor's notify_one

  predicate MutexFree(s: State) {
    !s.worker.Deciding?
  }

  predicate Enabled(s: State, e: Event) {
    match e
    case Post(node) => MutexFree(s) && node.session !in s.notifying
    case Notify(session) => session in s.notifying
    case Round => s.worker.Awake?
    case Sleep => s.worker.Deciding?
    case Spurious => s.worker.Asleep?
    case SetStop => !s.stop
    case StopNotify => s.stopNotice
  }

  /** The nodes whose id has a registered handler. */
  function Filter(nodes: seq<Node>, table: set<Short>): seq<Node> {
    if nodes == [] then []
    else
      var init := Filter(nodes[..|nodes| - 1], table);
      var last := nodes[|nodes| - 1];
      if last.msg.id in table then init + [last] else init
  }

  lemma {:induction false} FilterCounts(nodes: seq<Node>, table: set<Short>, x: Node)
    ensures multiset(Filter(nodes, table))[x] == if x.msg.id in table then multiset(nodes)[x] else 0
    decreases |nodes|
  {
    if nodes != [] {
      var n := |nodes| - 1;
      FilterCounts(nodes[..n], table, x);
      assert nodes == nodes[..n] + [nodes[n]];
    }
  }

  /** handled lists elements of nodes, in the order that they have there. */
  ghost predicate InOrder(handled: seq<Node>, nodes: seq<Node>) {
    exists at: seq<nat> :: Places(at, handled, nodes)
  }

  /** at[k] is where handled[k] is in nodes. */
  ghost predicate Places(at: seq<nat>, handled: seq<Node>, nodes: seq<Node>) {
    && |at| == |handled|
    && (forall k :: 0 <= k < |at| ==> at[k] < |nodes| && nodes[at[k]] == handled[k])
    && (forall j, k :: 0 <= j < k < |at| ==> at[j] < at[k])
  }

  /** Of nodes, those with a registered id were handled, each as often as it occurs and in
      the order of nodes, and no others. */
  ghost predicate ServedExactly(handled: seq<Node>, nodes: seq<Node>, table: set<Short>) {
    && (forall x: Node :: multiset(handled)[x] == if x.msg.id in table then multiset(nodes)[x] else 0)
    && (forall x :: x in handled ==> x.msg.id in table)
    && InOrder(handled, nodes)
  }

  lemma PlacesGrow(at: seq<nat>, handled: seq<Node>, nodes: seq<Node>, x: Node)
    requires Places(at, handled, nodes)
    ensures Places(at, handled, nodes + [x])
    ensures Places(at + [|nodes|], handled + [x], nodes + [x])
  {
  }

  lemma {:induction false} FilterPlaces(nodes: seq<Node>, table: set<Short>) returns (at: seq<nat>)
    ensures Places(at, Filter(nodes, table), nodes)
    decreases |nodes|
  {
    hide Places;
    if nodes == [] {
      at := NothingPlaced(nodes);
    } else {
      var n := |nodes| - 1;
      at := FilterPlaces(nodes[..n], table);
      PlacesGrow(at, Filter(nodes[..n], table), nodes[..n], nodes[n]);
      assert nodes == nodes[..n] + [nodes[n]];
      if nodes[n].msg.id in table {
        at := at + [n];
      }
    }
  }

  lemma NothingPlaced(nodes: seq<Node>) returns (at: seq<nat>)
    ensures Places(at, [], nodes)
  {
    at := [];
  }

  lemma FilterServesExactly(nodes: seq<Node>, table: set<Short>)
    ensures ServedExactly(Filter(nodes, table), nodes, table)
  {
    forall x: Node
      ensures multiset(Filter(nodes, table))[x] == if x.msg.id in table then multiset(nodes)[x] else 0
    {
      FilterCounts(nodes, table, x);
    }
    forall x | x in Filter(nodes, table) ensures x.msg.id in table {
      assert multiset(Filter(nodes, table))[x] > 0;
    }
    var at := FilterPlaces(nodes, table);
  }

  /** One notify_one on consume_, which only the worker ever waits on. */
  function Wake(w: Worker): Worker {
    if w.Asleep? then Awake else w
  }

  function Step(s: State, e: Event, table: set<Short>): State
    requires Enabled(s, e)
  {
    match e
    case Post(node) =>
      s.(queue := s.queue + [node], posted := s.posted + [node],
         notifying := if s.queue == [] then s.notifying + {node.session} else s.notifying)
    case Notify(session) =>
      s.(notifying := s.notifying - {session}, worker := Wake(s.worker))
    case Round =>
      if s.stop then
        s.(queue := [], taken := s.taken + s.queue, worker := Exited,
           handled := s.handled + Filter(s.queue, table))
      else if s.queue != [] then
        s.(queue := s.queue[1..], taken := s.taken + s.queue[..1],
           handled := s.handled + Filter(s.queue[..1], table))
      else s.(worker := Deciding)
    case Sleep => s.(worker := Asleep)
    case Spurious => s.(worker := Awake)
    case SetStop => s.(stop := true, stopNotice := true)
    case StopNotify => s.(stopNotice := false, worker := Wake(s.worker))
  }

  ghost predicate Valid(s: State, table: set<Short>) {
    // the global order of posts is the order of service
    && s.posted == s.taken + s.queue
    // each taken node with a handler was handled once, the others were skipped
    && s.handled == Filter(s.taken, table)
    // no lost wakeup, although only the post that fills an empty queue notifies
    && (s.worker.Asleep? && s.queue != [] ==> s.notifying != {})
    && (s.worker.Deciding? ==> s.queue == [])
    && (s.stopNotice ==> s.stop)
    && (s.worker.Exited? ==> s.stop)
  }

  lemma {:induction false} FilterAppend(a: seq<Node>, b: seq<Node>, table: set<Short>)
    ensures Filter(a + b, table) == Filter(a, table) + Filter(b, table)
    decreases |b|
  {
    if b == [] {
      assert a + b == a;
    } else {
      var init := b[..|b| - 1];
      assert (a + b)[..|a + b| - 1] == a + init;
      FilterAppend(a, init, table);
    }
  }

  lemma StepKeepsValid(s: State, e: Event, table: set<Short>)
    requires Valid(s, table) && Enabled(s, e)
    ensures var s' := Step(s, e, table);
      && Valid(s', table) && s.posted <= s'.posted && s.taken <= s'.taken
      && ServedExactly(s'.handled, s'.taken, table)
      // on seeing stop the worker leaves nothing behind
      && (!s.worker.Exited? && s'.worker.Exited? ==> s'.queue == [] && s'.taken == s.posted)
  {
    hide Step, Filter, ServedExactly;
    FilterServesExactly(Step(s, e, table).taken, table);
    match e
    case Post(node) => PostKeepsValid(s, node, table);
    case Round => RoundKeepsValid(s, table);
    case _ => OtherKeepsValid(s, e, table);
  }

  lemma PostKeepsValid(s: State, node: Node, table: set<Short>)
    requires Valid(s, table) && Enabled(s, Post(node))
    ensures var s' := Step(s, Post(node), table);
      Valid(s', table) && s.posted <= s'.posted && s.taken == s'.taken && s.worker == s'.worker
  {
    hide Filter;
    if s.queue == [] { assert node.session in Step(s, Post(node), table).notifying; }
  }

  lemma RoundKeepsValid(s: State, table: set<Short>)
    requires Valid(s, table) && Enabled(s, Round)
    ensures var s' := Step(s, Round, table);
      && Valid(s', table) && s.posted == s'.posted && s.taken <= s'.taken
      && (s'.worker.Exited? ==> s'.queue == [] && s'.taken == s.posted)
  {
    hide Filter;
    FilterAppend(s.taken, s.queue, table);
    if s.queue != [] {
      FilterAppend(s.taken, s.queue[..1], table);
      assert s.queue == s.queue[..1] + s.queue[1..];
    }
  }

  lemma OtherKeepsValid(s: State, e: Event, table: set<Short>)
    requires Valid(s, table) && Enabled(s, e) && !e.Post? && !e.Round?
    ensures var s' := Step(s, e, table);
      && Valid(s', table) && s.posted == s'.posted && s.taken == s'.taken
      && (s'.worker.Exited? ==> s.worker.Exited?)
  {
    hide Filter;
  }

  // ----- runs -----

  predicate Allowed(s: State, es: seq<Event>, table: set<Short>)
    decreases |es|
  {
    es == [] || (Enabled(s, es[0]) && Allowed(Step(s, es[0], table), es[1..], table))
  }

  function Run(s: State, es: seq<Event>, table: set<Short>): State
    requires Allowed(s, es, table)
    decreases |es|
  {
    if es == [] then s else Run(Step(s, es[0], table), es[1..], table)
  }

  lemma {:induction false} RunKeepsValid(s: State, es: seq<Event>, table: set<Short>)
    requires Valid(s, table) && Allowed(s, es, table)
    ensures Valid(Run(s, es, table), table)
    decreases |es|
  {
    if es != [] {
      StepKeepsValid(s, es[0], table);
      RunKeepsValid(Step(s, es[0], table), es[1..], table);
    }
  }

  /** The nodes of the posts in es. */
  function Posts(es: seq<Event>): seq<Node> {
    if es == [] then [] else (if es[0].Post? then [es[0].node] else []) + Posts(es[1..])
  }

  lemma {:induction false} PostedGrows(s: State, es: seq<Event>, table: set<Short>)
    requires Allowed(s, es, table)
    ensures Run(s, es, table).posted == s.posted + Posts(es)
    decreases |es|
  {
    if es != [] {
      PostedGrows(Step(s, es[0], table), es[1..], table);
      if es[0].Post? { Bytes.Reassociate(s.posted, [es[0].node], Posts(es[1..])); }
    }
  }

  /** In every run the worker takes the nodes that were posted, in the order of the posts,
      and of those it has taken handles exactly the ones with a registered id. */
  lemma ServesInOrder(es: seq<Event>, table: set<Short>)
    requires Allowed(START, es, table)
    ensures var s := Run(START, es, table);
      s.taken + s.queue == Posts(es) && ServedExactly(s.handled, s.taken, table)
  {
    RunKeepsValid(START, es, table);
    PostedGrows(START, es, table);
    FilterServesExactly(Run(START, es, table).taken, table);
  }

  function Notifies(es: seq<Event>): nat {
    if es == [] then 0 else (if es[0].Notify? then 1 else 0) + Notifies(es[1..])
  }

  /** The posts of es that find the queue empty. */
  function FirstPosts(s: State, es: seq<Event>, table: set<Short>): nat
    requires Allowed(s, es, table)
    decreases |es|
  {
    if es == [] then 0
    else
      (if es[0].Post? && s.queue == [] then 1 else 0) + FirstPosts(Step(s, es[0], table), es[1..], table)
  }

  /** Every post that finds the queue empty makes one notify due, and no other post does. */
  lemma {:induction false} OneNotifyPerFirstPost(s: State, es: seq<Event>, table: set<Short>)
    requires Allowed(s, es, table)
    ensures Notifies(es) + |Run(s, es, table).notifying| == |s.notifying| + FirstPosts(s, es, table)
    decreases |es|
  {
    if es != [] {
      NotifyingChanges(s, es[0], table);
      OneNotifyPerFirstPost(Step(s, es[0], table), es[1..], table);
    }
  }

  lemma NotifyingChanges(s: State, e: Event, table: set<Short>)
    requires Enabled(s, e)
    ensures |Step(s, e, table).notifying| + (if e.Notify? then 1 else 0)
      == |s.notifying| + if e.Post? && s.queue == [] then 1 else 0
  {
  }

  /** A worker that has left its loop never takes or handles another node. */
  lemma {:induction false} ExitedIsFinal(s: State, es: seq<Event>, table: set<Short>)
    requires s.worker.Exited? && Allowed(s, es, table)
    ensures var s' := Run(s, es, table);
      s'.worker.Exited? && s'.taken == s.taken && s'.handled == s.handled
    ensures Round !in es && Sleep !in es
    decreases |es|
  {
    if es != [] {
      ExitedIsFinal(Step(s, es[0], table), es[1..], table);
      assert es == [es[0]] + es[1..];
    }
  }

  /** No reachable state has a queued message, a sleeping worker and nobody about to notify. */
  lemma NoLostWakeup(es: seq<Event>, table: set<Short>)
    requires Allowed(START, es, table)
    ensures var s := Run(START, es, table);
      s.queue != [] && s.worker.Asleep? ==>
        exists p :: p in s.notifying && Step(s, Notify(p), table).worker.Awake?
  {
    RunKeepsValid(START, es, table);
    var s := Run(START, es, table);
    if s.queue != [] && s.worker.Asleep? {
      var p :| p in s.notifying;
      assert Step(s, Notify(p), table).worker.Awake?;
    }
  }

  /** The shutdown has no such guarantee, since b_stop_ is set without the mutex: here the
      destructor has done all it does, and the worker sleeps on with no notify to come. */
  lemma ShutdownCanBeMissed(table: set<Short>)
    ensures var es := [Round, SetStop, StopNotify, Sleep];
      && Allowed(START, es, table)
      && var s := Run(START, es, table);
         s.stop && !s.stopNotice && s.worker.Asleep? && s.notifying == {} && s.queue == []
  {
  }

  // ----- the end of the worker -----

  /** The steps that happen by themselves when nobody posts: due notifies and the worker's. */
  predicate Own(e: Event) {
    e.Notify? || e.Round? || e.Sleep?
  }

  function Rank(w: Worker): nat {
    match w
    case Awake => 2
    case Deciding => 1
    case Asleep => 0
    case Exited => 0
  }

  /** An upper bound on the number of such steps. */
  function Remaining(s: State): nat {
    |s.queue| + 4 * |s.notifying| + Rank(s.worker)
  }

  lemma OwnStepShrinks(s: State, e: Event, table: set<Short>)
    requires Enabled(s, e) && Own(e)
    ensures Remaining(Step(s, e, table)) < Remaining(s)
  {
  }

  /** es is a run of such steps from s that cannot be continued. */
  ghost predicate Maximal(s: State, es: seq<Event>, table: set<Short>) {
    && (forall e :: e in es ==> Own(e))
    && Allowed(s, es, table)
    && forall e :: Own(e) ==> !Enabled(Run(s, es, table), e)
  }

  /** The destructor's join returns only once the worker has left its loop. */
  ghost predicate JoinReturns(s: State, table: set<Short>) {
    forall es :: Maximal(s, es, table) ==> Run(s, es, table).worker.Exited?
  }

  lemma {:induction false} OwnRunIsBounded(s: State, es: seq<Event>, table: set<Short>)
    requires Allowed(s, es, table) && forall e :: e in es ==> Own(e)
    ensures |es| <= Remaining(s)
    decreases |es|
  {
    if es != [] {
      OwnStepShrinks(s, es[0], table);
      OwnRunIsBounded(Step(s, es[0], table), es[1..], table);
    }
  }

  lemma {:induction false} MaximalRunExists(s: State, table: set<Short>) returns (es: seq<Event>)
    ensures Maximal(s, es, table)
    decreases Remaining(s)
  {
    es := [];
    if e :| Own(e) && Enabled(s, e) {
      OwnStepShrinks(s, e, table);
      var rest := MaximalRunExists(Step(s, e, table), table);
      es := [e] + rest;
      assert es[1..] == rest;
    }
  }

  lemma {:induction false} AwakeWorkerExits(s: State, es: seq<Event>, table: set<Short>)
    requires s.stop && (s.worker.Awake? || s.worker.Exited?) && Maximal(s, es, table)
    ensures Run(s, es, table).worker.Exited?
    decreases |es|
  {
    if es == [] {
      assert Own(Round) && Run(s, es, table) == s;
    } else {
      var s' := Step(s, es[0], table);
      assert Maximal(s', es[1..], table);
      AwakeWorkerExits(s', es[1..], table);
    }
  }

  /** All due notifies are spent on a worker that is not asleep yet; then it falls asleep. */
  lemma {:induction false} DecidedWorkerSleeps(s: State, table: set<Short>) returns (es: seq<Event>)
    requires s.worker.Deciding?
    ensures Maximal(s, es, table) && Run(s, es, table).worker.Asleep?
    decreases |s.notifying|
  {
    if s.notifying == {} {
      es := [Sleep];
      assert Run(s, es, table) == Step(s, Sleep, table);
    } else {
      var p :| p in s.notifying;
      var rest := DecidedWorkerSleeps(Step(s, Notify(p), table), table);
      es := [Notify(p)] + rest;
      assert es[1..] == rest;
    }
  }

  /** What still ends a worker that missed the destructor's notify: wait() waking by itself. */
  lemma SpuriousWakeupRescues(s: State, table: set<Short>)
    requires s.stop && s.worker.Asleep?
    ensures Enabled(s, Spurious) && JoinReturns(Step(s, Spurious, table), table)
  {
    var s' := Step(s, Spurious, table);
    forall es | Maximal(s', es, table) ensures Run(s', es, table).worker.Exited? {
      AwakeWorkerExits(s', es, table);
    }
  }

  /** When the destructor notifies, in any reachable state: its join returns, however the
      remaining steps are scheduled, exactly if the worker is not between its test of the
      predicate and its sleep. */
  lemma ShutdownIsSeen(past: seq<Event>, table: set<Short>)
    requires Allowed(START, past, table) && Enabled(Run(START, past, table), StopNotify)
    ensures var s := Run(START, past, table);
      JoinReturns(Step(s, StopNotify, table), table) <==> !s.worker.Deciding?
  {
    RunKeepsValid(START, past, table);
    var s := Run(START, past, table);
    var s' := Step(s, StopNotify, table);
    if s.worker.Deciding? {
      var es := DecidedWorkerSleeps(s', table);
    } else {
      forall es | Maximal(s', es, table) ensures Run(s', es, table).worker.Exited? {
        AwakeWorkerExits(s', es, table);
      }
    }
  }
}
