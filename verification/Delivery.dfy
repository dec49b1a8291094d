/** Progress of the message path: as long as nothing fails, its own steps cannot go on for
    ever, and they do not come to an end before every readable message was taken. */
module Delivery {
  import Bytes
  import opened Wire
  import Sender
  import Reader
  import Logic
  import opened Pipeline

  /** The steps the path makes by itself: bytes move, handlers run, the worker works. */
  predicate Internal(ev: Event) {
    match ev
    case Tx(_, e) => e.Write? || e.Written?
    case Read(_, _) => true
    case ReadError(_) => false
    case Work(e) => Logic.Own(e)
  }

  ghost predicate Stuck(p: State) {
    forall ev: Event :: Internal(ev) ==> !Enabled(p, ev)
  }

  predicate ConnHealthy(c: Conn) {
    !c.sender.closed && !c.sender.phase.Broken? && !c.reader.failed
  }

  /** No transport error so far, and no shutdown. */
  predicate Healthy(p: State) {
    !p.logic.stop && forall i :: 0 <= i < |p.conns| ==> ConnHealthy(p.conns[i])
  }

  // ----- no step left means delivered -----

  lemma StuckSender(p: State, i: nat, table: set<Short>)
    requires Valid(p, table) && Healthy(p) && Stuck(p) && i < |p.conns|
    ensures p.conns[i].sender.wire == EncodeAll(p.conns[i].sender.accepted)
  {
    var s := p.conns[i].sender;
    assert ConnHealthy(p.conns[i]);
    assert !Enabled(p, Tx(i, Sender.Write(1))) && !Enabled(p, Tx(i, Sender.Written));
    Sender.WireIsPrefixOfAccepted(s);
  }

  lemma StuckWorker(p: State, table: set<Short>)
    requires Valid(p, table) && Healthy(p) && Stuck(p)
    ensures p.logic.worker.Asleep? && p.logic.notifying == {} && p.logic.queue == []
  {
    assert !Enabled(p, Work(Logic.Round)) && !Enabled(p, Work(Logic.Sleep));
    if p.logic.notifying != {} {
      var s :| s in p.logic.notifying;
      assert Enabled(p, Work(Logic.Notify(s)));
    }
  }

  lemma StuckReader(p: State, i: nat, table: set<Short>)
    requires Valid(p, table) && Healthy(p) && Stuck(p) && i < |p.conns|
    ensures var c := p.conns[i];
      c.reader.phase.Refused? || (c.consumed == |c.sender.wire| && Reader.Need(c.reader.phase) > 0)
  {
    StuckWorker(p, table);
    var c := p.conns[i];
    assert ConnHealthy(c);
    if !c.reader.phase.Refused? {
      assert !Enabled(p, Read(i, 0)) && !Enabled(p, Read(i, 1));
    }
  }

  /** Nothing short of a whole frame, or of a refused head, is left over. */
  lemma PendingDecides(r: Reader.State, rest: seq<Frame>)
    requires Reader.Valid(r) && (!r.phase.Refused? ==> Reader.Need(r.phase) > 0)
    requires Reader.Pending(r) <= EncodeAll(rest)
    requires !r.phase.Refused? ==> Reader.Pending(r) == EncodeAll(rest)
    ensures Deliverable(rest) == []
  {
    if rest != [] {
      var f := rest[0];
      var b := Encode(f) + EncodeAll(rest[1..]);
      EncodeParts(f, EncodeAll(rest[1..]));
      assert EncodeAll(rest) == b;
      hide Encode, EncodeAll;
      if r.phase.Refused? {
        assert b[..HEAD_TOTAL_LEN] == r.got;
      } else if r.phase.AtBody? {
        assert b[..HEAD_TOTAL_LEN] == Head(r.phase.id, r.phase.len);
        HeadRoundTrip(r.phase.id, r.phase.len);
        assert false;
      }
    }
  }

  lemma {:induction false} DeliverableAppend(a: seq<Frame>, b: seq<Frame>)
    requires Deliverable(a) == a
    ensures Deliverable(a + b) == a + Deliverable(b)
  {
    hide Deliverable;
    if a == [] {
      assert a + b == b && a + Deliverable(b) == Deliverable(b);
    } else {
      var f, tail := a[0], a[1..];
      assert a == [f] + tail;
      DeliverableCons(f, tail);
      DeliverableAppend(tail, b);
      DeliverableCons(f, tail + b);
      Bytes.Reassociate([f], tail, b);
      Bytes.Reassociate([f], tail, Deliverable(b));
    }
  }

  lemma StuckConn(p: State, i: nat, table: set<Short>)
    requires Valid(p, table) && Healthy(p) && Stuck(p) && i < |p.conns|
    ensures p.conns[i].reader.posted == Deliverable(p.conns[i].sender.accepted)
  {
    var c := p.conns[i];
    var posted, accepted := c.reader.posted, c.sender.accepted;
    StuckSender(p, i, table);
    StuckReader(p, i, table);
    PostedIsPrefix(c);
    DeliverableIsLongest(posted, posted);
    var rest := accepted[|posted|..];
    assert accepted == posted + rest;
    EncodeAllAppend(posted, rest);
    var pending := Reader.Pending(c.reader);
    if !c.reader.phase.Refused? {
      assert EncodeAll(posted) + pending == EncodeAll(posted) + EncodeAll(rest);
      SameTail(EncodeAll(posted), pending, EncodeAll(rest));
    }
    PendingDecides(c.reader, rest);
    DeliverableAppend(posted, rest);
  }

  lemma SameTail(a: seq<Byte>, x: seq<Byte>, y: seq<Byte>)
    requires a + x == a + y
    ensures x == y
  {
    assert x == (a + x)[|a|..] && y == (a + y)[|a|..];
  }

  /** When the path can make no step, every session's messages up to its first over-large
      one were taken by the worker, and each was handled if its id has a handler. */
  lemma StuckMeansDelivered(p: State, table: set<Short>)
    requires Valid(p, table) && Healthy(p) && Stuck(p)
    ensures forall i :: 0 <= i < |p.conns| ==>
      Of(p.logic.taken, i) == Deliverable(p.conns[i].sender.accepted)
    ensures p.logic.taken == p.logic.posted
    ensures p.logic.handled == Logic.Filter(p.logic.posted, table)
    ensures Logic.ServedExactly(p.logic.handled, p.logic.posted, table)
  {
    StuckWorker(p, table);
    Logic.FilterServesExactly(p.logic.posted, table);
    assert p.logic.taken == p.logic.posted;
    forall i | 0 <= i < |p.conns|
      ensures Of(p.logic.taken, i) == Deliverable(p.conns[i].sender.accepted)
    {
      StuckConn(p, i, table);
    }
  }

  // ----- the path's own steps come to an end -----

  function Left(c: Conn): int {
    2 * |EncodeAll(c.sender.accepted)| - |c.sender.wire| - c.consumed + |c.sender.queue|
    + 6 * (|c.sender.accepted| - |c.reader.posted|)
  }

  function Total(cs: seq<Conn>): int {
    if cs == [] then 0 else Total(cs[..|cs| - 1]) + Left(cs[|cs| - 1])
  }

  /** An upper bound on the number of steps the path can make by itself. */
  function Remaining(p: State): int {
    Total(p.conns) + Logic.Remaining(p.logic)
  }

  lemma {:induction false} TotalUpdate(cs: seq<Conn>, i: nat, c: Conn)
    requires i < |cs|
    ensures Total(cs[i := c]) == Total(cs) - Left(cs[i]) + Left(c)
    decreases |cs|
  {
    var n := |cs| - 1;
    if i == n {
      assert cs[i := c][..n] == cs[..n];
    } else {
      assert cs[i := c][..n] == cs[..n][i := c];
      TotalUpdate(cs[..n], i, c);
    }
  }

  lemma {:induction false} TotalNonNegative(cs: seq<Conn>)
    requires forall i :: 0 <= i < |cs| ==> ConnValid(cs[i])
    ensures Total(cs) >= 0
    decreases |cs|
  {
    hide ConnValid, Left;
    if cs != [] {
      TotalNonNegative(cs[..|cs| - 1]);
      LeftNonNegative(cs[|cs| - 1]);
    }
  }

  lemma RemainingNonNegative(p: State, table: set<Short>)
    requires Valid(p, table)
    ensures Remaining(p) >= 0
  {
    TotalNonNegative(p.conns);
  }

  lemma LeftNonNegative(c: Conn)
    requires ConnValid(c)
    ensures Left(c) >= 0
  {
    PostedIsPrefix(c);
    Sender.WireIsPrefixOfAccepted(c.sender);
  }

  lemma TxLeft(c: Conn, e: Sender.Event)
    requires Sender.Enabled(c.sender, e) && (e.Write? || e.Written?)
    ensures Left(c.(sender := Sender.Step(c.sender, e))) < Left(c)
  {
  }

  lemma ReadLeft(c: Conn, n: nat)
    requires CanTake(c, n)
    ensures Left(Take(c, n)) + (if Reader.Completes(c.reader, n) then 6 else 1) <= Left(c)
  {
    hide EncodeAll, Chunk;
  }

  lemma ReadShrinks(p: State, i: nat, n: nat, table: set<Short>)
    requires i < |p.conns| && ConnValid(p.conns[i]) && Enabled(p, Read(i, n))
    ensures Remaining(Step(p, Read(i, n), table)) < Remaining(p)
  {
    hide Left, ConnValid, Chunk, Reader.OnBytes;
    var c := p.conns[i];
    ReadLeft(c, n);
    TotalUpdate(p.conns, i, Take(c, n));
    if Reader.Completes(c.reader, n) {
      ReadKeepsConn(c, n);
      PostGrows(p.logic, Logic.Node(i, Last(Take(c, n).reader.posted)), table);
    }
    hide Logic.Step, Total;
  }

  lemma PostGrows(s: Logic.State, node: Logic.Node, table: set<Short>)
    requires Logic.Enabled(s, Logic.Post(node))
    ensures Logic.Remaining(Logic.Step(s, Logic.Post(node), table)) <= Logic.Remaining(s) + 5
  {
  }

  lemma InternalStepShrinks(p: State, ev: Event, table: set<Short>)
    requires Valid(p, table) && Enabled(p, ev) && Internal(ev)
    ensures Remaining(Step(p, ev, table)) < Remaining(p)
  {
    match ev
    case Tx(i, e) =>
      hide Left, Total, Sender.Step, Valid;
      TxLeft(p.conns[i], e);
      TotalUpdate(p.conns, i, p.conns[i].(sender := Sender.Step(p.conns[i].sender, e)));
    case Read(i, n) =>
      assert ConnValid(p.conns[i]);
      hide Remaining, Valid;
      ReadShrinks(p, i, n, table);
    case Work(e) =>
      hide Valid, Logic.Step, Logic.Remaining;
      Logic.OwnStepShrinks(p.logic, e, table);
  }

  predicate SameAccepted(p: State, q: State) {
    && |p.conns| == |q.conns|
    && forall i :: 0 <= i < |p.conns| ==> p.conns[i].sender.accepted == q.conns[i].sender.accepted
  }

  lemma InternalStepKeeps(p: State, ev: Event, table: set<Short>)
    requires Enabled(p, ev) && Internal(ev)
    ensures SameAccepted(p, Step(p, ev, table)) && (Healthy(p) ==> Healthy(Step(p, ev, table)))
  {
    if ev.Read? {
      ReadKeepsFlag(p.conns[ev.i].reader, Chunk(p.conns[ev.i], ev.n));
    }
    hide Reader.OnBytes, Chunk;
  }

  lemma ReadKeepsFlag(r: Reader.State, chunk: seq<Byte>)
    requires Reader.CanRead(r, |chunk|)
    ensures Reader.OnBytes(r, chunk).failed == r.failed
  {
  }

  lemma {:induction false} InternalRunIsBounded(p: State, es: seq<Event>, table: set<Short>)
    requires Valid(p, table) && Allowed(p, es, table) && forall ev :: ev in es ==> Internal(ev)
    ensures var q := Run(p, es, table);
      && Valid(q, table) && |es| <= Remaining(p) - Remaining(q)
      && SameAccepted(p, q) && (Healthy(p) ==> Healthy(q))
    decreases |es|
  {
    if es != [] {
      InternalStepShrinks(p, es[0], table);
      InternalStepKeeps(p, es[0], table);
      StepKeepsValid(p, es[0], table);
      hide Step, Enabled, Valid, Healthy, Remaining;
      InternalRunIsBounded(Step(p, es[0], table), es[1..], table);
    }
  }

  /** What the past did not break, the path's own steps complete: some run of them reaches
      a state without a further one. */
  lemma {:induction false} StuckIsReached(p: State, table: set<Short>) returns (es: seq<Event>)
    requires Valid(p, table)
    ensures Allowed(p, es, table) && (forall ev :: ev in es ==> Internal(ev)) && Stuck(Run(p, es, table))
    decreases Bound(p, table)
  {
    if Stuck(p) {
      es := [];
    } else {
      var ev :| Internal(ev) && Enabled(p, ev);
      var p' := Step(p, ev, table);
      InternalStepShrinks(p, ev, table);
      StepKeepsValid(p, ev, table);
      hide Step, Valid, Remaining;
      var rest := StuckIsReached(p', table);
      es := [ev] + rest;
      assert es[1..] == rest;
    }
  }

  ghost function Bound(p: State, table: set<Short>): nat
    requires Valid(p, table)
  {
    RemainingNonNegative(p, table);
    Remaining(p)
  }

  /** From every state that any run reaches without an error or a shutdown, the path's own
      steps number at most Remaining, and wherever they can go no further every message that
      a peer had called Send with, and that fitted its queue, has been taken, up to the first
      over-large one of each connection, and the handlers were called for exactly those of
      all posts whose id has one. */
  lemma EverythingIsDelivered(n: nat, past: seq<Event>, es: seq<Event>, table: set<Short>)
    requires Allowed(Start(n), past, table) && Healthy(Run(Start(n), past, table))
    requires Allowed(Run(Start(n), past, table), es, table) && forall ev :: ev in es ==> Internal(ev)
    ensures var p := Run(Start(n), past, table); var q := Run(p, es, table);
      && |es| <= Remaining(p)
      && |p.conns| == |q.conns| == n
      && (Stuck(q) ==>
            && q.logic.handled == Logic.Filter(q.logic.posted, table)
            && Logic.ServedExactly(q.logic.handled, q.logic.posted, table)
            && forall i :: 0 <= i < n ==>
                 Of(q.logic.taken, i) == Of(q.logic.posted, i) == Deliverable(Accepted(past, i)))
  {
    var p := Run(Start(n), past, table);
    StartValid(n, table);
    RunKeepsValid(Start(n), past, table);
    RunKeepsCount(Start(n), past, table);
    InternalRunIsBounded(p, es, table);
    var q := Run(p, es, table);
    RemainingNonNegative(q, table);
    hide Valid, Healthy, Remaining, Step, Enabled, Deliverable;
    forall i | 0 <= i < n ensures p.conns[i].sender.accepted == Accepted(past, i) {
      AcceptsWhatFits(n, past, table, i);
    }
    if Stuck(q) { StuckMeansDelivered(q, table); }
  }
}
