/** The whole ChatServer message path as one machine: any number of connections, each a
    sending session, the bytes between, and a receiving session, all posting to the one
    LogicSystem. */
module Pipeline {
  import Bytes
  import opened Wire
  import Sender
  import Reader
  import Logic

  /** consumed counts the bytes of sender.wire that the reader has taken. */
  datatype Conn = Conn(sender: Sender.State, reader: Reader.State, consumed: nat)

  datatype State = State(conns: seq<Conn>, logic: Logic.State)

  function Start(n: nat): State {
    State(seq(n, _ => Conn(Sender.START, Reader.START, 0)), Logic.START)
  }

  datatype Event =
    | Tx(i: nat, tx: Sender.Event)
    | Read(i: nat, n: nat)        // an async_read_some completes with n bytes
    | ReadError(i: nat)
    | Work(e: Logic.Event)        // anything at the logic queue but a post

  /** A session whose post has yet to notify is still inside PostMsgToQue, so it has no
      read outstanding; a post has to wait for the mutex. */
  predicate Enabled(p: State, ev: Event) {
    match ev
    case Tx(i, e) => i < |p.conns| && Sender.Enabled(p.conns[i].sender, e)
    case Read(i, n) =>
      && i < |p.conns| && i !in p.logic.notifying
      && CanTake(p.conns[i], n)
      && (Reader.Completes(p.conns[i].reader, n) ==> Logic.MutexFree(p.logic))
    case ReadError(i) =>
      i < |p.conns| && i !in p.logic.notifying && Reader.Reading(p.conns[i].reader)
    case Work(e) => !e.Post? && Logic.Enabled(p.logic, e)
  }

  function Last(fs: seq<Frame>): Frame
    requires fs != []
  {
    fs[|fs| - 1]
  }

  /** The bytes async_read_some delivers. */
  function Chunk(c: Conn, n: nat): (b: seq<Byte>)
    requires c.consumed + n <= |c.sender.wire|
    ensures |b| == n
  {
    c.sender.wire[c.consumed..c.consumed + n]
  }

  predicate CanTake(c: Conn, n: nat) {
    Reader.CanRead(c.reader, n) && c.consumed + n <= |c.sender.wire|
  }

  function Take(c: Conn, n: nat): Conn
    requires CanTake(c, n)
  {
    c.(reader := Reader.OnBytes(c.reader, Chunk(c, n)), consumed := c.consumed + n)
  }

  function Step(p: State, ev: Event, table: set<Short>): State
    requires Enabled(p, ev)
  {
    match ev
    case Tx(i, e) =>
      p.(conns := p.conns[i := p.conns[i].(sender := Sender.Step(p.conns[i].sender, e))])
    case Read(i, n) =>
      var c := Take(p.conns[i], n);
      var p' := p.(conns := p.conns[i := c]);
      if Reader.Completes(p.conns[i].reader, n) then
        p'.(logic := Logic.Step(p.logic, Logic.Post(Logic.Node(i, Last(c.reader.posted))), table))
      else p'
    case ReadError(i) =>
      p.(conns := p.conns[i := p.conns[i].(reader := Reader.OnError(p.conns[i].reader))])
    case Work(e) => p.(logic := Logic.Step(p.logic, e, table))
  }

  /** The messages of one session among nodes, in order. */
  function Of(nodes: seq<Logic.Node>, session: nat): seq<Frame> {
    if nodes == [] then []
    else
      var init := Of(nodes[..|nodes| - 1], session);
      var last := nodes[|nodes| - 1];
      if last.session == session then init + [last.msg] else init
  }

  ghost predicate ConnValid(c: Conn) {
    && Sender.Valid(c.sender)
    && Reader.Valid(c.reader)
    && c.consumed <= |c.sender.wire|
    && Reader.Consumed(c.reader) == c.sender.wire[..c.consumed]
  }

  ghost predicate Valid(p: State, table: set<Short>) {
    && Logic.Valid(p.logic, table)
    && (forall i :: 0 <= i < |p.conns| ==>
          ConnValid(p.conns[i]) && Of(p.logic.posted, i) == p.conns[i].reader.posted)
    && (forall i :: i in p.logic.notifying ==> i < |p.conns|)
  }

  lemma {:induction false} OfAppend(a: seq<Logic.Node>, b: seq<Logic.Node>, session: nat)
    ensures Of(a + b, session) == Of(a, session) + Of(b, session)
    decreases |b|
  {
    if b == [] {
      assert a + b == a;
    } else {
      var init := b[..|b| - 1];
      assert (a + b)[..|a + b| - 1] == a + init;
      OfAppend(a, init, session);
    }
  }

  // ----- every step keeps the invariant -----

  lemma StartValid(n: nat, table: set<Short>)
    ensures Valid(Start(n), table)
  {
  }

  lemma TxKeepsConn(c: Conn, e: Sender.Event)
    requires ConnValid(c) && Sender.Enabled(c.sender, e)
    ensures ConnValid(c.(sender := Sender.Step(c.sender, e)))
  {
    hide Sender.Step, Sender.Valid, Reader.Valid, Reader.Consumed;
    Sender.StepKeepsValid(c.sender, e);
    var w, w' := c.sender.wire, Sender.Step(c.sender, e).wire;
    assert w'[..c.consumed] == w'[..|w|][..c.consumed];
  }

  lemma ReadKeepsConn(c: Conn, n: nat)
    requires ConnValid(c) && CanTake(c, n)
    ensures ConnValid(Take(c, n))
    ensures Take(c, n).reader.posted ==
      if Reader.Completes(c.reader, n) then
        c.reader.posted + [Frame(c.reader.phase.id, c.reader.got + Chunk(c, n))]
      else c.reader.posted
  {
    hide Reader.OnBytes, Reader.Valid, Reader.Consumed, Sender.Valid;
    Reader.OnBytesConsumes(c.reader, Chunk(c, n));
    Reader.ReadProgress(c.reader, Chunk(c, n));
    Bytes.PrefixGrows(c.sender.wire, c.consumed, n);
  }

  lemma UpdateKeepsValid(p: State, i: nat, c: Conn, table: set<Short>)
    requires Valid(p, table) && i < |p.conns|
    requires ConnValid(c) && c.reader.posted == p.conns[i].reader.posted
    ensures Valid(p.(conns := p.conns[i := c]), table)
  {
  }

  lemma PostKeepsValid(p: State, i: nat, c: Conn, f: Frame, table: set<Short>)
    requires Valid(p, table) && i < |p.conns| && Logic.Enabled(p.logic, Logic.Post(Logic.Node(i, f)))
    requires ConnValid(c) && c.reader.posted == p.conns[i].reader.posted + [f]
    ensures Valid(State(p.conns[i := c], Logic.Step(p.logic, Logic.Post(Logic.Node(i, f)), table)), table)
  {
    hide ConnValid;
    var node := Logic.Node(i, f);
    var logic := Logic.Step(p.logic, Logic.Post(node), table);
    Logic.StepKeepsValid(p.logic, Logic.Post(node), table);
    hide Logic.Valid;
    var conns := p.conns[i := c];
    forall j | 0 <= j < |conns|
      ensures ConnValid(conns[j]) && Of(logic.posted, j) == conns[j].reader.posted
    {
      OfAppend(p.logic.posted, [node], j);
      assert Of([node], j) == if j == i then [f] else [];
    }
  }

  lemma ReadErrorKeepsConn(c: Conn)
    requires ConnValid(c)
    ensures ConnValid(c.(reader := Reader.OnError(c.reader)))
  {
  }

  lemma ReadKeepsValid(p: State, i: nat, n: nat, table: set<Short>)
    requires Valid(p, table) && Enabled(p, Read(i, n))
    ensures Valid(Step(p, Read(i, n), table), table)
  {
    hide ConnValid, Chunk, Reader.OnBytes, Logic.Valid, Logic.Step;
    var c := p.conns[i];
    ReadKeepsConn(c, n);
    if Reader.Completes(c.reader, n) {
      var f := Last(Take(c, n).reader.posted);
      assert f == Frame(c.reader.phase.id, c.reader.got + Chunk(c, n));
      PostKeepsValid(p, i, Take(c, n), f, table);
    } else {
      UpdateKeepsValid(p, i, Take(c, n), table);
    }
  }

  lemma WorkKeepsValid(p: State, e: Logic.Event, table: set<Short>)
    requires Valid(p, table) && Enabled(p, Work(e))
    ensures Valid(Step(p, Work(e), table), table)
  {
    hide ConnValid;
    Logic.StepKeepsValid(p.logic, e, table);
    assert Step(p, Work(e), table).logic.posted == p.logic.posted;
  }

  lemma StepKeepsValid(p: State, ev: Event, table: set<Short>)
    requires Valid(p, table) && Enabled(p, ev)
    ensures Valid(Step(p, ev, table), table)
  {
    hide ConnValid, Logic.Valid, Logic.Step, Sender.Step, Sender.Enabled, Reader.OnBytes;
    match ev
    case Tx(i, e) =>
      TxKeepsConn(p.conns[i], e);
      UpdateKeepsValid(p, i, p.conns[i].(sender := Sender.Step(p.conns[i].sender, e)), table);
    case Read(i, n) => ReadKeepsValid(p, i, n, table);
    case ReadError(i) =>
      ReadErrorKeepsConn(p.conns[i]);
      UpdateKeepsValid(p, i, p.conns[i].(reader := Reader.OnError(p.conns[i].reader)), table);
    case Work(e) => WorkKeepsValid(p, e, table);
  }

  // ----- safety over every run -----

  predicate Allowed(p: State, es: seq<Event>, table: set<Short>)
    decreases |es|
  {
    es == [] || (Enabled(p, es[0]) && Allowed(Step(p, es[0], table), es[1..], table))
  }

  function Run(p: State, es: seq<Event>, table: set<Short>): State
    requires Allowed(p, es, table)
    decreases |es|
  {
    if es == [] then p else Run(Step(p, es[0], table), es[1..], table)
  }

  lemma {:induction false} RunKeepsValid(p: State, es: seq<Event>, table: set<Short>)
    requires Valid(p, table) && Allowed(p, es, table)
    ensures Valid(Run(p, es, table), table)
    decreases |es|
  {
    if es != [] {
      StepKeepsValid(p, es[0], table);
      RunKeepsValid(Step(p, es[0], table), es[1..], table);
    }
  }

  /** What a connection has posted is the first part of what its sender accepted. */
  lemma PostedIsPrefix(c: Conn)
    requires ConnValid(c)
    ensures c.reader.posted <= Deliverable(c.sender.accepted) <= c.sender.accepted
    ensures Reader.Pending(c.reader) <= EncodeAll(c.sender.accepted[|c.reader.posted|..])
  {
    Sender.WireIsPrefixOfAccepted(c.sender);
    hide Sender.Valid, EncodeAll, Reader.Pending;
    assert c.sender.wire[..c.consumed] <= c.sender.wire;
    PrefixDecodes(c.reader.posted, Reader.Pending(c.reader), c.sender.accepted);
    DeliverableIsLongest(c.reader.posted, c.sender.accepted);
  }

  /** What happens at the sender of connection i. */
  function SentOn(es: seq<Event>, i: nat): seq<Sender.Event> {
    if es == [] then []
    else (if es[0].Tx? && es[0].i == i then [es[0].tx] else []) + SentOn(es[1..], i)
  }

  lemma SentOnFirst(es: seq<Event>, i: nat)
    requires es != []
    ensures var all, rest := SentOn(es, i), SentOn(es[1..], i);
      if es[0].Tx? && es[0].i == i then all != [] && all[0] == es[0].tx && all[1..] == rest else all == rest
    ensures SentOn([], i) == []
  {
  }

  /** A step at another place leaves the sender of connection i alone. */
  lemma StepSends(p: State, ev: Event, table: set<Short>, i: nat)
    requires Enabled(p, ev) && i < |p.conns|
    ensures var p' := Step(p, ev, table);
      && |p'.conns| == |p.conns|
      && if ev.Tx? && ev.i == i
         then Sender.Enabled(p.conns[i].sender, ev.tx) &&
              p'.conns[i].sender == Sender.Step(p.conns[i].sender, ev.tx)
         else p'.conns[i].sender == p.conns[i].sender
  {
    hide Sender.Step, Sender.Enabled, Reader.OnBytes, Logic.Step, Chunk;
  }

  /** Every connection's sender makes a run of its own. */
  lemma {:induction false} SenderRuns(p: State, es: seq<Event>, table: set<Short>, i: nat)
    requires Allowed(p, es, table) && i < |p.conns| == |Run(p, es, table).conns|
    ensures Sender.Allowed(p.conns[i].sender, SentOn(es, i))
    ensures Run(p, es, table).conns[i].sender == Sender.Run(p.conns[i].sender, SentOn(es, i))
    decreases |es|
  {
    hide Step, Enabled, SentOn, Sender.Step, Sender.Enabled;
    SentOnNone(i);
    if es != [] {
      SentOnFirst(es, i);
      StepSends(p, es[0], table, i);
      SenderRuns(Step(p, es[0], table), es[1..], table, i);
    }
  }

  lemma SentOnNone(i: nat)
    ensures SentOn([], i) == []
  {
  }

  /** What the sender of connection i accepts in es, read off the calls of Send. */
  function Accepted(es: seq<Event>, i: nat): seq<Frame> {
    Sender.Fitting(0, SentOn(es, i))
  }

  lemma AcceptsWhatFits(n: nat, es: seq<Event>, table: set<Short>, i: nat)
    requires Allowed(Start(n), es, table) && i < n
    ensures |Run(Start(n), es, table).conns| == n
    ensures Run(Start(n), es, table).conns[i].sender.accepted == Accepted(es, i)
  {
    hide Allowed, Run, SentOn, Sender.Fitting;
    RunKeepsCount(Start(n), es, table);
    SenderRuns(Start(n), es, table, i);
    Sender.AcceptsWhatFits(Sender.START, SentOn(es, i));
  }

  /** End to end, in every run over any number of connections, with any split of the bytes
      into reads and writes and any errors: what the worker has taken from a session is a
      first part of the messages that its peer called Send with and that fitted the queue,
      in order and unaltered. */
  lemma TakenIsPrefixOfAccepted(n: nat, es: seq<Event>, table: set<Short>, i: nat)
    requires Allowed(Start(n), es, table) && i < n
    ensures var p := Run(Start(n), es, table);
      && |p.conns| == n && p.conns[i].sender.accepted == Accepted(es, i)
      && Of(p.logic.taken, i) <= Deliverable(Accepted(es, i)) <= Accepted(es, i)
      && p.logic.handled == Logic.Filter(p.logic.taken, table)
      && Logic.ServedExactly(p.logic.handled, p.logic.taken, table)
  {
    StartValid(n, table);
    RunKeepsValid(Start(n), es, table);
    RunKeepsCount(Start(n), es, table);
    AcceptsWhatFits(n, es, table, i);
    var p := Run(Start(n), es, table);
    Logic.FilterServesExactly(p.logic.taken, table);
    OfAppend(p.logic.taken, p.logic.queue, i);
    PostedIsPrefix(p.conns[i]);
  }

  lemma {:induction false} RunKeepsCount(p: State, es: seq<Event>, table: set<Short>)
    requires Allowed(p, es, table)
    ensures |Run(p, es, table).conns| == |p.conns|
    decreases |es|
  {
    if es != [] { RunKeepsCount(Step(p, es[0], table), es[1..], table); }
  }

  // ----- after a failed read -----

  /** Whenever a read could complete it can fail instead, whether or not bytes have arrived. */
  lemma AnyReadCanFail(p: State, i: nat, n: nat)
    requires i < |p.conns| && i !in p.logic.notifying && Reader.CanRead(p.conns[i].reader, n)
    ensures Enabled(p, ReadError(i))
  {
  }

  /** The read error of connection i is the end of its reads: none succeeds or fails after
      it, and what was read and posted stays as it is, whatever the others do. */
  lemma ReadErrorIsFinal(p: State, i: nat, es: seq<Event>, table: set<Short>)
    requires Enabled(p, ReadError(i)) && Allowed(Step(p, ReadError(i), table), es, table)
    ensures var q := Run(Step(p, ReadError(i), table), es, table);
      && |q.conns| == |p.conns|
      && q.conns[i].reader.posted == p.conns[i].reader.posted && q.conns[i].consumed == p.conns[i].consumed
    ensures forall k :: 0 <= k < |es| ==> es[k] != ReadError(i) && (es[k].Read? ==> es[k].i != i)
  {
    var p' := Step(p, ReadError(i), table);
    Reader.OnErrorEndsReading(p.conns[i].reader, 0);
    hide Step, Enabled;
    NoMoreReads(p', i, es, table);
  }

  lemma {:induction false} NoMoreReads(p: State, i: nat, es: seq<Event>, table: set<Short>)
    requires i < |p.conns| && !Reader.Reading(p.conns[i].reader) && Allowed(p, es, table)
    ensures var q := Run(p, es, table);
      && |q.conns| == |p.conns|
      && q.conns[i].reader == p.conns[i].reader && q.conns[i].consumed == p.conns[i].consumed
    ensures forall k :: 0 <= k < |es| ==> es[k] != ReadError(i) && (es[k].Read? ==> es[k].i != i)
    decreases |es|
  {
    hide Step, Enabled, Reader.Reading;
    if es != [] {
      UnreadStays(p, i, es[0], table);
      NoMoreReads(Step(p, es[0], table), i, es[1..], table);
      assert es == [es[0]] + es[1..];
    }
  }

  lemma UnreadStays(p: State, i: nat, ev: Event, table: set<Short>)
    requires i < |p.conns| && !Reader.Reading(p.conns[i].reader) && Enabled(p, ev)
    ensures ev != ReadError(i) && (ev.Read? ==> ev.i != i)
    ensures var p' := Step(p, ev, table);
      && |p'.conns| == |p.conns|
      && p'.conns[i].reader == p.conns[i].reader && p'.conns[i].consumed == p.conns[i].consumed
  {
    hide Sender.Step, Reader.OnBytes, Logic.Step, Chunk;
  }
}
