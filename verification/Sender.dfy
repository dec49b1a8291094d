/** The sending half of a session as a value: Send and HandleWrite (CSession.cpp), with
    the progress of the outstanding async_write made explicit. */
module Sender {
  import Bytes
  import opened Wire

  const MAX_SENDQUE := 1000

  /** Idle: no async_write is outstanding. Broken: HandleWrite was called with an error. */
  datatype Phase = Idle | Writing | Broken

  /** written counts the bytes of the front node that reached the wire; closed is the state
      of the socket. accepted, done and wire record the history. */
  datatype State = State(queue: seq<Frame>, phase: Phase, written: nat, closed: bool,
                         accepted: seq<Frame>, done: seq<Frame>, wire: seq<Byte>)

  const START := State([], Idle, 0, false, [], [], [])

  datatype Event =
    | Send(f: Frame)        // either overload of Send, up to its end
    | Write(n: nat)         // the transport takes n more bytes of the front node
    | Written               // HandleWrite without an error
    | WriteError            // HandleWrite with an error
    | Close                 // the socket is closed by the reading half

  predicate Enabled(s: State, e: Event) {
    match e
    case Send(_) => true
    case Write(n) =>
      s.phase.Writing? && !s.closed && s.queue != [] && 0 < n && s.written + n <= |Encode(s.queue[0])|
    case Written => s.phase.Writing? && s.queue != [] && s.written == |Encode(s.queue[0])|
    case WriteError => s.phase.Writing?
    case Close => true
  }

  function Step(s: State, e: Event): State
    requires Enabled(s, e)
  {
    match e
    case Send(f) =>
      if |s.queue| > MAX_SENDQUE then s
      else
        var s' := s.(queue := s.queue + [f], accepted := s.accepted + [f]);
        if |s.queue| > 0 then s' else s'.(phase := Writing, written := 0)
    case Write(n) =>
      s.(written := s.written + n,
         wire := s.wire + Encode(s.queue[0])[s.written..s.written + n])
    case Written =>
      var s' := s.(queue := s.queue[1..], done := s.done + [s.queue[0]], written := 0);
      if s'.queue == [] then s'.(phase := Idle) else s'
    case WriteError => s.(phase := Broken, closed := true)
    case Close => s.(closed := true)
  }

  /** The bytes of the front node that are on the wire. */
  ghost function Partial(s: State): seq<Byte>
    requires s.queue != [] ==> s.written <= |Encode(s.queue[0])|
  {
    if s.queue == [] then [] else Encode(s.queue[0])[..s.written]
  }

  ghost predicate Valid(s: State) {
    && |s.queue| <= MAX_SENDQUE + 1
    && s.accepted == s.done + s.queue
    // a write is outstanding exactly for a non-empty queue, until one fails
    && (s.phase.Idle? <==> s.queue == [])
    && (s.queue == [] ==> s.written == 0)
    && (s.queue != [] ==> s.written <= |Encode(s.queue[0])|)
    && (s.phase.Broken? ==> s.closed)
    // nodes go out whole, in order, and never interleaved
    && s.wire == EncodeAll(s.done) + Partial(s)
  }

  lemma StartValid()
    ensures Valid(START)
  {
  }

  lemma WriteOutstanding(s: State)
    requires Valid(s)
    ensures s.phase.Idle? <==> s.queue == []
    ensures s.phase.Writing? ==> s.queue != [] && s.written <= |Encode(s.queue[0])| && Enabled(s, WriteError)
  {
  }

  lemma WriteExtends(s: State, n: nat)
    requires Valid(s) && Enabled(s, Write(n))
    ensures Step(s, Write(n)).wire == EncodeAll(s.done) + Partial(Step(s, Write(n)))
  {
    hide Encode, EncodeAll;
    var b := Encode(s.queue[0]);
    Bytes.PrefixGrows(b, s.written, n);
    Bytes.Reassociate(EncodeAll(s.done), b[..s.written], b[s.written..s.written + n]);
  }

  lemma WrittenCompletes(s: State)
    requires Valid(s) && Enabled(s, Written)
    ensures s.wire == EncodeAll(s.done + [s.queue[0]])
  {
    EncodeAllAppend(s.done, [s.queue[0]]);
    EncodeAllOne(s.queue[0]);
    hide Encode, EncodeAll;
    assert Partial(s) == Encode(s.queue[0]);
  }

  lemma StepKeepsValid(s: State, e: Event)
    requires Valid(s) && Enabled(s, e)
    ensures Valid(Step(s, e))
    ensures s.accepted <= Step(s, e).accepted && s.wire <= Step(s, e).wire
  {
    hide Encode, EncodeAll;
    match e
    case Write(n) => WriteExtends(s, n);
    case Written =>
      WrittenCompletes(s);
      assert Partial(Step(s, e)) == [];
      assert s.done + s.queue == (s.done + [s.queue[0]]) + s.queue[1..];
    case _ =>
  }

  /** Once a write has failed the failed node stays in front: later sends only queue up
      behind it, and no further byte is ever written. */
  lemma BrokenIsSilent(s: State, e: Event)
    requires Valid(s) && s.phase.Broken? && Enabled(s, e)
    ensures e.Send? || e.Close?
    ensures var s' := Step(s, e);
      s'.phase.Broken? && s'.wire == s.wire && s'.done == s.done && s.queue <= s'.queue
  {
  }

  // ----- runs -----

  predicate Allowed(s: State, es: seq<Event>)
    decreases |es|
  {
    es == [] || (Enabled(s, es[0]) && Allowed(Step(s, es[0]), es[1..]))
  }

  function Run(s: State, es: seq<Event>): State
    requires Allowed(s, es)
    decreases |es|
  {
    if es == [] then s else Run(Step(s, es[0]), es[1..])
  }

  lemma {:induction false} RunKeepsValid(s: State, es: seq<Event>)
    requires Valid(s) && Allowed(s, es)
    ensures Valid(Run(s, es))
    ensures s.phase.Broken? ==> Run(s, es).phase.Broken? && Run(s, es).wire == s.wire
    decreases |es|
  {
    if es != [] {
      StepKeepsValid(s, es[0]);
      if s.phase.Broken? { BrokenIsSilent(s, es[0]); }
      RunKeepsValid(Step(s, es[0]), es[1..]);
    }
  }

  // ----- what is accepted, read off the events alone -----

  /** The messages that Send was called with. */
  function Sent(es: seq<Event>): seq<Frame> {
    if es == [] then [] else (if es[0].Send? then [es[0].f] else []) + Sent(es[1..])
  }

  /** Those of them that met at most 1000 nodes, if there are depth at first: a Send adds one,
      and each HandleWrite without an error takes one away. */
  function Fitting(depth: nat, es: seq<Event>): seq<Frame>
    decreases |es|
  {
    if es == [] then []
    else if es[0].Send? && depth <= 1000 then [es[0].f] + Fitting(depth + 1, es[1..])
    else Fitting(if es[0].Written? && depth > 0 then depth - 1 else depth, es[1..])
  }

  /** Accepted are exactly the messages that fitted, unaltered and in the order of the calls. */
  lemma {:induction false} AcceptsWhatFits(s: State, es: seq<Event>)
    requires Allowed(s, es)
    ensures Run(s, es).accepted == s.accepted + Fitting(|s.queue|, es)
    decreases |es|
  {
    if es != [] {
      var s', rest := Step(s, es[0]), Fitting(|Step(s, es[0]).queue|, es[1..]);
      AcceptsWhatFits(s', es[1..]);
      if es[0].Send? { Bytes.Reassociate(s.accepted, [es[0].f], rest); }
    }
  }

  /** As long as no more than 1001 can come together, that is all of them. */
  lemma {:induction false} FewMessagesFit(depth: nat, es: seq<Event>)
    requires depth + |Sent(es)| <= 1001
    ensures Fitting(depth, es) == Sent(es)
    decreases |es|
  {
    if es != [] {
      FewMessagesFit(
        if es[0].Send? then depth + 1 else if es[0].Written? && depth > 0 then depth - 1 else depth, es[1..]);
    }
  }

  /** Nothing is put on the wire once the socket was closed, by the reading half or after an
      error, and it is never open again. */
  lemma ClosedIsSilent(s: State, e: Event, es: seq<Event>)
    requires Enabled(s, e) && (e.Close? || e.WriteError?) && Allowed(Step(s, e), es)
    ensures var s' := Run(Step(s, e), es); s'.closed && s'.wire == s.wire
    ensures forall k :: 0 <= k < |es| ==> !es[k].Write?
  {
    StaysClosed(Step(s, e), es);
  }

  lemma {:induction false} StaysClosed(s: State, es: seq<Event>)
    requires s.closed && Allowed(s, es)
    ensures Run(s, es).closed && Run(s, es).wire == s.wire
    ensures forall k :: 0 <= k < |es| ==> !es[k].Write?
    decreases |es|
  {
    if es != [] {
      StaysClosed(Step(s, es[0]), es[1..]);
      forall k | 0 <= k < |es| ensures !es[k].Write? {
        if k > 0 { assert es[k] == es[1..][k - 1]; }
      }
    }
  }

  // ----- the wire -----

  /** In every run the wire holds the encodings of the completed nodes followed by a first
      part of the front node's, which is a first part of what was accepted. */
  lemma WireIsPrefixOfAccepted(s: State)
    requires Valid(s)
    ensures s.wire <= EncodeAll(s.accepted)
    ensures s.phase.Idle? ==> s.wire == EncodeAll(s.accepted)
  {
    EncodeAllAppend(s.done, s.queue);
    if s.queue != [] {
      assert EncodeAll(s.queue) == Encode(s.queue[0]) + EncodeAll(s.queue[1..]);
      hide Encode, EncodeAll;
      assert Partial(s) <= Encode(s.queue[0]) <= EncodeAll(s.queue);
    }
  }

  /** The queue test lets MAX_SENDQUE + 1 nodes in: sends alone fill the queue that far,
      and the next one is dropped. */
  lemma {:induction false} QueueFills(s: State, f: Frame, n: nat)
    requires |s.queue| + n <= 1001
    ensures var es := seq(n, _ => Send(f));
      Allowed(s, es) && |Run(s, es).queue| == |s.queue| + n
    ensures |s.queue| + n == 1001 ==>
      var s' := Run(s, seq(n, _ => Send(f))); Step(s', Send(f)) == s'
    decreases n
  {
    if n > 0 {
      QueueFills(Step(s, Send(f)), f, n - 1);
      assert seq(n, _ => Send(f))[1..] == seq(n - 1, _ => Send(f));
    }
  }
}
