/** Both directions of the ChatServer's sessions as one machine: Pipeline carries what comes
    in, and each session has a sending half of its own. */
module Duplex {
  import opened Wire
  import Sender
  import Reader
  import Logic
  import Pipeline

  datatype State = State(inbound: Pipeline.State, out: seq<Sender.State>)

  function Start(n: nat): State {
    State(Pipeline.Start(n), seq(n, _ => Sender.START))
  }

  datatype Event =
    | In(ev: Pipeline.Event)
    | Out(i: nat, e: Sender.Event)  // session i itself sends, or its transport moves on

  predicate Enabled(d: State, e: Event) {
    match e
    case In(ev) => Pipeline.Enabled(d.inbound, ev)
    case Out(i, e) => i < |d.out| && Sender.Enabled(d.out[i], e) && !e.Close?
  }

  /** A failed read closes the socket that the session sends on. */
  function Step(d: State, e: Event, table: set<Short>): State
    requires Enabled(d, e)
  {
    match e
    case In(ev) =>
      State(Pipeline.Step(d.inbound, ev, table),
            if ev.ReadError? && ev.i < |d.out| then d.out[ev.i := Sender.Step(d.out[ev.i], Sender.Close)]
            else d.out)
    case Out(i, e) => d.(out := d.out[i := Sender.Step(d.out[i], e)])
  }

  predicate Allowed(d: State, es: seq<Event>, table: set<Short>)
    decreases |es|
  {
    es == [] || (Enabled(d, es[0]) && Allowed(Step(d, es[0], table), es[1..], table))
  }

  function Run(d: State, es: seq<Event>, table: set<Short>): State
    requires Allowed(d, es, table)
    decreases |es|
  {
    if es == [] then d else Run(Step(d, es[0], table), es[1..], table)
  }

  /** The part of a run that Pipeline knows. */
  function Inbound(es: seq<Event>): seq<Pipeline.Event> {
    if es == [] then [] else (if es[0].In? then [es[0].ev] else []) + Inbound(es[1..])
  }

  lemma InboundNone()
    ensures Inbound([]) == []
  {
  }

  lemma InboundFirst(es: seq<Event>)
    requires es != []
    ensures var all, rest := Inbound(es), Inbound(es[1..]);
      if es[0].In? then all != [] && all[0] == es[0].ev && all[1..] == rest else all == rest
  {
  }

  /** What comes in is not affected by what goes out. */
  lemma {:induction false} RunProjects(d: State, es: seq<Event>, table: set<Short>)
    requires Allowed(d, es, table)
    ensures Pipeline.Allowed(d.inbound, Inbound(es), table)
    ensures Run(d, es, table).inbound == Pipeline.Run(d.inbound, Inbound(es), table)
    ensures |Run(d, es, table).out| == |d.out|
    decreases |es|
  {
    hide Pipeline.Enabled, Pipeline.Step, Sender.Enabled, Sender.Step, Inbound;
    if es == [] {
      InboundNone();
    } else {
      InboundFirst(es);
      RunProjects(Step(d, es[0], table), es[1..], table);
    }
  }

  /** What e is to the sending half of session i, a failed read being a close. */
  function SentOn(e: Event, i: nat): seq<Sender.Event> {
    match e
    case In(ReadError(j)) => if j == i then [Sender.Close] else []
    case In(_) => []
    case Out(j, e) => if j == i then [e] else []
  }

  function Outbound(es: seq<Event>, i: nat): seq<Sender.Event> {
    if es == [] then [] else SentOn(es[0], i) + Outbound(es[1..], i)
  }

  lemma StepSends(d: State, e: Event, table: set<Short>, i: nat)
    requires Enabled(d, e) && i < |d.out|
    ensures var d', sent := Step(d, e, table), SentOn(e, i);
      && |d'.out| == |d.out|
      && if sent == [] then d'.out[i] == d.out[i]
         else Sender.Enabled(d.out[i], sent[0]) && d'.out[i] == Sender.Step(d.out[i], sent[0])
  {
    hide Pipeline.Step, Pipeline.Enabled, Sender.Step;
  }

  lemma OutboundNone(i: nat)
    ensures Outbound([], i) == []
  {
  }

  lemma OutboundFirst(es: seq<Event>, i: nat)
    requires es != []
    ensures var all, rest, first := Outbound(es, i), Outbound(es[1..], i), SentOn(es[0], i);
      if first == [] then all == rest else |first| == 1 && all != [] && all[0] == first[0] && all[1..] == rest
  {
  }

  /** What goes out on a session is a run of its sending half, whatever comes in. */
  lemma {:induction false} RunProjectsOut(d: State, es: seq<Event>, table: set<Short>, i: nat)
    requires Allowed(d, es, table) && i < |d.out| == |Run(d, es, table).out|
    ensures Sender.Allowed(d.out[i], Outbound(es, i))
    ensures Run(d, es, table).out[i] == Sender.Run(d.out[i], Outbound(es, i))
    decreases |es|
  {
    hide Enabled, Step, SentOn, Outbound, Sender.Enabled, Sender.Step;
    if es == [] {
      OutboundNone(i);
    } else {
      OutboundFirst(es, i);
      StepSends(d, es[0], table, i);
      RunProjectsOut(Step(d, es[0], table), es[1..], table, i);
    }
  }
}
