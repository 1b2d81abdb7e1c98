/**
  What a failing receive leaves behind. It ends the call with an error text in place of the
  reply; the reply stays, or arrives later, and nothing tells it from that of a later call.
 */
module ProtocolFailures {
  import opened Wrappers
  import opened Protocol
  import opened ProtocolTheorems

  /** How many receives of client c failed. */
  function Failures(steps: seq<Step>, c: nat): nat
    decreases |steps|
  {
    if steps == [] then 0
    else Failures(steps[..|steps| - 1], c) + (if steps[|steps| - 1] == ReceiveFails(c) then 1 else 0)
  }

  /** What is under way for client c beyond the call it waits for. */
  function Debt(w: World, c: nat): int
    requires c < |w.names| == |w.phases|
  {
    InFlight(w, w.names[c]) - (if w.phases[c].Waiting? then 1 else 0)
  }

  /** Every request under way was published. */
  ghost predicate Published(w: World) {
    && (forall i :: 0 <= i < |w.listener| ==> w.listener[i].serial < |w.log|)
    && (forall i :: 0 <= i < |w.held| ==> w.held[i].serial < |w.log|)
    && (forall q, i :: q in w.mail && 0 <= i < |w.mail[q]| ==> w.mail[q][i].answers.serial < |w.log|)
  }

  /** What is left of the invariant when receives may fail. */
  ghost predicate WeakInv(w: World) {
    |w.names| == |w.phases| && Distinct(w.names) && Published(w)
  }

  // ------------------------------------------------------------ the debt of a client

  lemma SendInFlight(w: World, step: Step, w': World, q: string)
    requires step.Send? && Next(w, step) == Some(w')
    ensures InFlight(w', q) == InFlight(w, q) + (if w.names[step.client] == q then 1 else 0)
  {
    CountAppend(w.listener, w'.log[|w.log|], q);
  }

  lemma SendDebt(w: World, step: Step, w': World, c: nat)
    requires WeakInv(w) && step.Send? && Next(w, step) == Some(w') && c < |w.names|
    ensures Debt(w', c) == Debt(w, c)
  {
    SendInFlight(w, step, w', w.names[c]);
  }

  lemma TakeDebt(w: World, i: nat, w': World, c: nat)
    requires WeakInv(w) && Next(w, Take(i)) == Some(w') && c < |w.names|
    ensures Debt(w', c) == Debt(w, c)
  {
    CountRemove(w.listener, i, w.names[c]);
    CountAppend(w.held, w.listener[i], w.names[c]);
  }

  lemma AnswerDebt(w: World, i: nat, body: string, w': World, c: nat)
    requires WeakInv(w) && Next(w, Answer(i, body)) == Some(w') && c < |w.names|
    ensures Debt(w', c) == Debt(w, c)
  {
    var q := w.held[i].responseQueue;
    CountRemove(w.held, i, w.names[c]);
    assert Box(w'.mail, q) == Box(w.mail, q) + [Reply(body, w.held[i])];
    assert q != w.names[c] ==> Box(w'.mail, w.names[c]) == Box(w.mail, w.names[c]);
  }

  lemma DeliverDebt(w: World, d: nat, w': World, c: nat)
    requires WeakInv(w) && Next(w, Deliver(d)) == Some(w') && c < |w.names|
    ensures Debt(w', c) == Debt(w, c)
  {
    if d != c {
      assert w.names[d] != w.names[c];
      assert Box(w'.mail, w.names[c]) == Box(w.mail, w.names[c]);
    } else {
      assert Box(w'.mail, w.names[c]) == Box(w.mail, w.names[c])[1..];
    }
  }

  /** A step changes the debt of client c only by failing its receive. */
  lemma StepDebt(w: World, step: Step, w': World, c: nat)
    requires WeakInv(w) && Next(w, step) == Some(w') && c < |w.names|
    ensures w'.names == w.names && |w'.phases| == |w.phases|
    ensures Debt(w', c) == Debt(w, c) + (if step == ReceiveFails(c) then 1 else 0)
  {
    match step
    case Send(_, _, _, _) => SendDebt(w, step, w', c);
    case SendFails(_) =>
    case Take(i) => TakeDebt(w, i, w', c);
    case Answer(i, body) => AnswerDebt(w, i, body, w', c);
    case Deliver(d) => DeliverDebt(w, d, w', c);
    case Ack(_) =>
    case ReceiveFails(_) =>
  }

  lemma StepPublished(w: World, step: Step, w': World)
    requires Published(w) && Next(w, step) == Some(w')
    ensures Published(w')
  {
  }

  /** After any run, what is under way for a client is the call it waits for and one request or
      reply for every receive of it that failed. */
  lemma {:induction false} RunDebt(w: World, steps: seq<Step>, c: nat)
    requires WeakInv(w) && Run(w, steps).Some? && c < |w.names|
    ensures WeakInv(Run(w, steps).value) && Run(w, steps).value.names == w.names
    ensures Debt(Run(w, steps).value, c) == Debt(w, c) + Failures(steps, c)
    decreases |steps|
  {
    if steps != [] {
      var front, last := steps[..|steps| - 1], steps[|steps| - 1];
      RunDebt(w, front, c);
      StepDebt(Run(w, front).value, last, Run(w, steps).value, c);
      StepPublished(Run(w, front).value, last, Run(w, steps).value);
    }
  }

  lemma {:induction false} ReliableOwesNothing(steps: seq<Step>, c: nat)
    requires Reliable(steps)
    ensures Failures(steps, c) == 0
    decreases |steps|
  {
    if steps != [] {
      ReliableOwesNothing(steps[..|steps| - 1], c);
    }
  }

  /** The in-flight count of every client after every run, failing receives included. */
  lemma InFlightCountsFailures(names: seq<string>, steps: seq<Step>, w: World, c: nat)
    requires Distinct(names) && Run(Init(names), steps) == Some(w) && c < |names|
    ensures w.names == names && |w.phases| == |names|
    ensures InFlight(w, names[c]) == (if w.phases[c].Waiting? then 1 else 0) + Failures(steps, c)
  {
    RunDebt(Init(names), steps, c);
  }

  lemma {:induction false} SomeFailure(names: seq<string>, steps: seq<Step>) returns (c: nat)
    requires Distinct(names) && Run(Init(names), steps).Some? && !Reliable(steps)
    ensures c < |names| && Failures(steps, c) > 0
    decreases |steps|
  {
    var front, last := steps[..|steps| - 1], steps[|steps| - 1];
    if last.ReceiveFails? {
      c := last.client;
      if names != [] {
        RunDebt(Init(names), front, 0);
      } else {
        NoClients(front);
      }
    } else {
      assert !Reliable(front);
      c := SomeFailure(names, front);
    }
  }

  lemma {:induction false} NoClients(steps: seq<Step>)
    requires Run(Init([]), steps).Some?
    ensures Run(Init([]), steps).value.phases == []
    decreases |steps|
  {
    if steps != [] {
      NoClients(steps[..|steps| - 1]);
    }
  }

  // ------------------------------------------------------------ what a debt leads to

  lemma WorkersAreReliable(steps: seq<Step>)
    requires OnlyWorkers(steps)
    ensures Reliable(steps)
  {
  }

  /** A run without failing receives keeps what is owed to c. */
  lemma DebtStays(w: World, steps: seq<Step>, v: World, c: nat)
    requires WeakInv(w) && c < |w.names| && Reliable(steps) && Run(w, steps) == Some(v)
    ensures WeakInv(v) && v.names == w.names && Debt(v, c) == Debt(w, c)
  {
    RunDebt(w, steps, c);
    ReliableOwesNothing(steps, c);
  }

  lemma TwoMore(w: World, steps: seq<Step>, u: World, a: Step, d: World, b: Step, v: World)
    requires Run(w, steps) == Some(u) && Next(u, a) == Some(d) && Next(d, b) == Some(v)
    ensures Run(w, steps + [a] + [b]) == Some(v)
  {
    RunOne(w, steps, a, u);
    RunOne(w, steps + [a], b, d);
  }

  /** Client c can complete the call it waits for. */
  lemma EndWaiting(w: World, c: nat) returns (steps: seq<Step>, v: World)
    requires c < |w.names| == |w.phases| && w.phases[c].Waiting? && InFlight(w, w.names[c]) > 0
    ensures Reliable(steps) && Run(w, steps) == Some(v)
    ensures |v.phases| == |w.phases| && v.phases[c].Idle?
  {
    var work, u := WorkersCanAnswer(w, w.names[c]);
    WorkersAreReliable(work);
    var d := Next(u, Deliver(c)).value;
    v := Next(d, Ack(c)).value;
    steps := work + [Deliver(c)] + [Ack(c)];
    TwoMore(w, work, u, Deliver(c), d, Ack(c), v);
  }

  /** Client c can end the call it is in, if any. */
  lemma BecomeIdle(w: World, c: nat) returns (steps: seq<Step>, v: World)
    requires WeakInv(w) && c < |w.names| && Debt(w, c) > 0
    ensures Reliable(steps) && Run(w, steps) == Some(v)
    ensures WeakInv(v) && v.names == w.names && Debt(v, c) == Debt(w, c) && v.phases[c].Idle?
  {
    match w.phases[c] {
      case Idle =>
        steps, v := [], w;
      case Holding(_, _) =>
        v := Next(w, Ack(c)).value;
        RunOne(w, [], Ack(c), w);
        steps := [] + [Ack(c)];
      case Waiting(_) =>
        steps, v := EndWaiting(w, c);
    }
    DebtStays(w, steps, v, c);
  }

  /** A reply that client c is not waiting for, at the front of its queue, goes to its next call. */
  lemma StaleReply(w: World, steps: seq<Step>, u: World, c: nat) returns (all: seq<Step>, v: World)
    requires Run(w, steps) == Some(u) && c < |u.names| == |u.phases| && u.phases[c].Idle?
    requires Box(u.mail, u.names[c]) != [] && Box(u.mail, u.names[c])[0].answers.serial < |u.log|
    ensures all == steps + [Send(c, GET, "", "")] + [Deliver(c)] + [Ack(c)] && Run(w, all) == Some(v)
    ensures |v.exchanges| == |u.exchanges| + 1 && u.exchanges <= v.exchanges
    ensures v.exchanges[|u.exchanges|].client == c
    ensures v.exchanges[|u.exchanges|].reply == Box(u.mail, u.names[c])[0]
    ensures v.exchanges[|u.exchanges|].reply.answers != v.exchanges[|u.exchanges|].request
  {
    var b := Next(u, Send(c, GET, "", "")).value;
    RunOne(w, steps, Send(c, GET, "", ""), u);
    var s := steps + [Send(c, GET, "", "")];
    var d := Next(b, Deliver(c)).value;
    v := Next(d, Ack(c)).value;
    TwoMore(w, s, b, Deliver(c), d, Ack(c), v);
    all := s + [Deliver(c)] + [Ack(c)];
    assert v.exchanges[|u.exchanges|].request.serial == |u.log|;
  }

  /** A client to which anything is owed can be brought to where it is outside a call and has a
      reply in its queue. */
  lemma BecomeStale(w: World, c: nat) returns (steps: seq<Step>, v: World)
    requires WeakInv(w) && c < |w.names| && Debt(w, c) > 0
    ensures Reliable(steps) && Run(w, steps) == Some(v)
    ensures c < |v.names| == |v.phases| && v.phases[c].Idle?
    ensures Box(v.mail, v.names[c]) != [] && Box(v.mail, v.names[c])[0].answers.serial < |v.log|
  {
    var ending, u := BecomeIdle(w, c);
    var work;
    work, v := WorkersCanAnswer(u, u.names[c]);
    WorkersAreReliable(work);
    DebtStays(u, work, v, c);
    RunConcat(w, ending, work);
    steps := ending + work;
  }

  /** Once anything is owed to a client, it can be given a reply that is not its own, without
      any further failure. */
  lemma DebtMismatches(w: World, c: nat) returns (more: seq<Step>, v: World)
    requires WeakInv(w) && c < |w.names| && Debt(w, c) > 0
    ensures Reliable(more) && Run(w, more) == Some(v) && !Matched(v)
  {
    var steps, x := BecomeStale(w, c);
    more, v := StaleReply(w, steps, x, c);
  }

  /** Whatever happens after the run, no call is completed with another call's reply, as long as
      no further receive fails. */
  ghost predicate SafeFrom(names: seq<string>, steps: seq<Step>) {
    forall more: seq<Step> {:trigger Run(Init(names), steps + more)} ::
      Reliable(more) && Run(Init(names), steps + more).Some? ==> Matched(Run(Init(names), steps + more).value)
  }

  /** Calls are matched after a run, and stay so, exactly when no receive has failed in it. */
  lemma SafeIffReliable(names: seq<string>, steps: seq<Step>)
    requires Distinct(names) && Run(Init(names), steps).Some?
    ensures SafeFrom(names, steps) <==> Reliable(steps)
  {
    if Reliable(steps) {
      forall more: seq<Step> | Reliable(more) && Run(Init(names), steps + more).Some?
        ensures Matched(Run(Init(names), steps + more).value)
      {
        InitInv(names);
        RunKeeps(Init(names), steps + more);
      }
    } else {
      var c := SomeFailure(names, steps);
      RunDebt(Init(names), steps, c);
      var more, v := DebtMismatches(Run(Init(names), steps).value, c);
      RunConcat(Init(names), steps, more);
    }
  }

  /** From every reachable state in which a client waits, a failing receive can be followed by a
      call of that client that completes with the reply to the abandoned one. */
  lemma FailedReceiveMismatches(w: World, before: seq<Step>, c: nat) returns (steps: seq<Step>, v: World)
    requires Reachable(w, before) && c < |w.phases| && w.phases[c].Waiting?
    ensures Run(w, steps) == Some(v) && !Matched(v)
    ensures |v.exchanges| == |w.exchanges| + 1
    ensures v.exchanges[|w.exchanges|].client == c
    ensures v.exchanges[|w.exchanges|].reply.answers == w.phases[c].request
    ensures v.exchanges[|w.exchanges|].request != w.phases[c].request
  {
    ReachableInv(w, before);
    assert PhaseOk(w, c);
    var work, u := WorkersCanAnswer(w, w.names[c]);
    RunKeeps(w, work);
    OwnReply(u, c);
    var a := Next(u, ReceiveFails(c)).value;
    RunOne(w, work, ReceiveFails(c), u);
    steps, v := StaleReply(w, work + [ReceiveFails(c)], a, c);
  }

  /** While calls are matched, what lies in a waiting client's queue is its own reply. */
  lemma OwnReply(u: World, c: nat)
    requires Inv(u) && c < |u.names| && u.phases[c].Waiting? && Box(u.mail, u.names[c]) != []
    ensures Box(u.mail, u.names[c])[0].answers == u.phases[c].request && u.phases[c].request.serial < |u.log|
  {
    assert PhaseOk(u, c);
    var reply := Box(u.mail, u.names[c])[0];
    assert Awaited(u, reply.answers);
    assert PhaseOk(u, reply.answers.from);
  }
}
