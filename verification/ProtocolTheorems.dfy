/** What the protocol guarantees over every run, and what its guarantees rest on. */
module ProtocolTheorems {
  import opened Wrappers
  import opened Protocol

  /** Every completed call consumed the reply to the very request it sent. */
  ghost predicate Matched(w: World) {
    forall i :: 0 <= i < |w.exchanges| ==> w.exchanges[i].reply.answers == w.exchanges[i].request
  }

  /** No run of clients with these response queues, in whatever order workers serve
      requests, ever completes a call with somebody else's reply. */
  ghost predicate AlwaysMatched(names: seq<string>) {
    forall steps: seq<Step> ::
      Reliable(steps) && Run(Init(names), steps).Some? ==> Matched(Run(Init(names), steps).value)
  }

  /** w can be reached by clients with distinct response queues whose receives succeed. */
  ghost predicate Reachable(w: World, steps: seq<Step>) {
    Distinct(w.names) && Reliable(steps) && Run(Init(w.names), steps) == Some(w)
  }

  lemma ReachableInv(w: World, steps: seq<Step>)
    requires Reachable(w, steps)
    ensures Inv(w)
  {
    InitInv(w.names);
    RunKeeps(Init(w.names), steps);
  }

  /** Safety over whole runs, one clause per promise: the in-flight count of each client is
      1 while it waits and 0 otherwise; completed calls carry their own reply and client;
      no request completes twice; and every published request is accounted for. */
  lemma RunsAreSafe(w: World, steps: seq<Step>)
    requires Reachable(w, steps)
    ensures |w.phases| == |w.names|
    ensures forall c: nat :: c < |w.names| ==>
              InFlight(w, w.names[c]) == (if w.phases[c].Waiting? then 1 else 0)
    ensures Matched(w)
    ensures forall i :: 0 <= i < |w.exchanges| ==>
              w.exchanges[i].client < |w.names| &&
              w.exchanges[i].request.responseQueue == w.names[w.exchanges[i].client]
    ensures forall i, j :: 0 <= i < j < |w.exchanges| ==> w.exchanges[i].request != w.exchanges[j].request
    ensures forall i :: 0 <= i < |w.exchanges| ==> w.exchanges[i].request in w.log
    ensures |w.log| == |w.exchanges| + Busy(w.phases)
  {
    ReachableInv(w, steps);
    forall c: nat | c < |w.names|
      ensures InFlight(w, w.names[c]) == (if w.phases[c].Waiting? then 1 else 0)
    {
      assert PhaseOk(w, c);
    }
    forall i | 0 <= i < |w.exchanges|
      ensures w.exchanges[i].client < |w.names|
      ensures w.exchanges[i].request.responseQueue == w.names[w.exchanges[i].client]
      ensures w.exchanges[i].request in w.log
    {
      var e := w.exchanges[i];
      assert w.log[e.request.serial] == e.request;
    }
  }

  /** The reply delivered to a blocked client answers the last request that client published. */
  lemma DeliveredReplyIsOwn(w: World, steps: seq<Step>, c: nat, w': World)
    requires Reachable(w, steps) && Next(w, Deliver(c)) == Some(w')
    ensures c < |w'.phases| && w'.phases[c].Holding? && w'.phases[c].request == w.phases[c].request
    ensures w'.phases[c].reply.answers == w'.phases[c].request
    ensures w'.phases[c].request.from == c && Latest(w.log, w'.phases[c].request)
    ensures InFlight(w', w.names[c]) == 0
  {
    ReachableInv(w, steps);
    StepKeeps(w, Deliver(c), w');
    assert PhaseOk(w', c);
  }

  lemma {:induction false} RunConcat(w: World, a: seq<Step>, b: seq<Step>)
    requires Run(w, a).Some?
    ensures Run(w, a + b) == Run(Run(w, a).value, b)
    decreases |b|
  {
    if b == [] {
      assert a + b == a;
    } else {
      RunConcat(w, a, b[..|b| - 1]);
      assert (a + b)[..|a + b| - 1] == a + b[..|b| - 1];
    }
  }

  lemma RunOne(w: World, steps: seq<Step>, step: Step, v: World)
    requires Run(w, steps) == Some(v)
    ensures Run(w, steps + [step]) == Next(v, step)
  {
    assert (steps + [step])[..|steps|] == steps;
  }

  /** Client i asks, then client j, and a worker answers i into the queue both read from. */
  lemma CrossedReply(names: seq<string>, i: nat, j: nat) returns (steps: seq<Step>, w: World)
    requires i < j < |names| && names[i] == names[j]
    ensures Reliable(steps) && Run(Init(names), steps) == Some(w)
    ensures |w.phases| == |w.names| == |names| && w.phases[j].Waiting? && w.phases[j].request.from == j
    ensures var box := Box(w.mail, w.names[j]); box != [] && box[0].answers.from == i
    ensures w.exchanges == []
  {
    var w0 := Init(names);
    steps := [];
    var w1 := Next(w0, Send(i, GET, "", "")).value;
    RunOne(w0, steps, Send(i, GET, "", ""), w0);
    steps := steps + [Send(i, GET, "", "")];
    var w2 := Next(w1, Send(j, GET, "", "")).value;
    RunOne(w0, steps, Send(j, GET, "", ""), w1);
    steps := steps + [Send(j, GET, "", "")];
    var w3 := Next(w2, Take(0)).value;
    RunOne(w0, steps, Take(0), w2);
    steps := steps + [Take(0)];
    w := Next(w3, Answer(0, "")).value;
    RunOne(w0, steps, Answer(0, ""), w3);
    steps := steps + [Answer(0, "")];
  }

  /** Distinct response queues are not only enough but needed: two clients that share one
      can be given each other's replies. */
  lemma SharedNameMismatches(names: seq<string>, i: nat, j: nat) returns (steps: seq<Step>)
    requires i < j < |names| && names[i] == names[j]
    ensures Reliable(steps) && Run(Init(names), steps).Some?
    ensures !Matched(Run(Init(names), steps).value)
  {
    var w;
    steps, w := CrossedReply(names, i, j);
    var d := Next(w, Deliver(j)).value;
    RunOne(Init(names), steps, Deliver(j), w);
    steps := steps + [Deliver(j)];
    var v := Next(d, Ack(j)).value;
    RunOne(Init(names), steps, Ack(j), d);
    steps := steps + [Ack(j)];
    assert v.exchanges[0].request.from == j && v.exchanges[0].reply.answers.from == i;
  }

  /** The protocol without correlation ids is safe exactly when the response queues differ. */
  lemma SafeIffDistinct(names: seq<string>)
    ensures AlwaysMatched(names) <==> Distinct(names)
  {
    if Distinct(names) {
      forall steps: seq<Step> | Reliable(steps) && Run(Init(names), steps).Some?
        ensures Matched(Run(Init(names), steps).value)
      {
        InitInv(names);
        RunKeeps(Init(names), steps);
      }
    } else {
      var i, j :| 0 <= i < j < |names| && names[i] == names[j];
      var steps := SharedNameMismatches(names, i, j);
    }
  }

  // ---------------------------------------------------------------- progress

  predicate OnlyWorkers(steps: seq<Step>) {
    forall i :: 0 <= i < |steps| ==> steps[i].Take? || steps[i].Answer?
  }

  /** Only workers moved between w and v. */
  predicate SameClients(w: World, v: World) {
    v.phases == w.phases && v.names == w.names && v.log == w.log && v.exchanges == w.exchanges
  }

  lemma AnswerHeld(w: World, q: string, k: nat) returns (steps: seq<Step>, v: World)
    requires k < |w.held| && w.held[k].responseQueue == q
    ensures OnlyWorkers(steps) && Run(w, steps) == Some(v) && SameClients(w, v)
    ensures Box(v.mail, q) != []
  {
    v := Next(w, Answer(k, "")).value;
    steps := [Answer(k, "")];
    RunOne(w, [], Answer(k, ""), w);
    assert [] + steps == steps;
  }

  /** Take moves a request for the queue from the listener queue to a worker. */
  lemma TakeListed(w: World, q: string, k: nat) returns (u: World)
    requires k < |w.listener| && w.listener[k].responseQueue == q
    ensures Next(w, Take(k)) == Some(u) && SameClients(w, u)
    ensures |u.held| == |w.held| + 1 && u.held[|w.held|].responseQueue == q
  {
    u := Next(w, Take(k)).value;
  }

  /** While anything is under way for a response queue, workers alone can bring a reply there. */
  lemma WorkersCanAnswer(w: World, q: string) returns (steps: seq<Step>, v: World)
    requires InFlight(w, q) > 0
    ensures OnlyWorkers(steps) && Run(w, steps) == Some(v) && SameClients(w, v)
    ensures Box(v.mail, q) != []
  {
    if Box(w.mail, q) != [] {
      steps, v := [], w;
    } else if CountFor(w.held, q) > 0 {
      var k := CountWitness(w.held, q);
      steps, v := AnswerHeld(w, q, k);
    } else {
      var k := CountWitness(w.listener, q);
      var u := TakeListed(w, q, k);
      var rest;
      rest, v := AnswerHeld(u, q, |w.held|);
      steps := TakeThen(w, k, u, rest, v);
    }
  }

  lemma TakeThen(w: World, k: nat, u: World, rest: seq<Step>, v: World) returns (steps: seq<Step>)
    requires Next(w, Take(k)) == Some(u) && Run(u, rest) == Some(v) && OnlyWorkers(rest)
    ensures OnlyWorkers(steps) && Run(w, steps) == Some(v)
  {
    RunOne(w, [], Take(k), w);
    assert [] + [Take(k)] == [Take(k)];
    RunConcat(w, [Take(k)], rest);
    steps := [Take(k)] + rest;
  }

  /** With a reply in its queue, a waiting client receives and acknowledges it. */
  lemma ReceiveAndAck(u: World, c: nat) returns (d: World, v: World)
    requires Inv(u) && c < |u.names| && u.phases[c].Waiting? && Box(u.mail, u.names[c]) != []
    ensures Next(u, Deliver(c)) == Some(d) && Next(d, Ack(c)) == Some(v)
    ensures v.phases == u.phases[c := Idle] && |v.exchanges| == |u.exchanges| + 1
    ensures v.exchanges[|u.exchanges|].client == c && v.exchanges[|u.exchanges|].request == u.phases[c].request
    ensures v.exchanges[|u.exchanges|].reply.answers == u.phases[c].request
  {
    d := Next(u, Deliver(c)).value;
    DeliverKeeps(u, Deliver(c), d);
    assert PhaseOk(d, c);
    v := Next(d, Ack(c)).value;
  }

  /** No call blocks for good: from every reachable state, a waiting client's call can be
      completed by worker steps and that client alone, with the reply to its own request. */
  lemma WaitingCallCanComplete(w: World, before: seq<Step>, c: nat)
    returns (work: seq<Step>, steps: seq<Step>, v: World)
    requires Reachable(w, before) && c < |w.phases| && w.phases[c].Waiting?
    ensures OnlyWorkers(work) && steps == work + [Deliver(c)] + [Ack(c)]
    ensures Run(w, steps) == Some(v)
    ensures v.phases == w.phases[c := Idle]
    ensures |v.exchanges| == |w.exchanges| + 1
    ensures v.exchanges[|w.exchanges|].client == c && v.exchanges[|w.exchanges|].request == w.phases[c].request
    ensures v.exchanges[|w.exchanges|].reply.answers == w.phases[c].request
  {
    ReachableInv(w, before);
    assert PhaseOk(w, c);
    var u, d;
    work, u := WorkersCanAnswer(w, w.names[c]);
    RunKeeps(w, work);
    d, v := ReceiveAndAck(u, c);
    RunOne(w, work, Deliver(c), u);
    RunOne(w, work + [Deliver(c)], Ack(c), d);
    steps := work + [Deliver(c)] + [Ack(c)];
  }
}
