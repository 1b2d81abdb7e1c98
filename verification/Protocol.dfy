/**
  The request/reply protocol between HPC clients, the shared listener queue and the
  workers behind it, as a state machine whose runs are all interleavings.

  A client call publishes one request on the listener queue and then blocks on its own
  response queue. The request names that queue; nothing else ties a reply to a request.
  `serial` and `from` of a request and `answers` of a reply are history: no step ever
  reads them to decide what happens.
 */
module Protocol {
  import opened Wrappers

  datatype Verb = GET | POST | DELETE

  datatype Request = Request(verb: Verb, path: string, data: string, responseQueue: string,
                             serial: nat, from: nat)

  datatype Reply = Reply(body: string, answers: Request)

  /** Where a client is in its call: outside one, blocked on its response queue, or
      holding a delivered reply that it has not acknowledged yet. */
  datatype Phase =
    | Idle
    | Waiting(request: Request)
    | Holding(request: Request, reply: Reply)

  /** A completed call: the reply was delivered and acknowledged. */
  datatype Exchange = Exchange(client: nat, request: Request, reply: Reply)

  datatype World = World(
    names: seq<string>,            // names[c]: the response queue of client c
    phases: seq<Phase>,
    listener: seq<Request>,
    held: seq<Request>,            // taken by a worker, not answered yet
    mail: map<string, seq<Reply>>, // the response queues
    log: seq<Request>,             // history: every request published so far
    exchanges: seq<Exchange>)      // history: every call completed so far

  datatype Step =
    | Send(client: nat, verb: Verb, path: string, data: string)
    | SendFails(client: nat)
    | Take(slot: nat)
    | Answer(slot: nat, body: string)
    | Deliver(client: nat)
    | Ack(client: nat)
    | ReceiveFails(client: nat)

  function Init(names: seq<string>): World {
    World(names, seq(|names|, _ => Idle), [], [], map[], [], [])
  }

  function Box(mail: map<string, seq<Reply>>, queue: string): seq<Reply> {
    if queue in mail then mail[queue] else []
  }

  function RemoveAt<T>(s: seq<T>, i: nat): seq<T>
    requires i < |s|
  {
    s[..i] + s[i + 1..]
  }

  /** The world after one step, or None when the step is not possible. */
  function Next(w: World, step: Step): Option<World> {
    match step
    case Send(c, verb, path, data) =>
      if c < |w.names| && c < |w.phases| && w.phases[c].Idle? then
        var r := Request(verb, path, data, w.names[c], |w.log|, c);
        Some(w.(phases := w.phases[c := Waiting(r)], listener := w.listener + [r], log := w.log + [r]))
      else None
    case SendFails(c) =>
      if c < |w.phases| && w.phases[c].Idle? then Some(w) else None
    case Take(i) =>
      if i < |w.listener| then
        Some(w.(listener := RemoveAt(w.listener, i), held := w.held + [w.listener[i]]))
      else None
    case Answer(i, body) =>
      if i < |w.held| then
        var r := w.held[i];
        var box := Box(w.mail, r.responseQueue) + [Reply(body, r)];
        Some(w.(held := RemoveAt(w.held, i), mail := w.mail[r.responseQueue := box]))
      else None
    case Deliver(c) =>
      if c < |w.names| && c < |w.phases| && w.phases[c].Waiting? && Box(w.mail, w.names[c]) != [] then
        var box := Box(w.mail, w.names[c]);
        Some(w.(phases := w.phases[c := Holding(w.phases[c].request, box[0])],
                mail := w.mail[w.names[c] := box[1..]]))
      else None
    case Ack(c) =>
      if c < |w.phases| && w.phases[c].Holding? then
        Some(w.(phases := w.phases[c := Idle],
                exchanges := w.exchanges + [Exchange(c, w.phases[c].request, w.phases[c].reply)]))
      else None
    case ReceiveFails(c) =>
      if c < |w.phases| && w.phases[c].Waiting? then Some(w.(phases := w.phases[c := Idle])) else None
  }

  /** The world after a whole run. */
  function Run(w: World, steps: seq<Step>): Option<World>
    decreases |steps|
  {
    if steps == [] then Some(w)
    else match Run(w, steps[..|steps| - 1])
      case None => None
      case Some(v) => Next(v, steps[|steps| - 1])
  }

  predicate Reliable(steps: seq<Step>) {
    forall i :: 0 <= i < |steps| ==> !steps[i].ReceiveFails?
  }

  ghost predicate Distinct(names: seq<string>) {
    forall i, j :: 0 <= i < j < |names| ==> names[i] != names[j]
  }

  // ---------------------------------------------------------------- the invariant

  /** How many requests in s name the given response queue. */
  function CountFor(s: seq<Request>, queue: string): nat {
    if s == [] then 0
    else CountFor(s[..|s| - 1], queue) + (if s[|s| - 1].responseQueue == queue then 1 else 0)
  }

  /** Requests queued, requests held by workers and replies waiting, for one response queue. */
  function InFlight(w: World, queue: string): nat {
    CountFor(w.listener, queue) + CountFor(w.held, queue) + |Box(w.mail, queue)|
  }

  function Busy(phases: seq<Phase>): nat {
    if phases == [] then 0
    else Busy(phases[..|phases| - 1]) + (if phases[|phases| - 1].Idle? then 0 else 1)
  }

  ghost predicate Awaited(w: World, r: Request) {
    r.from < |w.phases| && w.phases[r.from] == Waiting(r)
  }

  /** r was published, and its client has published nothing since. */
  ghost predicate Latest(log: seq<Request>, r: Request) {
    && r.serial < |log| && log[r.serial] == r
    && forall j :: r.serial < j < |log| ==> log[j].from != r.from
  }

  ghost predicate PhaseOk(w: World, c: nat)
    requires c < |w.names| == |w.phases|
  {
    && InFlight(w, w.names[c]) == (if w.phases[c].Waiting? then 1 else 0)
    && (!w.phases[c].Idle? ==>
          var r := w.phases[c].request;
          r.from == c && r.responseQueue == w.names[c] && Latest(w.log, r))
    && (w.phases[c].Holding? ==> w.phases[c].reply.answers == w.phases[c].request)
  }

  ghost predicate TokensOk(w: World) {
    && (forall i :: 0 <= i < |w.listener| ==> Awaited(w, w.listener[i]))
    && (forall i :: 0 <= i < |w.held| ==> Awaited(w, w.held[i]))
    && (forall q, i :: q in w.mail && 0 <= i < |w.mail[q]| ==>
          w.mail[q][i].answers.responseQueue == q && Awaited(w, w.mail[q][i].answers))
  }

  ghost predicate LogOk(w: World) {
    forall i :: 0 <= i < |w.log| ==>
      w.log[i].serial == i && w.log[i].from < |w.names| && w.log[i].responseQueue == w.names[w.log[i].from]
  }

  /** Each completed call got the reply to its own request, no request was answered to a
      client twice, and no outstanding request counts as completed. */
  ghost predicate ExchangesOk(w: World) {
    && (forall i :: 0 <= i < |w.exchanges| ==>
          var e := w.exchanges[i];
          && e.reply.answers == e.request && e.request.from == e.client
          && e.request.serial < |w.log| && w.log[e.request.serial] == e.request
          && (e.client < |w.phases| && !w.phases[e.client].Idle? ==>
                e.request.serial < w.phases[e.client].request.serial))
    && (forall i, j :: 0 <= i < j < |w.exchanges| ==>
          w.exchanges[i].request.serial != w.exchanges[j].request.serial)
  }

  ghost predicate Inv(w: World) {
    && |w.names| == |w.phases| && Distinct(w.names)
    && (forall c: nat :: c < |w.names| ==> PhaseOk(w, c))
    && TokensOk(w) && LogOk(w) && ExchangesOk(w)
    && |w.log| == |w.exchanges| + Busy(w.phases)
  }

  // ---------------------------------------------------------------- counting lemmas

  lemma CountAppend(s: seq<Request>, r: Request, q: string)
    ensures CountFor(s + [r], q) == CountFor(s, q) + (if r.responseQueue == q then 1 else 0)
  {
    assert (s + [r])[..|s|] == s;
  }

  lemma {:induction false} CountRemove(s: seq<Request>, i: nat, q: string)
    requires i < |s|
    ensures CountFor(s, q) == CountFor(RemoveAt(s, i), q) + (if s[i].responseQueue == q then 1 else 0)
  {
    var last := |s| - 1;
    if i == last {
      assert RemoveAt(s, i) == s[..last];
    } else {
      CountRemove(s[..last], i, q);
      CountAppend(RemoveAt(s[..last], i), s[last], q);
      assert RemoveAt(s, i) == RemoveAt(s[..last], i) + [s[last]];
    }
  }

  lemma {:induction false} CountWitness(s: seq<Request>, q: string)
    returns (i: nat)
    requires CountFor(s, q) > 0
    ensures i < |s| && s[i].responseQueue == q
  {
    if s[|s| - 1].responseQueue == q {
      i := |s| - 1;
    } else {
      i := CountWitness(s[..|s| - 1], q);
    }
  }

  lemma {:induction false} BusyUpdate(phases: seq<Phase>, c: nat, p: Phase)
    requires c < |phases|
    ensures Busy(phases[c := p]) + (if phases[c].Idle? then 0 else 1) == Busy(phases) + (if p.Idle? then 0 else 1)
  {
    var last := |phases| - 1;
    if c == last {
      assert phases[c := p][..last] == phases[..last];
    } else {
      BusyUpdate(phases[..last], c, p);
      assert phases[c := p][..last] == phases[..last][c := p];
    }
  }

  lemma {:induction false} BusyIdle(n: nat)
    ensures Busy(seq(n, _ => Idle)) == 0
  {
    var s: seq<Phase> := seq(n, _ => Idle);
    if n > 0 {
      BusyIdle(n - 1);
      assert s[..n - 1] == seq(n - 1, _ => Idle);
    }
  }

  // ---------------------------------------------------------------- every step keeps it

  lemma InitInv(names: seq<string>)
    requires Distinct(names)
    ensures Inv(Init(names))
  {
    BusyIdle(|names|);
  }

  lemma SendKeeps(w: World, step: Step, w': World)
    requires Inv(w) && step.Send? && Next(w, step) == Some(w')
    ensures Inv(w')
  {
    var c := step.client;
    var r := w'.log[|w.log|];
    BusyUpdate(w.phases, c, Waiting(r));
    forall d: nat | d < |w.names| ensures PhaseOk(w', d) {
      CountAppend(w.listener, r, w.names[d]);
      assert PhaseOk(w, d);
    }
    assert PhaseOk(w, c);
    if exists q, i :: q in w.mail && 0 <= i < |w.mail[q]| && w.mail[q][i].answers.from == c {
      assert false;
    }
  }

  lemma TakeKeeps(w: World, step: Step, w': World)
    requires Inv(w) && step.Take? && Next(w, step) == Some(w')
    ensures Inv(w')
  {
    forall d: nat | d < |w.names| ensures PhaseOk(w', d) {
      CountRemove(w.listener, step.slot, w.names[d]);
      CountAppend(w.held, w.listener[step.slot], w.names[d]);
      assert PhaseOk(w, d);
    }
  }

  lemma AnswerKeeps(w: World, step: Step, w': World)
    requires Inv(w) && step.Answer? && Next(w, step) == Some(w')
    ensures Inv(w')
  {
    forall d: nat | d < |w.names| ensures PhaseOk(w', d) {
      CountRemove(w.held, step.slot, w.names[d]);
      assert PhaseOk(w, d);
    }
    assert Awaited(w, w.held[step.slot]);
  }

  /** What is left anywhere for client c once it is not waiting: nothing. */
  lemma NothingLeft(w: World, c: nat)
    requires |w.names| == |w.phases| && c < |w.names| && InFlight(w, w.names[c]) == 0
    ensures forall i :: 0 <= i < |w.listener| ==> w.listener[i].responseQueue != w.names[c]
    ensures forall i :: 0 <= i < |w.held| ==> w.held[i].responseQueue != w.names[c]
    ensures Box(w.mail, w.names[c]) == []
  {
    forall i | 0 <= i < |w.listener| ensures w.listener[i].responseQueue != w.names[c] {
      CountRemove(w.listener, i, w.names[c]);
    }
    forall i | 0 <= i < |w.held| ensures w.held[i].responseQueue != w.names[c] {
      CountRemove(w.held, i, w.names[c]);
    }
  }

  lemma DeliverKeeps(w: World, step: Step, w': World)
    requires Inv(w) && step.Deliver? && Next(w, step) == Some(w')
    ensures Inv(w')
  {
    var c := step.client;
    var box := Box(w.mail, w.names[c]);
    BusyUpdate(w.phases, c, w'.phases[c]);
    assert PhaseOk(w, c);
    assert Awaited(w, box[0].answers);
    assert box[0].answers.from == c by {
      var d := box[0].answers.from;
      assert PhaseOk(w, d);
      assert w.names[d] == w.names[c];
    }
    assert InFlight(w', w'.names[c]) == 0;
    NothingLeft(w', c);
    forall r | Awaited(w, r) && r.responseQueue != w.names[c] ensures Awaited(w', r) {
      assert PhaseOk(w, r.from);
    }
    forall d: nat | d < |w.names| ensures PhaseOk(w', d) {
      assert PhaseOk(w, d);
    }
  }

  lemma AckExchanges(w: World, c: nat, w': World)
    requires Inv(w) && Next(w, Ack(c)) == Some(w')
    ensures ExchangesOk(w')
  {
    assert PhaseOk(w, c);
    var n := |w.exchanges|;
    forall i | 0 <= i < n ensures w'.exchanges[i].request.serial != w.phases[c].request.serial {
      var e := w.exchanges[i];
      assert w.log[e.request.serial] == e.request;
      assert e.request.serial == w.phases[c].request.serial ==> e.client == c;
    }
  }

  lemma AckKeeps(w: World, step: Step, w': World)
    requires Inv(w) && step.Ack? && Next(w, step) == Some(w')
    ensures Inv(w')
  {
    var c := step.client;
    BusyUpdate(w.phases, c, Idle);
    AckExchanges(w, c, w');
    forall d: nat | d < |w.names| ensures PhaseOk(w', d) {
      assert PhaseOk(w, d);
    }
  }

  lemma StepKeeps(w: World, step: Step, w': World)
    requires Inv(w) && !step.ReceiveFails? && Next(w, step) == Some(w')
    ensures Inv(w') && w'.names == w.names
  {
    match step
    case Send(_, _, _, _) => SendKeeps(w, step, w');
    case SendFails(_) =>
    case Take(_) => TakeKeeps(w, step, w');
    case Answer(_, _) => AnswerKeeps(w, step, w');
    case Deliver(_) => DeliverKeeps(w, step, w');
    case Ack(_) => AckKeeps(w, step, w');
  }

  lemma {:induction false} RunKeeps(w: World, steps: seq<Step>)
    requires Inv(w) && Reliable(steps) && Run(w, steps).Some?
    ensures Inv(Run(w, steps).value) && Run(w, steps).value.names == w.names
    decreases |steps|
  {
    if steps != [] {
      var before := steps[..|steps| - 1];
      RunKeeps(w, before);
      StepKeeps(Run(w, before).value, steps[|steps| - 1], Run(w, steps).value);
    }
  }
}
