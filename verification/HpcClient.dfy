/**
  The HPC client and its RabbitMQ connection as objects. Their methods take the client's
  own steps of the protocol on a broker that many clients and workers share; what everybody
  else does meanwhile is an arbitrary schedule of steps handed to the blocking receive.
 */
module HpcClient {
  import opened Wrappers
  import opened Protocol
  import opened ProtocolTheorems
  import opened ProtocolReplies

  /** The step belongs to somebody else than client c, and is not a failing receive. */
  predicate ForeignStep(step: Step, c: nat) {
    match step
    case Send(d, _, _, _) => d != c
    case SendFails(d) => d != c
    case Take(_) => true
    case Answer(_, _) => true
    case Deliver(d) => d != c
    case Ack(d) => d != c
    case ReceiveFails(_) => false
  }

  predicate Foreign(schedule: seq<Step>, c: nat) {
    forall i :: 0 <= i < |schedule| ==> ForeignStep(schedule[i], c)
  }

  /** Client c is where it was; the others may have published more. */
  ghost predicate SameForClient(w: World, v: World, c: nat)
    requires c < |w.phases|
  {
    v.names == w.names && |v.phases| == |w.phases| && v.phases[c] == w.phases[c] && w.log <= v.log
  }

  lemma ForeignKeepsClient(w: World, step: Step, c: nat, w': World)
    requires ForeignStep(step, c) && c < |w.phases| && Next(w, step) == Some(w')
    ensures SameForClient(w, w', c)
  {
  }

  lemma ReachableStep(w: World, trace: seq<Step>, step: Step, v: World)
    requires Reachable(w, trace) && !step.ReceiveFails? && Next(w, step) == Some(v)
    ensures Reachable(v, trace + [step]) && v.names == w.names
  {
    RunOne(Init(w.names), trace, step, w);
  }

  /** The queues, and the name of the one that all requests go to. */
  class Broker {
    const listener: string
    var world: World
    ghost var trace: seq<Step>

    /** The queues are what some run of clients with distinct response queues leaves. */
    ghost predicate Valid()
      reads this
    {
      Reachable(world, trace)
    }

    constructor (listener: string, names: seq<string>)
      requires Distinct(names)
      ensures Valid() && world == Init(names) && this.listener == listener
    {
      this.listener := listener;
      world := Init(names);
      trace := [];
    }

    method Perform(step: Step) returns (done: bool)
      requires Valid() && !step.ReceiveFails?
      modifies this
      ensures Valid() && world.names == old(world.names) && old(trace) <= trace
      ensures done == Next(old(world), step).Some?
      ensures world == if done then Next(old(world), step).value else old(world)
    {
      var after := Next(world, step);
      done := after.Some?;
      if done {
        ReachableStep(world, trace, step, after.value);
        world := after.value;
        trace := trace + [step];
      }
    }
  }

  /** What a connection asked the broker to do. */
  datatype Op = Declare(queue: string) | Publish(queue: string) | Consume(queue: string) | Acknowledge

  /** The queues declared by ops, in order. */
  function Declared(ops: seq<Op>): seq<string> {
    if ops == [] then []
    else
      var last := ops[|ops| - 1];
      Declared(ops[..|ops| - 1]) + (if last.Declare? then [last.queue] else [])
  }

  /** No queue is published to or consumed from before it is declared. */
  predicate UsedAfterDeclared(ops: seq<Op>) {
    ops == [] ||
    var before, last := ops[..|ops| - 1], ops[|ops| - 1];
    UsedAfterDeclared(before) && (last.Publish? || last.Consume? ==> last.queue in Declared(before))
  }

  lemma DeclaredSnoc(ops: seq<Op>, op: Op)
    ensures Declared(ops + [op]) == Declared(ops) + (if op.Declare? then [op.queue] else [])
    ensures UsedAfterDeclared(ops + [op]) <==>
              UsedAfterDeclared(ops) && (op.Publish? || op.Consume? ==> op.queue in Declared(ops))
  {
    assert (ops + [op])[..|ops|] == ops;
  }

  /** Whatever is published to or consumed from was declared earlier. */
  ghost predicate DeclaredBeforeUse(ops: seq<Op>) {
    forall k :: 0 <= k < |ops| && (ops[k].Publish? || ops[k].Consume?) ==> Declare(ops[k].queue) in ops[..k]
  }

  ghost predicate DeclaredOnce(ops: seq<Op>) {
    forall j, k :: 0 <= j < k < |ops| && ops[j].Declare? ==> ops[j] != ops[k]
  }

  lemma {:induction false} DeclaredIff(ops: seq<Op>, queue: string)
    ensures queue in Declared(ops) <==> Declare(queue) in ops
  {
    if ops != [] {
      var k := |ops| - 1;
      DeclaredIff(ops[..k], queue);
      assert ops == ops[..k] + [ops[k]];
    }
  }

  lemma {:induction false} UsedAfterDeclaredIff(ops: seq<Op>)
    ensures UsedAfterDeclared(ops) <==> DeclaredBeforeUse(ops)
  {
    if ops != [] {
      var k := |ops| - 1;
      var front := ops[..k];
      UsedAfterDeclaredIff(front);
      if ops[k].Publish? || ops[k].Consume? {
        DeclaredIff(front, ops[k].queue);
      }
      assert forall i :: 0 <= i < k ==> front[..i] == ops[..i];
      assert forall i :: 0 <= i < k ==> front[i] == ops[i];
    }
  }

  ghost predicate NoneTwice(queues: seq<string>) {
    forall i, j :: 0 <= i < j < |queues| ==> queues[i] != queues[j]
  }

  lemma {:induction false} DeclaredOnceIf(ops: seq<Op>)
    requires NoneTwice(Declared(ops))
    ensures DeclaredOnce(ops)
  {
    if ops != [] {
      var k := |ops| - 1;
      var front := ops[..k];
      assert forall i :: 0 <= i < |Declared(front)| ==> Declared(front)[i] == Declared(ops)[i];
      DeclaredOnceIf(front);
      if ops[k].Declare? {
        DeclaredIff(front, ops[k].queue);
        LastIsNew(Declared(front), ops[k].queue);
      }
      assert forall i :: 0 <= i < k ==> front[i] == ops[i];
    }
  }

  lemma LastIsNew(queues: seq<string>, queue: string)
    requires NoneTwice(queues + [queue])
    ensures queue !in queues
  {
    var all := queues + [queue];
    assert forall i :: 0 <= i < |queues| ==> all[i] == queues[i] && all[i] != all[|queues|];
  }

  /** The cache of declared queues after declareQueue. */
  function WithQueue(queues: seq<string>, queue: string): seq<string> {
    if queue in queues then queues else queues + [queue]
  }

  lemma TwoQueues(a: string, b: string)
    ensures WithQueue(WithQueue([], a), b) == if a == b then [b] else [a, b]
  {
    assert WithQueue([], a) == [a];
  }

  /** What a receive asks for: the queue is declared if it was not, consumed from, and a
      delivered message is acknowledged once. */
  function ReceiveOps(queue: string, declared: bool, delivered: bool): seq<Op> {
    (if declared then [] else [Declare(queue)]) + [Consume(queue)] + (if delivered then [Acknowledge] else [])
  }

  lemma ReceiveOpsAre(before: seq<Op>, after: seq<Op>, queue: string, declared: bool)
    requires after == (if declared then before else before + [Declare(queue)]) + [Consume(queue)]
    ensures after == before + ReceiveOps(queue, declared, false)
    ensures after + [Acknowledge] == before + ReceiveOps(queue, declared, true)
  {
  }

  class RabbitMQClient {
    const broker: Broker
    const client: nat
    var mQueues: seq<string>
    ghost var ops: seq<Op>

    /** The cache is exactly what was declared, and nothing was declared twice. */
    ghost predicate Valid()
      reads this
    {
      && mQueues == Declared(ops)
      && forall i, j :: 0 <= i < j < |mQueues| ==> mQueues[i] != mQueues[j]
    }

    constructor (broker: Broker, client: nat)
      ensures Valid() && this.broker == broker && this.client == client && mQueues == [] && ops == []
      ensures UsedAfterDeclared(ops)
    {
      this.broker := broker;
      this.client := client;
      mQueues := [];
      ops := [];
    }

    method DeclareQueue(queueName: string)
      requires Valid()
      modifies this
      ensures Valid()
      ensures mQueues == WithQueue(old(mQueues), queueName)
      ensures ops == if queueName in old(mQueues) then old(ops) else old(ops) + [Declare(queueName)]
      ensures UsedAfterDeclared(old(ops)) ==> UsedAfterDeclared(ops)
    {
      if queueName in mQueues {
        return;
      }
      DeclaredSnoc(ops, Declare(queueName));
      ops := ops + [Declare(queueName)];
      mQueues := mQueues + [queueName];
    }

    ghost method Record(op: Op)
      requires Valid() && !op.Declare?
      modifies `ops
      ensures Valid() && ops == old(ops) + [op]
    {
      DeclaredSnoc(ops, op);
      ops := ops + [op];
    }

    /** A request for the listener queue; `broken` stands for a publish that the connection rejects. */
    method SendTo(queue: string, verb: Verb, path: string, data: string, broken: bool) returns (err: int)
      requires Valid() && broker.Valid() && queue == broker.listener
      requires client < |broker.world.names| && client < |broker.world.phases| && broker.world.phases[client].Idle?
      modifies this, broker
      ensures Valid() && mQueues == old(mQueues) && ops == old(ops) + [Publish(queue)]
      ensures broker.Valid() && old(broker.trace) <= broker.trace && (err != 0 <==> broken)
      ensures broken ==> broker.world == old(broker.world)
      ensures !broken ==> Next(old(broker.world), Send(client, verb, path, data)) == Some(broker.world)
    {
      Record(Publish(queue));
      var step := if broken then SendFails(client) else Send(client, verb, path, data);
      var done := broker.Perform(step);
      err := if broken then 1 else 0;
    }

    /** One step of somebody else, if it is possible. */
    method Other(step: Step)
      requires broker.Valid() && ForeignStep(step, client) && client < |broker.world.phases|
      modifies broker
      ensures broker.Valid() && SameForClient(old(broker.world), broker.world, client)
      ensures old(broker.trace) <= broker.trace
    {
      ghost var before := broker.world;
      var done := broker.Perform(step);
      if done {
        ForeignKeepsClient(before, step, client, broker.world);
      }
    }

    /** The blocking wait: everybody else acts until the queue has a message or the schedule ends. */
    method Await(queue: string, schedule: seq<Step>) returns (k: nat)
      requires broker.Valid() && Foreign(schedule, client) && client < |broker.world.phases|
      modifies broker
      ensures broker.Valid() && SameForClient(old(broker.world), broker.world, client)
      ensures old(broker.trace) <= broker.trace
      ensures k <= |schedule| && (Box(broker.world.mail, queue) == [] ==> k == |schedule|)
    {
      k := 0;
      while k < |schedule| && Box(broker.world.mail, queue) == []
        invariant k <= |schedule| && broker.Valid()
        invariant SameForClient(old(broker.world), broker.world, client) && old(broker.trace) <= broker.trace
      {
        Other(schedule[k]);
        k := k + 1;
      }
    }

    /** Everybody else acts. */
    method Others(schedule: seq<Step>)
      requires broker.Valid() && Foreign(schedule, client) && client < |broker.world.phases|
      modifies broker
      ensures broker.Valid() && SameForClient(old(broker.world), broker.world, client)
      ensures old(broker.trace) <= broker.trace
    {
      for k := 0 to |schedule|
        invariant broker.Valid() && SameForClient(old(broker.world), broker.world, client)
        invariant old(broker.trace) <= broker.trace
      {
        Other(schedule[k]);
      }
    }

    /** Takes the message at the front of the response queue and, after others have acted,
        acknowledges it. */
    method TakeMessage(meanwhile: seq<Step>) returns (text: string)
      requires broker.Valid() && Foreign(meanwhile, client)
      requires client < |broker.world.names| && client < |broker.world.phases|
      requires broker.world.phases[client].Waiting? && Box(broker.world.mail, broker.world.names[client]) != []
      modifies broker
      ensures broker.Valid() && Received(old(broker.world), broker.world, client, Some(text))
      ensures old(broker.trace) <= broker.trace
    {
      Delivered(broker.world, broker.trace, client);
      var delivered := broker.Perform(Deliver(client));
      ghost var holding := broker.world;
      text := broker.world.phases[client].reply.body;
      Others(meanwhile);
      Acknowledged(old(broker.world), holding, broker.world, client);
      var acknowledged := broker.Perform(Ack(client));
    }

    /** Blocks until the response queue has a message, then delivers and acknowledges it; what is
        left of the schedule is done between the two. None: the schedule ended before a reply
        came, and the call is still blocked. */
    method Receive(queue: string, schedule: seq<Step>) returns (body: Option<string>)
      requires Valid() && broker.Valid() && Foreign(schedule, client)
      requires client < |broker.world.names| && client < |broker.world.phases|
      requires queue == broker.world.names[client] && broker.world.phases[client].Waiting?
      modifies this, broker
      ensures Valid() && broker.Valid() && old(broker.trace) <= broker.trace
      ensures mQueues == WithQueue(old(mQueues), queue)
      ensures ops == old(ops) + ReceiveOps(queue, queue in old(mQueues), body.Some?)
      ensures Received(old(broker.world), broker.world, client, body)
      ensures body.Some? ==> Posted(broker.world.names, 0, broker.trace,
                                    Reply(body.value, old(broker.world).phases[client].request))
    {
      DeclareQueue(queue);
      Record(Consume(queue));
      ReceiveOpsAre(old(ops), ops, queue, queue in old(mQueues));
      var k := Await(queue, schedule);
      if Box(broker.world.mail, queue) == [] {
        return None;
      }
      ghost var blocked := broker.world;
      var text := TakeMessage(schedule[k..]);
      ReceivedLater(old(broker.world), blocked, broker.world, client, text);
      BodyWasPosted(old(broker.world), broker.world, broker.trace, client, text);
      Record(Acknowledge);
      return Some(text);
    }
  }

  /** What a blocking receive of client c leaves: either c is still blocked on an empty queue,
      or its call is complete with the body of the reply to the request it was waiting for. */
  ghost predicate Received(before: World, after: World, c: nat, body: Option<string>)
    requires c < |before.names| && c < |before.phases| && before.phases[c].Waiting?
  {
    && after.names == before.names && |after.phases| == |before.phases| && before.log <= after.log
    && match body
       case None => after.phases[c] == before.phases[c] && Box(after.mail, after.names[c]) == []
       case Some(text) =>
         && after.phases[c].Idle? && after.exchanges != []
         && var e := after.exchanges[|after.exchanges| - 1];
            e.client == c && e.request == before.phases[c].request
            && e.reply.answers == e.request && e.reply.body == text
  }

  /** The reply was posted by a worker, at the given step of the trace or later, and while the
      worker held the request that it answers. */
  ghost predicate Posted(names: seq<string>, from: nat, trace: seq<Step>, reply: Reply) {
    exists k: nat :: from <= k && PostedAt(names, trace, k, reply)
  }

  lemma BodyWasPosted(before: World, after: World, trace: seq<Step>, c: nat, text: string)
    requires c < |before.names| && c < |before.phases| && before.phases[c].Waiting?
    requires Reachable(after, trace) && Received(before, after, c, Some(text))
    ensures Posted(after.names, 0, trace, Reply(text, before.phases[c].request))
  {
    var k := ExchangeWasPosted(after.names, trace, |after.exchanges| - 1);
  }

  /** The reply to a request that a call publishes is posted during that call. */
  lemma PostedMeanwhile(w: World, earlier: seq<Step>, trace: seq<Step>, reply: Reply)
    requires Reachable(w, earlier) && earlier <= trace && reply.answers.serial >= |w.log|
    requires Posted(w.names, 0, trace, reply)
    ensures Posted(w.names, |earlier|, trace, reply)
  {
    var k: nat :| PostedAt(w.names, trace, k, reply);
    PostedLater(w.names, earlier, trace, k, reply);
  }

  lemma ReceivedLater(before: World, blocked: World, after: World, c: nat, text: string)
    requires c < |before.names| && c < |before.phases| && before.phases[c].Waiting?
    requires blocked.names == before.names && |blocked.phases| == |before.phases|
    requires blocked.phases[c] == before.phases[c] && before.log <= blocked.log
    requires Received(blocked, after, c, Some(text))
    ensures Received(before, after, c, Some(text))
  {
  }

  /** Delivery, when the response queue has a message, hands the client its own reply. */
  lemma Delivered(w: World, trace: seq<Step>, c: nat)
    requires Reachable(w, trace) && c < |w.names| && c < |w.phases|
    requires w.phases[c].Waiting? && Box(w.mail, w.names[c]) != []
    ensures Next(w, Deliver(c)).Some? && OwnReplyHeld(w, Next(w, Deliver(c)).value, c)
  {
    DeliveredReplyIsOwn(w, trace, c, Next(w, Deliver(c)).value);
  }

  /** In d, client c holds the reply to the request that it waited for in w. */
  ghost predicate OwnReplyHeld(w: World, d: World, c: nat)
    requires c < |w.phases| && w.phases[c].Waiting?
  {
    && d.names == w.names && |d.phases| == |w.phases| && d.log == w.log
    && d.phases[c].Holding? && d.phases[c].request == w.phases[c].request
    && d.phases[c].reply.answers == w.phases[c].request
  }

  /** Acknowledging it later completes the call. */
  lemma Acknowledged(w: World, d: World, x: World, c: nat)
    requires c < |w.names| && c < |w.phases| && w.phases[c].Waiting? && OwnReplyHeld(w, d, c)
    requires SameForClient(d, x, c)
    ensures Next(x, Ack(c)).Some? && Received(w, Next(x, Ack(c)).value, c, Some(d.phases[c].reply.body))
  {
  }

  /** What a whole call leaves: its request was published next, and `body`, if the call is
      over, is the body of the reply to exactly that request. */
  ghost predicate Called(before: World, after: World, c: nat, verb: Verb, path: string, data: string,
                         body: Option<string>)
  {
    && c < |before.names| && after.names == before.names && c < |after.phases|
    && var r := Request(verb, path, data, before.names[c], |before.log|, c);
       && before.log + [r] <= after.log
       && match body
          case None => after.phases[c] == Waiting(r) && Box(after.mail, after.names[c]) == []
          case Some(text) =>
            && after.phases[c].Idle? && after.exchanges != []
            && var e := after.exchanges[|after.exchanges| - 1];
               e.client == c && e.request == r && e.reply.answers == r && e.reply.body == text
  }

  /** The text that a call returns is what some worker posted during the call, while it held the
      request that this call had published. */
  ghost predicate Answered(before: World, earlier: seq<Step>, trace: seq<Step>, c: nat, verb: Verb, path: string,
                           data: string, body: Option<string>)
    requires c < |before.names|
  {
    body.Some? ==>
      Posted(before.names, |earlier|, trace,
             Reply(body.value, Request(verb, path, data, before.names[c], |before.log|, c)))
  }

  // `host` and `uuid` stand for the host name and the random identifier.
  const DEFAULT_LISTENER := "qoffload_api_request_reception_queue_"
  const RESPONSE_PREFIX := "response_queue_"

  function ListenerName(configured: string, host: string): string {
    if configured == "" then DEFAULT_LISTENER + host else configured
  }

  function ResponseName(host: string, uuid: string): string
    requires |uuid| >= 8
  {
    RESPONSE_PREFIX + host + "_" + uuid[..8]
  }

  /** The connection of a new client: the listener queue and its response queue are declared. */
  method Connect(broker: Broker, client: nat, offload: string, response: string) returns (rabbit: RabbitMQClient)
    ensures fresh(rabbit) && rabbit.Valid() && rabbit.broker == broker && rabbit.client == client
    ensures rabbit.mQueues == WithQueue(WithQueue([], offload), response)
    ensures UsedAfterDeclared(rabbit.ops)
  {
    rabbit := new RabbitMQClient(broker, client);
    rabbit.DeclareQueue(offload);
    rabbit.DeclareQueue(response);
  }

  class MQSSHPCClient {
    const mRabbitmqClient: RabbitMQClient
    const mOffloadListenerQueueName: string
    const mResponseQueueName: string

    ghost predicate Valid()
      reads this, mRabbitmqClient, mRabbitmqClient.broker
    {
      var b := mRabbitmqClient.broker;
      && mRabbitmqClient.Valid()
      && mRabbitmqClient.client < |b.world.names| && mRabbitmqClient.client < |b.world.phases|
      && b.world.names[mRabbitmqClient.client] == mResponseQueueName && b.listener == mOffloadListenerQueueName
      && mOffloadListenerQueueName in mRabbitmqClient.mQueues && mResponseQueueName in mRabbitmqClient.mQueues
      && UsedAfterDeclared(mRabbitmqClient.ops)
    }

    /** The next call may start. */
    ghost predicate Ready()
      requires Valid()
      reads this, mRabbitmqClient, mRabbitmqClient.broker
    {
      mRabbitmqClient.broker.world.phases[mRabbitmqClient.client].Idle?
    }

    /** Connecting declares the listener queue and the client's own response queue. */
    constructor (offload: string, response: string, broker: Broker, client: nat)
      requires client < |broker.world.names| && client < |broker.world.phases|
      requires broker.world.names[client] == response && broker.listener == offload
      ensures Valid() && fresh(mRabbitmqClient)
      ensures mRabbitmqClient.broker == broker && mRabbitmqClient.client == client
      ensures mOffloadListenerQueueName == offload && mResponseQueueName == response
      ensures mRabbitmqClient.mQueues == if offload == response then [response] else [offload, response]
    {
      TwoQueues(offload, response);
      var rabbit := Connect(broker, client, offload, response);
      mOffloadListenerQueueName := offload;
      mResponseQueueName := response;
      mRabbitmqClient := rabbit;
    }

    /** Publish, then block: the part common to get, post and a del that was sent. */
    method Call(verb: Verb, path: string, data: string, broken: bool, schedule: seq<Step>)
      returns (err: int, body: Option<string>)
      requires Valid() && Ready() && mRabbitmqClient.broker.Valid() && Foreign(schedule, mRabbitmqClient.client)
      modifies mRabbitmqClient, mRabbitmqClient.broker
      ensures Valid() && mRabbitmqClient.broker.Valid() && mRabbitmqClient.mQueues == old(mRabbitmqClient.mQueues)
      ensures err != 0 <==> broken
      ensures broken ==> body == None && mRabbitmqClient.broker.world == old(mRabbitmqClient.broker.world)
      ensures !broken ==> Called(old(mRabbitmqClient.broker.world), mRabbitmqClient.broker.world,
                                 mRabbitmqClient.client, verb, path, data, body)
      ensures Answered(old(mRabbitmqClient.broker.world), old(mRabbitmqClient.broker.trace),
                       mRabbitmqClient.broker.trace, mRabbitmqClient.client, verb, path, data, body)
    {
      ghost var before, earlier := mRabbitmqClient.broker.world, mRabbitmqClient.broker.trace;
      ghost var ops := mRabbitmqClient.ops;
      DeclaredSnoc(ops, Publish(mOffloadListenerQueueName));
      err := mRabbitmqClient.SendTo(mOffloadListenerQueueName, verb, path, data, broken);
      if err != 0 {
        return err, None;
      }
      ops := mRabbitmqClient.ops;
      DeclaredSnoc(ops, Consume(mResponseQueueName));
      DeclaredSnoc(ops + [Consume(mResponseQueueName)], Acknowledge);
      body := mRabbitmqClient.Receive(mResponseQueueName, schedule);
      if body.Some? {
        PostedMeanwhile(before, earlier, mRabbitmqClient.broker.trace,
                        Reply(body.value, Request(verb, path, data, mResponseQueueName, |before.log|,
                                                  mRabbitmqClient.client)));
      }
      ReceiveOpsAre(ops, ops + [Consume(mResponseQueueName)], mResponseQueueName, true);
    }

    method Get(path: string, schedule: seq<Step>) returns (response: Option<string>)
      requires Valid() && Ready() && mRabbitmqClient.broker.Valid() && Foreign(schedule, mRabbitmqClient.client)
      modifies mRabbitmqClient, mRabbitmqClient.broker
      ensures Valid() && mRabbitmqClient.broker.Valid() && mRabbitmqClient.mQueues == old(mRabbitmqClient.mQueues)
      ensures Called(old(mRabbitmqClient.broker.world), mRabbitmqClient.broker.world,
                     mRabbitmqClient.client, GET, path, "", response)
      ensures Answered(old(mRabbitmqClient.broker.world), old(mRabbitmqClient.broker.trace),
                       mRabbitmqClient.broker.trace, mRabbitmqClient.client, GET, path, "", response)
    {
      var err;
      err, response := Call(GET, path, "", false, schedule);
    }

    method Post(path: string, data: string, schedule: seq<Step>) returns (response: Option<string>)
      requires Valid() && Ready() && mRabbitmqClient.broker.Valid() && Foreign(schedule, mRabbitmqClient.client)
      modifies mRabbitmqClient, mRabbitmqClient.broker
      ensures Valid() && mRabbitmqClient.broker.Valid() && mRabbitmqClient.mQueues == old(mRabbitmqClient.mQueues)
      ensures Called(old(mRabbitmqClient.broker.world), mRabbitmqClient.broker.world,
                     mRabbitmqClient.client, POST, path, data, response)
      ensures Answered(old(mRabbitmqClient.broker.world), old(mRabbitmqClient.broker.trace),
                       mRabbitmqClient.broker.trace, mRabbitmqClient.client, POST, path, data, response)
    {
      var err;
      err, response := Call(POST, path, data, false, schedule);
    }

    /** Throws, leaving every queue as it was, when the request cannot be sent. */
    method Del(path: string, broken: bool, schedule: seq<Step>) returns (r: Result<Option<string>, string>)
      requires Valid() && Ready() && mRabbitmqClient.broker.Valid() && Foreign(schedule, mRabbitmqClient.client)
      modifies mRabbitmqClient, mRabbitmqClient.broker
      ensures Valid() && mRabbitmqClient.broker.Valid() && mRabbitmqClient.mQueues == old(mRabbitmqClient.mQueues)
      ensures r.Err? <==> broken
      ensures broken ==> r == Err("Failed to send HPC cancellation request")
      ensures broken ==> Ready() && mRabbitmqClient.broker.world == old(mRabbitmqClient.broker.world)
      ensures r.Ok? ==> Called(old(mRabbitmqClient.broker.world), mRabbitmqClient.broker.world,
                               mRabbitmqClient.client, DELETE, path, "", r.value)
      ensures r.Ok? ==> Answered(old(mRabbitmqClient.broker.world), old(mRabbitmqClient.broker.trace),
                                 mRabbitmqClient.broker.trace, mRabbitmqClient.client, DELETE, path, "", r.value)
    {
      var err, body := Call(DELETE, path, "", broken, schedule);
      if err != 0 {
        return Err("Failed to send HPC cancellation request");
      }
      return Ok(body);
    }
  }

  /** One call a program makes on its client, with what everybody else does meanwhile. */
  datatype ClientCall = ClientCall(verb: Verb, path: string, data: string, broken: bool, schedule: seq<Step>)

  /** The calls of a session, up to the first that never returns. */
  method MakeCalls(client: MQSSHPCClient, calls: seq<ClientCall>) returns (completed: nat)
    requires client.Valid() && client.Ready() && client.mRabbitmqClient.broker.Valid()
    requires forall i :: 0 <= i < |calls| ==> Foreign(calls[i].schedule, client.mRabbitmqClient.client)
    modifies client.mRabbitmqClient, client.mRabbitmqClient.broker
    ensures client.Valid() && client.mRabbitmqClient.broker.Valid()
    ensures completed <= |calls| && (completed == |calls| ==> client.Ready())
    ensures client.mRabbitmqClient.mQueues == old(client.mRabbitmqClient.mQueues)
  {
    completed := 0;
    while completed < |calls|
      invariant completed <= |calls| && client.Valid() && client.mRabbitmqClient.broker.Valid() && client.Ready()
      invariant client.mRabbitmqClient.mQueues == old(client.mRabbitmqClient.mQueues)
    {
      var call := calls[completed];
      var response: Option<string>;
      match call.verb {
        case GET => response := client.Get(call.path, call.schedule);
        case POST => response := client.Post(call.path, call.data, call.schedule);
        case DELETE =>
          var r := client.Del(call.path, call.broken, call.schedule);
          response := if r.Ok? then r.value else Some("");
      }
      if response.None? {
        return;
      }
      completed := completed + 1;
    }
  }

  lemma UsedAsDeclared(ops: seq<Op>)
    requires UsedAfterDeclared(ops) && NoneTwice(Declared(ops))
    ensures DeclaredBeforeUse(ops) && DeclaredOnce(ops)
  {
    UsedAfterDeclaredIff(ops);
    DeclaredOnceIf(ops);
  }

  /** A whole session of one client, constructor first, up to the first call that never returns:
      every queue is declared before it is used, none is declared twice, and the declarations of
      the constructor are the only ones. */
  method Session(listenerQueue: string, host: string, uuid: string, broker: Broker, id: nat, calls: seq<ClientCall>)
    returns (client: MQSSHPCClient, completed: nat)
    requires broker.Valid() && |uuid| >= 8 && id < |broker.world.names| && id < |broker.world.phases|
    requires broker.listener == ListenerName(listenerQueue, host)
    requires broker.world.names[id] == ResponseName(host, uuid) && broker.world.phases[id].Idle?
    requires forall i :: 0 <= i < |calls| ==> Foreign(calls[i].schedule, id)
    modifies broker
    ensures client.Valid() && broker.Valid() && completed <= |calls| && (completed == |calls| ==> client.Ready())
    ensures DeclaredBeforeUse(client.mRabbitmqClient.ops) && DeclaredOnce(client.mRabbitmqClient.ops)
    ensures forall q :: Declare(q) in client.mRabbitmqClient.ops <==> q in client.mRabbitmqClient.mQueues
    ensures forall q :: q in client.mRabbitmqClient.mQueues <==>
              || q == (if listenerQueue == "" then "qoffload_api_request_reception_queue_" + host else listenerQueue)
              || q == "response_queue_" + host + "_" + uuid[..8]
  {
    client := new MQSSHPCClient(ListenerName(listenerQueue, host), ResponseName(host, uuid), broker, id);
    completed := MakeCalls(client, calls);
    UsedAsDeclared(client.mRabbitmqClient.ops);
    forall q ensures Declare(q) in client.mRabbitmqClient.ops <==> q in client.mRabbitmqClient.mQueues {
      DeclaredIff(client.mRabbitmqClient.ops, q);
    }
  }
}
