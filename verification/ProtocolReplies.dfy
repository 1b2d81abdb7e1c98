/**
  Where replies come from and where they go, over every run, failing receives included: what
  workers post to a client's queue is what its calls complete with, then what it holds, then
  what still waits, in the order of posting.
 */
module ProtocolReplies {
  import opened Wrappers
  import opened Protocol
  import opened ProtocolTheorems
  import opened ProtocolFailures

  /** The k-th step is a worker answering the request that the reply answers, with that body. */
  ghost predicate PostedAt(names: seq<string>, steps: seq<Step>, k: nat, reply: Reply) {
    && k < |steps| && steps[k].Answer? && steps[k].body == reply.body
    && match Run(Init(names), steps[..k])
       case None => false
       case Some(u) => steps[k].slot < |u.held| && u.held[steps[k].slot] == reply.answers
  }

  /** The replies posted to a response queue, in order. */
  ghost function Posts(names: seq<string>, steps: seq<Step>, queue: string): seq<Reply>
    decreases |steps|
  {
    if steps == [] then []
    else
      var front, last := steps[..|steps| - 1], steps[|steps| - 1];
      Posts(names, front, queue) +
      match Run(Init(names), front)
      case None => []
      case Some(u) =>
        if last.Answer? && last.slot < |u.held| && u.held[last.slot].responseQueue == queue
        then [Reply(last.body, u.held[last.slot])] else []
  }

  /** The replies with which calls of client c completed, in order. */
  function RepliesTo(exchanges: seq<Exchange>, c: nat): seq<Reply> {
    if exchanges == [] then []
    else
      var last := exchanges[|exchanges| - 1];
      RepliesTo(exchanges[..|exchanges| - 1], c) + (if last.client == c then [last.reply] else [])
  }

  /** Every reply that client c was ever given or may yet be given. */
  function AllReplies(w: World, c: nat): seq<Reply>
    requires c < |w.names| == |w.phases|
  {
    RepliesTo(w.exchanges, c) + (if w.phases[c].Holding? then [w.phases[c].reply] else [])
    + Box(w.mail, w.names[c])
  }

  function NewPost(w: World, step: Step, queue: string): seq<Reply> {
    if step.Answer? && step.slot < |w.held| && w.held[step.slot].responseQueue == queue
    then [Reply(step.body, w.held[step.slot])] else []
  }

  lemma DeliverMoves(w: World, d: nat, w': World, c: nat)
    requires |w.names| == |w.phases| && Distinct(w.names)
    requires Next(w, Deliver(d)) == Some(w') && c < |w.names|
    ensures AllReplies(w', c) == AllReplies(w, c)
  {
    if d == c {
      var box := Box(w.mail, w.names[c]);
      assert [box[0]] + box[1..] == box;
      assert RepliesTo(w.exchanges, c) + [box[0]] + box[1..] == RepliesTo(w.exchanges, c) + [] + box;
    } else {
      assert w.names[d] != w.names[c];
    }
  }

  lemma AckMoves(w: World, d: nat, w': World, c: nat)
    requires |w.names| == |w.phases| && Next(w, Ack(d)) == Some(w') && c < |w.names|
    ensures AllReplies(w', c) == AllReplies(w, c)
  {
    assert w'.exchanges[..|w.exchanges|] == w.exchanges;
    if d == c {
      assert RepliesTo(w.exchanges, c) + [w.phases[c].reply] + [] == RepliesTo(w.exchanges, c) + [w.phases[c].reply];
    }
  }

  lemma AnswerPosts(w: World, i: nat, body: string, w': World, c: nat)
    requires |w.names| == |w.phases| && Next(w, Answer(i, body)) == Some(w') && c < |w.names|
    ensures AllReplies(w', c) == AllReplies(w, c) + NewPost(w, Answer(i, body), w.names[c])
  {
    var r := w.held[i];
    if r.responseQueue == w.names[c] {
      assert Box(w'.mail, w.names[c]) == Box(w.mail, w.names[c]) + [Reply(body, r)];
    } else {
      assert Box(w'.mail, w.names[c]) == Box(w.mail, w.names[c]);
    }
  }

  /** A step adds to a client's replies exactly what it posts to the client's queue. */
  lemma StepConserves(w: World, step: Step, w': World, c: nat)
    requires |w.names| == |w.phases| && Distinct(w.names) && Next(w, step) == Some(w') && c < |w.names|
    ensures w'.names == w.names && |w'.phases| == |w.phases|
    ensures AllReplies(w', c) == AllReplies(w, c) + NewPost(w, step, w.names[c])
  {
    match step
    case Deliver(d) => DeliverMoves(w, d, w', c);
    case Ack(d) => AckMoves(w, d, w', c);
    case Answer(i, body) => AnswerPosts(w, i, body, w', c);
    case _ =>
  }

  /** After any run, the replies posted to a client's queue are those of its completed calls, the
      one it holds and those still waiting, in this order: none lost, none twice, none from
      elsewhere, and first in, first out. */
  lemma {:induction false} RepliesConserved(names: seq<string>, steps: seq<Step>, c: nat)
    requires Distinct(names) && Run(Init(names), steps).Some? && c < |names|
    ensures var w := Run(Init(names), steps).value;
            w.names == names && |w.phases| == |names| && Posts(names, steps, names[c]) == AllReplies(w, c)
    decreases |steps|
  {
    if steps != [] {
      var front := steps[..|steps| - 1];
      RepliesConserved(names, front, c);
      StepConserves(Run(Init(names), front).value, steps[|steps| - 1], Run(Init(names), steps).value, c);
    }
  }

  lemma {:induction false} PostsAreSteps(names: seq<string>, steps: seq<Step>, queue: string, reply: Reply)
    returns (k: nat)
    requires reply in Posts(names, steps, queue)
    ensures PostedAt(names, steps, k, reply)
    decreases |steps|
  {
    var front := steps[..|steps| - 1];
    if reply in Posts(names, front, queue) {
      k := PostsAreSteps(names, front, queue, reply);
      assert steps[..k] == front[..k];
    } else {
      k := |steps| - 1;
    }
  }

  lemma {:induction false} InReplies(exchanges: seq<Exchange>, i: nat)
    requires i < |exchanges|
    ensures exchanges[i].reply in RepliesTo(exchanges, exchanges[i].client)
  {
    if i < |exchanges| - 1 {
      InReplies(exchanges[..|exchanges| - 1], i);
    }
  }

  predicate KnownClients(w: World, n: nat) {
    |w.phases| == n && forall i :: 0 <= i < |w.exchanges| ==> w.exchanges[i].client < n
  }

  lemma StepClients(w: World, step: Step, w': World, n: nat)
    requires KnownClients(w, n) && Next(w, step) == Some(w')
    ensures KnownClients(w', n)
  {
  }

  lemma {:induction false} ExchangeClients(names: seq<string>, steps: seq<Step>)
    requires Run(Init(names), steps).Some?
    ensures KnownClients(Run(Init(names), steps).value, |names|)
    decreases |steps|
  {
    if steps != [] {
      var front := steps[..|steps| - 1];
      ExchangeClients(names, front);
      StepClients(Run(Init(names), front).value, steps[|steps| - 1], Run(Init(names), steps).value, |names|);
    }
  }

  /** A completed call holds the text that some worker posted, for the request that this worker
      held when it posted it. */
  lemma ExchangeWasPosted(names: seq<string>, steps: seq<Step>, i: nat) returns (k: nat)
    requires Distinct(names) && Run(Init(names), steps).Some?
    requires i < |Run(Init(names), steps).value.exchanges|
    ensures PostedAt(names, steps, k, Run(Init(names), steps).value.exchanges[i].reply)
  {
    var w := Run(Init(names), steps).value;
    var c := w.exchanges[i].client;
    ExchangeClients(names, steps);
    RepliesConserved(names, steps, c);
    InReplies(w.exchanges, i);
    assert w.exchanges[i].reply in AllReplies(w, c);
    k := PostsAreSteps(names, steps, names[c], w.exchanges[i].reply);
  }

  // ------------------------------------------------------------ when a reply was posted

  /** Requests under way were published, and the log only grows. */
  lemma {:induction false} RunPublished(w: World, steps: seq<Step>)
    requires Published(w) && Run(w, steps).Some?
    ensures Published(Run(w, steps).value) && w.log <= Run(w, steps).value.log
    decreases |steps|
  {
    if steps != [] {
      var front := steps[..|steps| - 1];
      RunPublished(w, front);
      StepPublished(Run(w, front).value, steps[|steps| - 1], Run(w, steps).value);
    }
  }

  lemma {:induction false} PrefixRuns(w: World, steps: seq<Step>, k: nat)
    requires Run(w, steps).Some? && k <= |steps|
    ensures Run(w, steps[..k]).Some?
    ensures Run(Run(w, steps[..k]).value, steps[k..]) == Run(w, steps)
  {
    if Run(w, steps[..k]).None? {
      NoRunFrom(w, steps, k);
    }
    RunConcat(w, steps[..k], steps[k..]);
    assert steps[..k] + steps[k..] == steps;
  }

  lemma {:induction false} NoRunFrom(w: World, steps: seq<Step>, k: nat)
    requires k <= |steps| && Run(w, steps[..k]).None?
    ensures Run(w, steps).None?
    decreases |steps|
  {
    if k == |steps| {
      assert steps[..k] == steps;
    } else {
      assert steps[..|steps| - 1][..k] == steps[..k];
      NoRunFrom(w, steps[..|steps| - 1], k);
    }
  }

  /** A reply to a request that was not published yet is posted later. */
  lemma PostedLater(names: seq<string>, before: seq<Step>, after: seq<Step>, k: nat, reply: Reply)
    requires before <= after && Run(Init(names), before).Some? && PostedAt(names, after, k, reply)
    requires reply.answers.serial >= |Run(Init(names), before).value.log|
    ensures k >= |before|
  {
    if k < |before| {
      assert after[..k] == before[..k];
      PrefixRuns(Init(names), before, k);
      RunPublished(Init(names), before[..k]);
      RunPublished(Run(Init(names), before[..k]).value, before[k..]);
    }
  }

  // ------------------------------------------------------------ the listener queue

  /** Requests wait in the listener queue in the order in which they were published. */
  ghost predicate ListenerOrdered(w: World) {
    && (forall i :: 0 <= i < |w.listener| ==>
          w.listener[i].serial < |w.log| && w.log[w.listener[i].serial] == w.listener[i])
    && (forall i, j :: 0 <= i < j < |w.listener| ==> w.listener[i].serial < w.listener[j].serial)
  }

  lemma SendListenerOrdered(w: World, step: Step, w': World)
    requires ListenerOrdered(w) && step.Send? && Next(w, step) == Some(w')
    ensures ListenerOrdered(w')
  {
    assert w'.listener[|w.listener|].serial == |w.log|;
  }

  lemma TakeListenerOrdered(w: World, i: nat, w': World)
    requires ListenerOrdered(w) && Next(w, Take(i)) == Some(w')
    ensures ListenerOrdered(w')
  {
    assert forall k :: 0 <= k < |w'.listener| ==> w'.listener[k] == w.listener[if k < i then k else k + 1];
  }

  lemma StepListenerOrdered(w: World, step: Step, w': World)
    requires ListenerOrdered(w) && Next(w, step) == Some(w')
    ensures ListenerOrdered(w')
  {
    match step
    case Send(_, _, _, _) => SendListenerOrdered(w, step, w');
    case Take(i) => TakeListenerOrdered(w, i, w');
    case _ =>
  }

  lemma {:induction false} ListenerInOrder(names: seq<string>, steps: seq<Step>)
    requires Run(Init(names), steps).Some?
    ensures ListenerOrdered(Run(Init(names), steps).value)
    decreases |steps|
  {
    if steps != [] {
      var front := steps[..|steps| - 1];
      ListenerInOrder(names, front);
      StepListenerOrdered(Run(Init(names), front).value, steps[|steps| - 1], Run(Init(names), steps).value);
    }
  }
}
