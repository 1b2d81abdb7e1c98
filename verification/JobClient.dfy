/**
  Polling for a job's result against an arbitrary server. Time is the time spent sleeping;
  the k-th status request of a client gets the k-th reply of the server's stream.
 */
module JobClient {
  import opened Wrappers
  import opened Text
  import opened Json
  import opened JobResults

  /** `parse` stands for the JSON parser: None for text that it does not accept. */
  datatype Server = Server(statusReply: nat -> string, resultReply: string, parse: string -> Option<Json>)

  /** The status in a reply; empty when there is none. */
  function StatusIn(parse: string -> Option<Json>, reply: string): string {
    if reply == "" || parse(reply).None? then ""
    else match TextAt(parse(reply).value, "status")
      case Some(status) => status
      case None => ""
  }

  /** The status in the k-th reply from the given one on. */
  function StatusAt(server: Server, first: nat, k: nat): string {
    StatusIn(server.parse, server.statusReply(first + k))
  }

  predicate Decisive(status: string) {
    status == "COMPLETED" || status == "FAILED" || status == "CANCELLED" || status == ""
  }

  /** The result in a reply: none for an empty or unparsable one; decoding may throw. */
  function ResultIn(parse: string -> Option<Json>, reply: string): Result<Option<JobResult>, JsonError> {
    if reply == "" || parse(reply).None? then Ok(None)
    else match Decoded(parse, parse(reply).value)
      case Ok(result) => Ok(Some(result))
      case Err(e) => Err(e)
  }

  /** The reply holds the result v: as the server prints it, with the maps as JSON in `text`. */
  ghost predicate Holds(server: Server, text: string, v: JobResult) {
    && server.resultReply != "" && server.parse(server.resultReply) == Some(ReplyFor(text, v))
    && server.parse(text) == Some(EncodedAll(v.results))
    && forall k :: 0 <= k < |v.results| ==> Sorted(v.results[k]) && CountsFit(v.results[k])
  }

  /** r is what the server's result reply comes to: the result that it holds, or none exactly if it
      is empty or no JSON, or an error exactly if its decoding throws. */
  ghost predicate Handed(server: Server, r: Result<Option<JobResult>, JsonError>) {
    && (forall text, v :: Holds(server, text, v) ==> r == Ok(Some(v)))
    && (r == Ok(None) <==> server.resultReply == "" || server.parse(server.resultReply).None?)
    && (server.resultReply != "" && server.parse(server.resultReply).Some? ==>
          (r.Err? <==> Decoded(server.parse, server.parse(server.resultReply).value).Err?))
  }

  lemma ResultHanded(server: Server)
    ensures Handed(server, ResultIn(server.parse, server.resultReply))
  {
    forall text, v | Holds(server, text, v)
      ensures ResultIn(server.parse, server.resultReply) == Ok(Some(v))
    {
      ReplyRoundTrip(server.parse, text, v);
    }
  }

  // ------------------------------------------------------------ what a status is

  /** Any other status than the empty one is the text of the member "status" of the reply. */
  lemma StatusIff(parse: string -> Option<Json>, reply: string, status: string)
    requires status != ""
    ensures StatusIn(parse, reply) == status <==>
              reply != "" && parse(reply).Some? && HasMember(parse(reply).value, "status", Str(status))
  {
    if parse(reply).Some? {
      TextAtIff(parse(reply).value, "status", status);
    }
  }

  lemma DecisiveIff(status: string)
    ensures Decisive(status) <==> status in ["COMPLETED", "FAILED", "CANCELLED", ""]
  {
  }

  // ------------------------------------------------------------ which polls happen

  /** The number of multiples 0, period, 2 * period, ... below timeout. */
  function MaxPolls(timeout: int, period: nat): nat
    requires period > 0
  {
    if timeout <= 0 then 0 else (timeout + period - 1) / period
  }

  lemma PollsBelowTimeout(timeout: int, period: nat, k: nat)
    requires period > 0
    ensures k < MaxPolls(timeout, period) <==> k * period < timeout
  {
    if timeout > 0 {
      var n := MaxPolls(timeout, period);
      assert timeout <= n * period <= timeout + period - 1;
      if k < n {
        assert (n - 1) * period == n * period - period;
        Monotone(k, n - 1, period);
      } else {
        Monotone(n, k, period);
      }
    } else {
      Monotone(0, k, period);
    }
  }

  lemma Monotone(a: int, b: int, period: nat)
    requires a <= b
    ensures a * period <= b * period
  {
  }

  /** The first of the polls from `first` on, at most n of them, whose status is decisive; n if none. */
  function FirstDecisive(server: Server, first: nat, n: nat): (k: nat)
    ensures k <= n && (k < n ==> Decisive(StatusAt(server, first, k)))
    ensures forall i :: 0 <= i < k ==> !Decisive(StatusAt(server, first, i))
  {
    if n == 0 then 0
    else
      var k := FirstDecisive(server, first, n - 1);
      if k < n - 1 || Decisive(StatusAt(server, first, k)) then k else n
  }

  lemma FirstDecisiveIs(server: Server, first: nat, n: nat, k: nat)
    requires k <= n && (k < n ==> Decisive(StatusAt(server, first, k)))
    requires forall i :: 0 <= i < k ==> !Decisive(StatusAt(server, first, i))
    ensures FirstDecisive(server, first, n) == k
  {
    var j := FirstDecisive(server, first, n);
    var sj, sk := StatusAt(server, first, j), StatusAt(server, first, k);
  }

  /** The time slept when poll k is due, or, after the last poll, at the timeout. */
  function Slept(timeout: int, period: nat, k: nat): int
    requires period > 0
  {
    if k < MaxPolls(timeout, period) then k * period else if timeout > 0 then timeout else 0
  }

  /** A further round sleeps one period, or what is left of the timeout if that is less. */
  lemma NextSleep(timeout: int, period: nat, k: nat)
    requires period > 0 && k < MaxPolls(timeout, period)
    ensures timeout - Slept(timeout, period, k) > 0
    ensures Slept(timeout, period, k + 1) == Slept(timeout, period, k) +
            (if timeout - Slept(timeout, period, k) < period then timeout - Slept(timeout, period, k) else period)
    ensures timeout - Slept(timeout, period, k + 1) > 0 <==> k + 1 < MaxPolls(timeout, period)
  {
    PollsBelowTimeout(timeout, period, k);
    PollsBelowTimeout(timeout, period, k + 1);
    assert (k + 1) * period == k * period + period;
  }

  lemma TimesNext(start: int, period: nat, n: nat)
    ensures Times(start, period, n) + [start + n * period] == Times(start, period, n + 1)
  {
  }

  /** start, start + period, ..., n of them. */
  function Times(start: int, period: nat, n: nat): seq<int> {
    seq(n, i requires 0 <= i < n => start + i * period)
  }

  /** The job completed at one of the polls that a wait from poll `first` on may make. */
  predicate Fetches(server: Server, first: nat, timeout: int, period: nat)
    requires period > 0
  {
    var n := MaxPolls(timeout, period);
    var k := FirstDecisive(server, first, n);
    k < n && StatusAt(server, first, k) == "COMPLETED"
  }

  // ------------------------------------------------------------ the client

  class MQSSClient {
    const server: Server
    var clock: int       // seconds slept so far
    var polls: seq<int>  // when each status request was made
    var fetches: nat     // result requests made

    constructor (server: Server)
      ensures this.server == server && clock == 0 && polls == [] && fetches == 0
    {
      this.server := server;
      clock, polls, fetches := 0, [], 0;
    }

    method GetJobStatus() returns (status: string)
      modifies `polls
      ensures status == StatusAt(server, |old(polls)|, 0) && polls == old(polls) + [clock]
    {
      var resp := server.statusReply(|polls|);
      polls := polls + [clock];
      if resp == "" {
        return "";
      }
      var parsed := server.parse(resp);
      if parsed.None? {
        return "";
      }
      var member := Find(parsed.value, "status");
      if member.Some? && member.value.Str? {
        return member.value.s;
      }
      return "";
    }

    method FetchResult() returns (r: Result<Option<JobResult>, JsonError>)
      modifies `fetches
      ensures r == ResultIn(server.parse, server.resultReply) && fetches == old(fetches) + 1
    {
      fetches := fetches + 1;
      var resp := server.resultReply;
      if resp == "" || server.parse(resp).None? {
        return Ok(None);
      }
      var result := DecodeJobResult(server.parse, server.parse(resp).value);
      return match result case Ok(v) => Ok(Some(v)) case Err(e) => Err(e);
    }

    method WaitForJobResult(timeout: int, pollSeconds: nat) returns (r: Result<Option<JobResult>, JsonError>)
      requires pollSeconds > 0
      modifies this
      ensures var n := MaxPolls(timeout, pollSeconds);
              var k := FirstDecisive(server, |old(polls)|, n);
              && polls == old(polls) + Times(old(clock), pollSeconds, if k < n then k + 1 else n)
              && clock == old(clock) + Slept(timeout, pollSeconds, k)
      ensures var done := Fetches(server, |old(polls)|, timeout, pollSeconds);
              && fetches == old(fetches) + (if done then 1 else 0)
              && r == if done then ResultIn(server.parse, server.resultReply) else Ok(None)
      ensures if Fetches(server, |old(polls)|, timeout, pollSeconds) then Handed(server, r) else r == Ok(None)
    {
      ResultHanded(server);
      var remaining := timeout;
      ghost var first, start, n, i := |polls|, clock, MaxPolls(timeout, pollSeconds), 0;
      assert polls + Times(start, pollSeconds, 0) == polls;
      while remaining > 0
        invariant 0 <= i <= n && fetches == old(fetches)
        invariant (remaining > 0 <==> i < n) && (timeout > 0 ==> remaining == timeout - Slept(timeout, pollSeconds, i))
        invariant clock == start + Slept(timeout, pollSeconds, i)
        invariant polls == old(polls) + Times(start, pollSeconds, i)
        invariant forall j :: 0 <= j < i ==> !Decisive(StatusAt(server, first, j))
        decreases remaining
      {
        NextSleep(timeout, pollSeconds, i);
        TimesNext(start, pollSeconds, i);
        var status := GetJobStatus();
        assert polls == old(polls) + Times(start, pollSeconds, i + 1);
        assert status == StatusAt(server, first, i);
        if status == "COMPLETED" {
          FirstDecisiveIs(server, first, n, i);
          r := FetchResult();
          return;
        }
        if status == "FAILED" || status == "CANCELLED" || status == "" {
          FirstDecisiveIs(server, first, n, i);
          return Ok(None);
        }
        var sleepSeconds := if remaining < pollSeconds then remaining else pollSeconds;
        clock := clock + sleepSeconds;
        remaining := remaining - sleepSeconds;
        i := i + 1;
      }
      FirstDecisiveIs(server, first, n, n);
      return Ok(None);
    }

    /** timeout is a size_t and is narrowed to int; the poll period is two seconds. */
    method GetJobResult(wait: bool, timeout: nat) returns (r: Result<Option<JobResult>, JsonError>)
      modifies this
      ensures if !wait || Fetches(server, |old(polls)|, Int32(timeout), 2) then Handed(server, r) else r == Ok(None)
      ensures !wait ==> r == ResultIn(server.parse, server.resultReply) && fetches == old(fetches) + 1
      ensures !wait ==> polls == old(polls) && clock == old(clock)
      ensures wait ==>
                var seconds := Int32(timeout);
                var n := MaxPolls(seconds, 2);
                var k := FirstDecisive(server, |old(polls)|, n);
                var done := Fetches(server, |old(polls)|, seconds, 2);
                && polls == old(polls) + Times(old(clock), 2, if k < n then k + 1 else n)
                && clock == old(clock) + Slept(seconds, 2, k)
                && fetches == old(fetches) + (if done then 1 else 0)
                && r == (if done then ResultIn(server.parse, server.resultReply) else Ok(None))
    {
      ResultHanded(server);
      if wait {
        r := WaitForJobResult(Int32(timeout), 2);
      } else {
        r := FetchResult();
      }
    }
  }

  /** Poll k is below the timeout and the first that ends the wait, and it finds the job completed. */
  ghost predicate CompletedAt(server: Server, first: nat, timeout: int, period: nat, k: nat) {
    && k * period < timeout && StatusAt(server, first, k) == "COMPLETED"
    && forall i: nat :: i < k ==> StatusAt(server, first, i) !in ["COMPLETED", "FAILED", "CANCELLED", ""]
  }

  /** A wait fetches the result exactly when the job is found completed at a poll below the timeout
      and no earlier poll finds it failed, cancelled or without status. */
  lemma FetchesIff(server: Server, first: nat, timeout: int, period: nat)
    requires period > 0
    ensures Fetches(server, first, timeout, period) <==> exists k :: CompletedAt(server, first, timeout, period, k)
  {
    var n := MaxPolls(timeout, period);
    var k := FirstDecisive(server, first, n);
    if k < n && StatusAt(server, first, k) == "COMPLETED" {
      PollsBelowTimeout(timeout, period, k);
      assert CompletedAt(server, first, timeout, period, k);
    }
    if j: nat :| CompletedAt(server, first, timeout, period, j) {
      PollsBelowTimeout(timeout, period, j);
      FirstDecisiveIs(server, first, n, j);
    }
  }

  // ------------------------------------------------------------ what waiting longer brings

  lemma MorePolls(timeout: int, longer: int, period: nat)
    requires period > 0 && timeout <= longer
    ensures MaxPolls(timeout, period) <= MaxPolls(longer, period)
  {
    var n := MaxPolls(timeout, period);
    if n > 0 {
      PollsBelowTimeout(timeout, period, n - 1);
      PollsBelowTimeout(longer, period, n - 1);
    }
  }

  /** A longer timeout never loses a result that a shorter one fetched. */
  lemma FetchIsMonotone(server: Server, first: nat, timeout: int, longer: int, period: nat)
    requires period > 0 && timeout <= longer && Fetches(server, first, timeout, period)
    ensures Fetches(server, first, longer, period)
  {
    MorePolls(timeout, longer, period);
    FirstDecisiveIs(server, first, MaxPolls(longer, period),
                    FirstDecisive(server, first, MaxPolls(timeout, period)));
  }

  /** The server is undecided at polls before time `done` and says COMPLETED from then on. */
  ghost predicate CompletesAt(server: Server, first: nat, period: nat, done: nat) {
    forall k: nat :: if k * period < done then !Decisive(StatusAt(server, first, k))
                     else StatusAt(server, first, k) == "COMPLETED"
  }

  /** Against a server whose completion is permanent, the result is fetched exactly when the job
      completes no later than the last poll before the timeout. */
  lemma FetchIffInTime(server: Server, first: nat, timeout: int, period: nat, done: nat)
    requires period > 0 && CompletesAt(server, first, period, done)
    ensures Fetches(server, first, timeout, period) <==>
              MaxPolls(timeout, period) > 0 && done <= (MaxPolls(timeout, period) - 1) * period
  {
    var n := MaxPolls(timeout, period);
    var k := FirstDecisive(server, first, n);
    if k < n {
      assert !(k * period < done);
      Monotone(k, n - 1, period);
    } else if n > 0 {
      assert !Decisive(StatusAt(server, first, n - 1));
      assert (n - 1) * period < done;
    }
  }

  /** The timeout a caller passes counts in full exactly below 2^31 seconds: a larger one is
      narrowed and waits for fewer polls, none at all when it turns negative. */
  lemma NarrowedTimeout(timeout: nat)
    ensures MaxPolls(Int32(timeout), 2) == MaxPolls(timeout, 2) <==> timeout <= INT_MAX
    ensures Int32(timeout) <= 0 ==> MaxPolls(Int32(timeout), 2) == 0
  {
    var t := Int32(timeout);
    if timeout > INT_MAX {
      assert t <= timeout - 0x1_0000_0000;
    }
  }

  /** The first timeout that is too long: 2^31 seconds ought to allow 2^30 polls and allow none. */
  lemma FirstLostTimeout()
    ensures MaxPolls(0x8000_0000, 2) == 0x4000_0000 && MaxPolls(Int32(0x8000_0000), 2) == 0
  {
  }
}
