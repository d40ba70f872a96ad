/** One agent's runner, driven without interruption. */
module Runner {
  import opened Messages
  import opened Query
  import opened Checks
  import opened Transport
  import opened Shutdown

  // What one call of the agent brings: AgentLLMError, or a response and the router's choice.
  datatype LlmReply = Failed | Reply(response: string, routed: Option<Name>)

  // The agent as the runner meets it: its reply to a text on a thread, at the n-th attempt.
  type Model = (string, string, nat) -> LlmReply

  function Asked(llm: Model, text: string, thread: string): nat -> LlmReply {
    (k: nat) => llm(text, thread, k)
  }

  // Readings of the clock during one run.
  datatype Times = Times(received: int, acked: int, created: int, sent: int)

  datatype Outcome = Returned(processed: bool) | Raised

  function Pow2(n: nat): nat {
    if n == 0 then 1 else 2 * Pow2(n - 1)
  }

  function Sum(xs: seq<real>): real {
    if xs == [] then 0.0 else Sum(xs[..|xs| - 1]) + xs[|xs| - 1]
  }

  function Wait(backoff: real, k: nat): real {
    backoff * (Pow2(k) as real)
  }

  // The waits before the retries: b, 2b, 4b, ...
  function Waits(backoff: real, n: nat): seq<real> {
    seq(n, k requires 0 <= k < n => Wait(backoff, k))
  }

  lemma OneMoreWait(backoff: real, n: nat)
    ensures Waits(backoff, n + 1) == Waits(backoff, n) + [Wait(backoff, n)]
  {
    var w := Waits(backoff, n + 1);
    assert w[..n] == Waits(backoff, n) && w[n] == Wait(backoff, n);
    assert w == w[..n] + [w[n]];
  }

  // The first wait is the backoff, and each later one is twice the one before.
  lemma WaitsDouble(backoff: real, n: nat)
    ensures |Waits(backoff, n)| == n && (n > 0 ==> Waits(backoff, n)[0] == backoff)
    ensures forall k | 0 < k < n :: Waits(backoff, n)[k] == 2.0 * Waits(backoff, n)[k - 1]
  {
    forall k | 0 < k < n ensures Waits(backoff, n)[k] == 2.0 * Waits(backoff, n)[k - 1] {
      assert Pow2(k) as real == 2.0 * (Pow2(k - 1) as real);
    }
  }

  function TotalWait(backoff: real, n: nat): real {
    backoff * ((Pow2(n) - 1) as real)
  }

  lemma {:induction false} WaitsAddUp(backoff: real, n: nat)
    ensures Sum(Waits(backoff, n)) == backoff * ((Pow2(n) - 1) as real)
  {
    if n > 0 {
      WaitsAddUp(backoff, n - 1);
      OneMoreWait(backoff, n - 1);
      assert Waits(backoff, n)[..n - 1] == Waits(backoff, n - 1);
    }
  }

  // The number of calls made: up to the first that succeeds, at most `limit`.
  function Calls(llm: nat -> LlmReply, from: nat, limit: nat): (n: nat)
    requires 1 <= from <= limit
    ensures from <= n <= limit
    ensures forall k | from <= k < n :: llm(k).Failed?
    ensures llm(n).Failed? ==> n == limit
    decreases limit - from
  {
    if from == limit || !llm(from).Failed? then from else Calls(llm, from + 1, limit)
  }

  lemma FirstSuccess(llm: nat -> LlmReply, n: nat, limit: nat)
    requires 1 <= n <= limit && (llm(n).Failed? ==> n == limit)
    requires forall k | 1 <= k < n :: llm(k).Failed?
    ensures n == Calls(llm, 1, limit)
  {
    var m := Calls(llm, 1, limit);
    var first, claimed := llm(m), llm(n);
  }

  // ---- What one uninterrupted run does to the table ----

  datatype Setup = Setup(name: Name, next: Option<Name>, threshold: nat, ceiling: nat, retries: nat, backoff: real)

  function Forward(setup: Setup, rows: seq<Row>, i: nat, response: string, dest: Name, t: Times): Message
    requires i < |rows|
  {
    Message(setup.name, One(dest), response, rows[i].subject, rows[i].thread, Some(i), t.created)
  }

  // The table after a non-empty response to row i: the row is processed, and unless a check stops
  // it the response is delivered to the destination.
  function AfterAnswer(setup: Setup, rows: seq<Row>, i: nat, response: string, routed: Option<Name>, t: Times): seq<Row>
    requires i < |rows|
  {
    var acked := Handled(rows, i, t.received, t.acked);
    match EffectiveNext(routed, setup.next)
    case None => acked
    case Some(dest) =>
      if LoopDetected(acked, rows[i].thread, setup.name, dest, setup.threshold)
          || CeilingReached(acked, rows[i].thread, setup.ceiling)
      then acked
      else acked + Deliveries(Forward(setup, rows, i, response, dest, t), Recipients(acked, One(dest)), t.sent)
  }

  function Once(setup: Setup, rows: seq<Row>, llm: Model, t: Times): (r: (seq<Row>, Outcome)) {
    match Oldest(rows, setup.name)
    case None => (rows, Returned(false))
    case Some(i) =>
      var seen := rows[i := rows[i].(received := Some(t.received))];
      var asked := Asked(llm, rows[i].body, rows[i].thread);
      match asked(Calls(asked, 1, setup.retries + 1))
      case Failed => (seen, Raised)
      case Reply(response, routed) =>
        if response == "" then (seen, Returned(false))
        else (AfterAnswer(setup, rows, i, response, routed, t), Returned(true))
  }

  // One poll of the loop: the sentinels then present, and what the run would meet.
  datatype Poll = Poll(files: set<string>, llm: Model, times: Times)

  datatype LoopEnd = StillPolling | StopRequested | Failure

  function Loop(setup: Setup, rows: seq<Row>, polls: seq<Poll>): (seq<Row>, LoopEnd)
    decreases |polls|
  {
    if polls == [] then (rows, StillPolling)
    else if ShouldStop(polls[0].files, setup.name) then (rows, StopRequested)
    else
      var (after, o) := Once(setup, rows, polls[0].llm, polls[0].times);
      if o.Raised? then (after, Failure) else Loop(setup, after, polls[1..])
  }

  class AgentRunner {
    const setup: Setup
    const transport: SQLiteTransport

    constructor (setup: Setup, transport: SQLiteTransport)
      ensures this.setup == setup && this.transport == transport
    {
      this.setup := setup;
      this.transport := transport;
    }

    // The agent is called until it answers, at most retries + 1 times, with doubling waits between
    // the calls: success after j failures has waited b * (2^j - 1) seconds in all.
    method CallWithRetries(llm: nat -> LlmReply) returns (reply: LlmReply, calls: nat, slept: seq<real>)
      ensures 1 <= calls <= setup.retries + 1 && calls == Calls(llm, 1, setup.retries + 1)
      ensures reply == llm(calls)
      ensures forall k | 1 <= k < calls :: llm(k).Failed?
      ensures reply.Failed? ==> calls == setup.retries + 1
      ensures slept == Waits(setup.backoff, calls - 1)
      ensures Sum(slept) == TotalWait(setup.backoff, calls - 1)
    {
      slept := [];
      var attempt := 1;
      reply := llm(attempt);
      while reply.Failed? && attempt <= setup.retries
        invariant 1 <= attempt <= setup.retries + 1
        invariant reply == llm(attempt)
        invariant forall k | 1 <= k < attempt :: llm(k).Failed?
        invariant slept == Waits(setup.backoff, attempt - 1)
        decreases setup.retries + 1 - attempt
      {
        var wait := Wait(setup.backoff, attempt - 1);
        slept := slept + [wait];
        OneMoreWait(setup.backoff, attempt - 1);
        attempt := attempt + 1;
        reply := llm(attempt);
      }
      calls := attempt;
      FirstSuccess(llm, calls, setup.retries + 1);
      WaitsAddUp(setup.backoff, calls - 1);
    }

    method CheckLoopDetected(thread: string, recipient: Name) returns (detected: bool)
      ensures detected <==> recipient == setup.name && setup.threshold > 0
                            && EndsInSelfSends(Thread(transport.rows, thread), setup.name, setup.threshold)
      ensures detected <==> LoopDetected(transport.rows, thread, setup.name, recipient, setup.threshold)
    {
      LoopDetectedExactly(transport.rows, thread, setup.name, recipient, setup.threshold);
      if recipient != setup.name {
        return false;
      }
      if setup.threshold == 0 {
        return false;
      }
      var tail := transport.ThreadMessagesTail(thread, setup.threshold);
      if |tail| < setup.threshold {
        return false;
      }
      detected := forall k | 0 <= k < |tail| :: tail[k] == (setup.name, setup.name);
    }

    method CheckMaxMessages(thread: string) returns (reached: bool)
      ensures reached <==> 0 < setup.ceiling <= |Thread(transport.rows, thread)|
      ensures reached <==> CeilingReached(transport.rows, thread, setup.ceiling)
    {
      CeilingReachedExactly(transport.rows, thread, setup.ceiling);
      if setup.ceiling == 0 {
        return false;
      }
      var count := transport.ThreadMessageCount(thread);
      reached := count >= setup.ceiling;
    }

    method RunOnce(llm: Model, t: Times) returns (o: Outcome)
      modifies transport
      ensures transport.rows == Once(setup, old(transport.rows), llm, t).0
      ensures o == Once(setup, old(transport.rows), llm, t).1
    {
      ghost var before := transport.rows;
      var msg := transport.Receive(setup.name, t.received);
      if msg.None? {
        OldestIsTheOldest(before, setup.name);
        return Returned(false);
      }
      var id, row := msg.value.id, msg.value.row;
      assert row.body == before[id].body && row.thread == before[id].thread;
      var reply, calls, slept := CallWithRetries(Asked(llm, row.body, row.thread));
      if reply.Failed? {
        return Raised;
      }
      if reply.response == "" {
        return Returned(false);
      }
      var acked := transport.Ack(id, t.acked);
      assert transport.rows == Handled(before, id, t.received, t.acked);
      var next := EffectiveNext(reply.routed, setup.next);
      if next.Some? {
        var looping := CheckLoopDetected(row.thread, next.value);
        if looping {
          return Returned(true);
        }
        var full := CheckMaxMessages(row.thread);
        if full {
          return Returned(true);
        }
        transport.Send(Message(setup.name, One(next.value), reply.response, row.subject, row.thread, Some(id),
                               t.created), t.sent);
      }
      return Returned(true);
    }

    // The polling loop over a finite stretch of polls. It ends early on a stop request or when a
    // run raises; otherwise it would go on.
    method RunLoop(polls: seq<Poll>) returns (end: LoopEnd)
      modifies transport
      ensures (transport.rows, end) == Loop(setup, old(transport.rows), polls)
    {
      var k := 0;
      while k < |polls|
        invariant 0 <= k <= |polls|
        invariant Loop(setup, transport.rows, polls[k..]) == Loop(setup, old(transport.rows), polls)
      {
        if ShouldStop(polls[k].files, setup.name) {
          return StopRequested;
        }
        var o := RunOnce(polls[k].llm, polls[k].times);
        if o.Raised? {
          return Failure;
        }
        k := k + 1;
      }
      end := StillPolling;
    }
  }

  // ---- What a run promises ----

  // Unless the response is non-empty the message stays at the head of the agent's queue.
  lemma FailureKeepsTheMessage(setup: Setup, rows: seq<Row>, llm: Model, t: Times)
    requires Oldest(rows, setup.name).Some?
    requires var row := rows[Oldest(rows, setup.name).value];
             var asked := Asked(llm, row.body, row.thread);
             var reply := asked(Calls(asked, 1, setup.retries + 1));
             reply.Failed? || reply.response == ""
    ensures Once(setup, rows, llm, t).1 != Returned(true)
    ensures |Once(setup, rows, llm, t).0| == |rows|
    ensures forall agent :: Pending(Once(setup, rows, llm, t).0, agent) == Pending(rows, agent)
  {
    OldestIsTheOldest(rows, setup.name);
    var i := Oldest(rows, setup.name).value;
    forall agent ensures Pending(Once(setup, rows, llm, t).0, agent) == Pending(rows, agent) {
      SelectUpdate(rows, i, rows[i].(received := Some(t.received)), Inbox(agent));
    }
  }

  lemma CountHandled(rows: seq<Row>, i: nat, t: Times, thread: string)
    requires i < |rows|
    ensures Count(Handled(rows, i, t.received, t.acked), thread) == Count(rows, thread)
  {
    IdsKept(rows, i, Handled(rows, i, t.received, t.acked)[i], OnThread(thread));
  }

  // Neither the configuration nor the router sends to everyone.
  ghost predicate SingleRecipients(setup: Setup, llm: Model) {
    && setup.next != Some(EVERYONE)
    && forall text, thread, k :: llm(text, thread, k).Reply? ==> llm(text, thread, k).routed != Some(EVERYONE)
  }

  lemma AnswerAddsAtMostOne(setup: Setup, rows: seq<Row>, i: nat, response: string, routed: Option<Name>, t: Times,
      thread: string)
    requires i < |rows| && setup.ceiling > 0 && setup.next != Some(EVERYONE) && routed != Some(EVERYONE)
    ensures var after := AfterAnswer(setup, rows, i, response, routed, t);
            && Count(rows, thread) <= Count(after, thread) <= Count(rows, thread) + 1
            && (Count(rows, thread) >= setup.ceiling ==> Count(after, thread) == Count(rows, thread))
  {
    var acked := Handled(rows, i, t.received, t.acked);
    var after := AfterAnswer(setup, rows, i, response, routed, t);
    CountHandled(rows, i, t, thread);
    if after != acked {
      assert after == acked + [after[|rows|]];
      IdsAppend(acked, after[|rows|], OnThread(thread));
    }
  }

  // A run to single recipients adds at most one row, and none to a thread that has reached the ceiling.
  lemma UninterruptedCeilingIsExact(setup: Setup, rows: seq<Row>, llm: Model, t: Times, thread: string)
    requires setup.ceiling > 0 && SingleRecipients(setup, llm)
    ensures var after := Once(setup, rows, llm, t).0;
            && Count(rows, thread) <= Count(after, thread) <= Count(rows, thread) + 1
            && (Count(rows, thread) >= setup.ceiling ==> Count(after, thread) == Count(rows, thread))
  {
    OldestIsTheOldest(rows, setup.name);
    if Oldest(rows, setup.name).Some? {
      var i := Oldest(rows, setup.name).value;
      var asked := Asked(llm, rows[i].body, rows[i].thread);
      var reply := asked(Calls(asked, 1, setup.retries + 1));
      if reply.Failed? || reply.response == "" {
        IdsKept(rows, i, rows[i].(received := Some(t.received)), OnThread(thread));
      } else {
        AnswerAddsAtMostOne(setup, rows, i, reply.response, reply.routed, t, thread);
      }
    }
  }

  // A runner that sees a stop request does nothing more, whatever the polls after it.
  lemma {:induction false} StopIsFinal(setup: Setup, rows: seq<Row>, polls: seq<Poll>, k: nat)
    requires k < |polls| && ShouldStop(polls[k].files, setup.name)
    ensures Loop(setup, rows, polls).0 == Loop(setup, rows, polls[..k]).0
    ensures Loop(setup, rows, polls).1 != StillPolling
    decreases k
  {
    if k > 0 && !ShouldStop(polls[0].files, setup.name) {
      var (after, o) := Once(setup, rows, polls[0].llm, polls[0].times);
      if !o.Raised? {
        StopIsFinal(setup, after, polls[1..], k - 1);
        assert polls[1..][..k - 1] == polls[..k][1..];
      }
    }
  }

  // "*" is nobody's name: a response sent to everyone passes the self-loop check on any thread.
  lemma BroadcastPassesTheLoopCheck(setup: Setup, rows: seq<Row>, thread: string)
    requires setup.name != EVERYONE
    ensures !LoopDetected(rows, thread, setup.name, EVERYONE, setup.threshold)
  {
  }
}
