/** What a run of a runner and its polling loop do, told on the table and not by the functions that
    compute it. */
module Outcomes {
  import opened Messages
  import opened Query
  import opened Names
  import opened Checks
  import opened Transport
  import opened Shutdown
  import opened Runner

  // Row i is the agent's next message: pending, and before every other pending one.
  ghost predicate NextMessage(rows: seq<Row>, agent: Name, i: nat) {
    && i < |rows| && rows[i].recipient == agent && rows[i].processed.None?
    && forall j: nat | j < |rows| && j != i && rows[j].recipient == agent && rows[j].processed.None? ::
         Before(StampOf(rows, i), StampOf(rows, j))
  }

  // The agent's first answer to the row comes at the n-th of at most r + 1 attempts.
  ghost predicate AnswersAt(setup: Setup, llm: Model, row: Row, n: nat, response: string, routed: Option<Name>) {
    && 1 <= n <= setup.retries + 1
    && (forall k: nat | 1 <= k < n :: llm(row.body, row.thread, k).Failed?)
    && llm(row.body, row.thread, n) == Reply(response, routed)
  }

  ghost predicate NeverAnswers(setup: Setup, llm: Model, row: Row) {
    forall k: nat | 1 <= k <= setup.retries + 1 :: llm(row.body, row.thread, k).Failed?
  }

  // One of the checks stops a reply to dest: the thread ends in T self-sends and this is one more,
  // or the thread has reached the ceiling.
  ghost predicate Stopped(setup: Setup, rows: seq<Row>, thread: string, dest: Name) {
    || (dest == setup.name && setup.threshold > 0
        && EndsInSelfSends(Thread(rows, thread), setup.name, setup.threshold))
    || 0 < setup.ceiling <= |Thread(rows, thread)|
  }

  // r carries the agent's response to row p.
  ghost predicate IsReply(r: Row, rows: seq<Row>, p: nat, agent: Name, response: string, t: Times)
    requires p < |rows|
  {
    && r.sender == agent && r.body == response && r.parent == Some(p)
    && r.thread == rows[p].thread && r.subject == rows[p].subject
    && r.created == t.created && r.sent == Some(t.sent) && r.received.None? && r.processed.None?
  }

  lemma NextMessageIsOldest(rows: seq<Row>, agent: Name, i: nat)
    requires NextMessage(rows, agent, i)
    ensures Oldest(rows, agent) == Some(i)
  {
    OldestIsTheOldest(rows, agent);
    assert Inbox(agent)(rows[i]);
    assert forall j: nat | j < |rows| && j != i && Inbox(agent)(rows[j]) ::
             !Before(StampOf(rows, j), StampOf(rows, i));
  }

  lemma AnswerIsFound(setup: Setup, llm: Model, row: Row, n: nat, response: string, routed: Option<Name>)
    requires AnswersAt(setup, llm, row, n, response, routed)
    ensures Calls(Asked(llm, row.body, row.thread), 1, setup.retries + 1) == n
  {
    FirstSuccess(Asked(llm, row.body, row.thread), n, setup.retries + 1);
  }

  // ---- Nothing to do, or no answer ----

  // With no pending message nothing happens.
  lemma IdleRun(setup: Setup, rows: seq<Row>, llm: Model, t: Times)
    requires forall i: nat | i < |rows| :: rows[i].recipient == setup.name ==> rows[i].processed.Some?
    ensures Once(setup, rows, llm, t) == (rows, Returned(false))
  {
    OldestIsTheOldest(rows, setup.name);
  }

  // If all r + 1 calls fail the run raises; an empty answer ends it without having processed the
  // message. Either way the message is only marked as received.
  lemma UnansweredRun(setup: Setup, rows: seq<Row>, llm: Model, t: Times, i: nat)
    requires NextMessage(rows, setup.name, i)
    ensures NeverAnswers(setup, llm, rows[i]) ==>
              Once(setup, rows, llm, t) == (rows[i := rows[i].(received := Some(t.received))], Raised)
    ensures (exists n, routed :: AnswersAt(setup, llm, rows[i], n, "", routed)) ==>
              Once(setup, rows, llm, t) == (rows[i := rows[i].(received := Some(t.received))], Returned(false))
  {
    NextMessageIsOldest(rows, setup.name, i);
    var asked := Asked(llm, rows[i].body, rows[i].thread);
    var n := Calls(asked, 1, setup.retries + 1);
    assert asked(n) == llm(rows[i].body, rows[i].thread, n);
    if m, routed :| AnswersAt(setup, llm, rows[i], m, "", routed) {
      AnswerIsFound(setup, llm, rows[i], m, "", routed);
    }
  }

  // ---- An answer ----

  lemma {:induction false} SameRecipients(rows: seq<Row>, i: nat, r: Row)
    requires i < |rows| && r.recipient == rows[i].recipient
    ensures KnownAgents(rows[i := r]) == KnownAgents(rows)
  {
    var last := |rows| - 1;
    if i < last {
      SameRecipients(rows[..last], i, r);
      assert rows[i := r][..last] == rows[..last][i := r];
    } else {
      assert rows[i := r][..last] == rows[..last];
    }
  }

  lemma StoppedAfterAck(setup: Setup, rows: seq<Row>, i: nat, t: Times, dest: Name)
    requires i < |rows|
    ensures var acked := Handled(rows, i, t.received, t.acked);
            Stopped(setup, rows, rows[i].thread, dest) <==>
              LoopDetected(acked, rows[i].thread, setup.name, dest, setup.threshold)
              || CeilingReached(acked, rows[i].thread, setup.ceiling)
  {
    var acked := Handled(rows, i, t.received, t.acked);
    SelectUpdate(rows, i, acked[i], OnThread(rows[i].thread));
    LoopDetectedExactly(acked, rows[i].thread, setup.name, dest, setup.threshold);
    CeilingReachedExactly(acked, rows[i].thread, setup.ceiling);
  }

  // The rows behind the first |rows| are the reply to row i, one to each of `to`.
  ghost predicate RepliesTo(after: seq<Row>, rows: seq<Row>, i: nat, to: seq<Name>, setup: Setup, response: string,
      t: Times)
    requires i < |rows|
  {
    && |after| == |rows| + |to|
    && forall k | |rows| <= k < |after| ::
         after[k].recipient == to[k - |rows|] && IsReply(after[k], rows, i, setup.name, response, t)
  }

  // Whom a reply to dest goes to.
  function To(rows: seq<Row>, dest: Name): seq<Name> {
    if dest == EVERYONE then KnownAgents(rows) else [dest]
  }

  lemma DeliveredIsReply(before: seq<Row>, after: seq<Row>, setup: Setup, rows: seq<Row>, i: nat, response: string,
      dest: Name, names: seq<Name>, t: Times)
    requires i < |rows| && |before| == |rows|
    requires Delivered(before, after, Forward(setup, rows, i, response, dest, t), names, t.sent)
    ensures RepliesTo(after, rows, i, names, setup, response, t)
  {
    forall k | |rows| <= k < |after|
      ensures after[k].recipient == names[k - |rows|] && IsReply(after[k], rows, i, setup.name, response, t)
    {
      assert after[k] == after[|before| + (k - |rows|)];
    }
  }

  lemma DeliveriesAreReplies(setup: Setup, rows: seq<Row>, i: nat, response: string, dest: Name, t: Times)
    requires i < |rows|
    ensures var acked := Handled(rows, i, t.received, t.acked);
            var sent := Deliveries(Forward(setup, rows, i, response, dest, t), Recipients(acked, One(dest)), t.sent);
            RepliesTo(acked + sent, rows, i, To(rows, dest), setup, response, t)
  {
    var acked := Handled(rows, i, t.received, t.acked);
    var m := Forward(setup, rows, i, response, dest, t);
    var names := Recipients(acked, One(dest));
    SameRecipients(rows, i, acked[i]);
    DeliveriesAreDelivered(acked, m, names, t.sent);
    DeliveredIsReply(acked, acked + Deliveries(m, names, t.sent), setup, rows, i, response, dest, names, t);
  }

  // The table after a response to row i.
  lemma AfterResponse(setup: Setup, rows: seq<Row>, i: nat, response: string, routed: Option<Name>, t: Times)
    requires i < |rows|
    ensures var after := AfterAnswer(setup, rows, i, response, routed, t);
            && |rows| <= |after| && after[..|rows|] == Handled(rows, i, t.received, t.acked)
            && (forall dest | GoesTo(routed, setup.next, dest) ::
                  var to := if Stopped(setup, rows, rows[i].thread, dest) then [] else To(rows, dest);
                  RepliesTo(after, rows, i, to, setup, response, t))
            && ((forall dest :: !GoesTo(routed, setup.next, dest)) ==> |after| == |rows|)
  {
    EffectiveNextExactly(routed, setup.next);
    var acked := Handled(rows, i, t.received, t.acked);
    assert AfterAnswer(setup, rows, i, response, routed, t)[..|rows|] == acked;
    if EffectiveNext(routed, setup.next).Some? {
      var dest := EffectiveNext(routed, setup.next).value;
      StoppedAfterAck(setup, rows, i, t, dest);
      DeliveriesAreReplies(setup, rows, i, response, dest, t);
    }
  }

  // After a non-empty answer the message is processed and no other row is touched. The table grows
  // exactly if the reply has somewhere to go and no check stops it; it goes to the router's choice or
  // else to the static successor (to every known agent for "*"), on the message's thread and under its
  // subject, with the response as its text and the message as its parent.
  lemma AnsweredRun(setup: Setup, rows: seq<Row>, llm: Model, t: Times, i: nat, n: nat, response: string,
      routed: Option<Name>)
    requires NextMessage(rows, setup.name, i)
    requires AnswersAt(setup, llm, rows[i], n, response, routed) && response != ""
    ensures Once(setup, rows, llm, t).1 == Returned(true)
    ensures var after := Once(setup, rows, llm, t).0;
            && |rows| <= |after|
            && after[i] == rows[i].(received := Some(t.received), processed := Some(t.acked))
            && (forall j | 0 <= j < |rows| && j != i :: after[j] == rows[j])
            && (|after| > |rows| <==> exists dest :: GoesTo(routed, setup.next, dest)
                                                     && !Stopped(setup, rows, rows[i].thread, dest))
            && forall dest | GoesTo(routed, setup.next, dest) && !Stopped(setup, rows, rows[i].thread, dest) ::
                 RepliesTo(after, rows, i, To(rows, dest), setup, response, t)
  {
    NextMessageIsOldest(rows, setup.name, i);
    AnswerIsFound(setup, llm, rows[i], n, response, routed);
    AfterResponse(setup, rows, i, response, routed, t);
    var after := AfterAnswer(setup, rows, i, response, routed, t);
    assert Once(setup, rows, llm, t) == (after, Returned(true));
    forall j | 0 <= j < |rows| ensures after[j] == Handled(rows, i, t.received, t.acked)[j] {
      assert after[j] == after[..|rows|][j];
    }
    assert KnownAgents(rows) != [] by {
      KnownAgentsAreTheRecipients(rows);
      assert Seen(rows, rows[i].recipient);
    }
  }

  // ---- The loop ----

  function Run(setup: Setup, rows: seq<Row>, p: Poll): (seq<Row>, Outcome) {
    Once(setup, rows, p.llm, p.times)
  }

  // The polls run one after the other, each on the table the one before left; none sees a stop
  // request, and none but the last may raise.
  ghost predicate Polled(setup: Setup, polls: seq<Poll>, tables: seq<seq<Row>>) {
    && 0 < |tables| <= |polls| + 1
    && (forall k | 0 <= k < |tables| - 1 ::
          !ShouldStop(polls[k].files, setup.name) && tables[k + 1] == Run(setup, tables[k], polls[k]).0)
    && (forall k | 0 <= k < |tables| - 2 :: !Run(setup, tables[k], polls[k]).1.Raised?)
  }

  ghost predicate LastRaised(setup: Setup, polls: seq<Poll>, tables: seq<seq<Row>>)
    requires 0 < |tables| <= |polls| + 1
  {
    var n := |tables| - 1;
    n > 0 && Run(setup, tables[n - 1], polls[n - 1]).1.Raised?
  }

  // The loop runs poll after poll. It ends with the first run that raises, or before the first poll
  // that sees a stop request, and otherwise goes on to the last.
  lemma {:induction false} LoopRunsThePolls(setup: Setup, rows: seq<Row>, polls: seq<Poll>)
    returns (tables: seq<seq<Row>>)
    ensures Polled(setup, polls, tables) && tables[0] == rows
    ensures var n := |tables| - 1;
            var (table, end) := Loop(setup, rows, polls);
            && table == tables[n]
            && (end == Failure <==> LastRaised(setup, polls, tables))
            && (end == StopRequested <==>
                  !LastRaised(setup, polls, tables) && n < |polls| && ShouldStop(polls[n].files, setup.name))
            && (end == StillPolling <==> !LastRaised(setup, polls, tables) && n == |polls|)
    decreases |polls|
  {
    if polls == [] || ShouldStop(polls[0].files, setup.name) {
      tables := [rows];
    } else {
      var (after, o) := Run(setup, rows, polls[0]);
      if o.Raised? {
        tables := [rows, after];
      } else {
        var rest := LoopRunsThePolls(setup, after, polls[1..]);
        tables := [rows] + rest;
        OnePollEarlier(setup, rows, polls, rest);
      }
    }
  }

  // Poll k of a loop over polls is poll k - 1 of the loop that starts one poll later.
  lemma ShiftedPoll(polls: seq<Poll>, rows: seq<Row>, rest: seq<seq<Row>>, k: nat)
    requires 0 < k < |polls| && k <= |rest|
    ensures polls[1..][k - 1] == polls[k] && ([rows] + rest)[k] == rest[k - 1]
    ensures k < |rest| ==> ([rows] + rest)[k + 1] == rest[k]
  {
  }

  lemma EarlierRuns(setup: Setup, rows: seq<Row>, polls: seq<Poll>, rest: seq<seq<Row>>, k: nat)
    requires polls != [] && !ShouldStop(polls[0].files, setup.name) && !Run(setup, rows, polls[0]).1.Raised?
    requires Polled(setup, polls[1..], rest) && rest[0] == Run(setup, rows, polls[0]).0 && k < |rest|
    ensures var tables := [rows] + rest;
            && !ShouldStop(polls[k].files, setup.name) && tables[k + 1] == Run(setup, tables[k], polls[k]).0
            && (k < |rest| - 1 ==> !Run(setup, tables[k], polls[k]).1.Raised?)
  {
    if k > 0 {
      ShiftedPoll(polls, rows, rest, k);
    }
  }

  lemma OnePollEarlier(setup: Setup, rows: seq<Row>, polls: seq<Poll>, rest: seq<seq<Row>>)
    requires polls != [] && !ShouldStop(polls[0].files, setup.name) && !Run(setup, rows, polls[0]).1.Raised?
    requires Polled(setup, polls[1..], rest) && rest[0] == Run(setup, rows, polls[0]).0
    ensures Polled(setup, polls, [rows] + rest)
    ensures LastRaised(setup, polls, [rows] + rest) <==> LastRaised(setup, polls[1..], rest)
  {
    var tables := [rows] + rest;
    forall k: nat | k < |rest|
      ensures !ShouldStop(polls[k].files, setup.name) && tables[k + 1] == Run(setup, tables[k], polls[k]).0
      ensures k < |rest| - 1 ==> !Run(setup, tables[k], polls[k]).1.Raised?
    {
      EarlierRuns(setup, rows, polls, rest, k);
    }
    if |rest| > 1 {
      ShiftedPoll(polls, rows, rest, |rest| - 1);
    }
  }
}
