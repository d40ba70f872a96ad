/** Uninterrupted runs fall silent: each run that handles a message uses up some of what is left. */
module Quiescence {
  import opened Messages
  import opened Query
  import opened Transport
  import opened Runner

  // Messages the runners of the agents `served` have still to handle.
  function Waiting(served: set<Name>): Row -> bool {
    (r: Row) => r.recipient in served && r.processed.None?
  }

  function Threads(rows: seq<Row>): set<string> {
    set i: nat | i < |rows| :: rows[i].thread
  }

  // max(0, M - count)
  function Room(rows: seq<Row>, thread: string, m: nat): nat {
    if Count(rows, thread) < m then m - Count(rows, thread) else 0
  }

  // The room left below the ceiling, summed over the threads.
  ghost function RoomLeft(rows: seq<Row>, threads: set<string>, m: nat): nat
    decreases |threads|
  {
    if threads == {} then 0
    else
      var t :| t in threads;
      Room(rows, t, m) + RoomLeft(rows, threads - {t}, m)
  }

  // What the runners can still do: forward into the room left, and handle what waits for them.
  ghost function Remaining(rows: seq<Row>, served: set<Name>, m: nat): nat {
    RoomLeft(rows, Threads(rows), m) + |Ids(rows, Waiting(served))|
  }

  // ---- The sum ----

  lemma {:induction false} RoomLeftBut(rows: seq<Row>, threads: set<string>, t: string, m: nat)
    requires t in threads
    ensures RoomLeft(rows, threads, m) == Room(rows, t, m) + RoomLeft(rows, threads - {t}, m)
    decreases |threads|
  {
    var x :| x in threads && RoomLeft(rows, threads, m) == Room(rows, x, m) + RoomLeft(rows, threads - {x}, m);
    if x != t {
      RoomLeftBut(rows, threads - {x}, t, m);
      RoomLeftBut(rows, threads - {t}, x, m);
      assert threads - {x} - {t} == threads - {t} - {x};
    }
  }

  lemma {:induction false} SameRoom(rows: seq<Row>, rows': seq<Row>, threads: set<string>, m: nat)
    requires forall t | t in threads :: Count(rows', t) == Count(rows, t)
    ensures RoomLeft(rows', threads, m) == RoomLeft(rows, threads, m)
    decreases |threads|
  {
    if threads == {} {
    } else {
      var t :| t in threads;
      RoomLeftBut(rows, threads, t, m);
      RoomLeftBut(rows', threads, t, m);
      SameRoom(rows, rows', threads - {t}, m);
    }
  }

  // ---- One run ----

  // Stamping a row changes no thread.
  lemma StampKeepsRoom(rows: seq<Row>, i: nat, r: Row, m: nat)
    requires i < |rows| && r.thread == rows[i].thread
    ensures Threads(rows[i := r]) == Threads(rows)
    ensures RoomLeft(rows[i := r], Threads(rows[i := r]), m) == RoomLeft(rows, Threads(rows), m)
  {
    var rows' := rows[i := r];
    forall t ensures t in Threads(rows') <==> t in Threads(rows) {
      if t in Threads(rows) { var j: nat :| j < |rows| && rows[j].thread == t; assert rows'[j].thread == t; }
      if t in Threads(rows') { var j: nat :| j < |rows| && rows'[j].thread == t; assert rows[j].thread == t; }
    }
    forall t | t in Threads(rows) ensures Count(rows', t) == Count(rows, t) {
      IdsKept(rows, i, r, OnThread(t));
    }
    SameRoom(rows, rows', Threads(rows), m);
  }

  lemma HandlingUsesOne(rows: seq<Row>, i: nat, t: Times, served: set<Name>, m: nat)
    requires i < |rows| && Waiting(served)(rows[i])
    ensures Remaining(Handled(rows, i, t.received, t.acked), served, m) == Remaining(rows, served, m) - 1
  {
    var r := Handled(rows, i, t.received, t.acked)[i];
    StampKeepsRoom(rows, i, r, m);
    IdsDropped(rows, i, r, Waiting(served));
  }

  lemma SameThreads(rows: seq<Row>, r: Row)
    requires r.thread in Threads(rows)
    ensures Threads(rows + [r]) == Threads(rows)
  {
    forall t | t in Threads(rows) ensures t in Threads(rows + [r]) {
      var j: nat :| j < |rows| && rows[j].thread == t;
      assert (rows + [r])[j].thread == t;
    }
  }

  lemma ForwardingUsesRoom(rows: seq<Row>, r: Row, m: nat)
    requires r.thread in Threads(rows) && Count(rows, r.thread) < m
    ensures RoomLeft(rows + [r], Threads(rows), m) == RoomLeft(rows, Threads(rows), m) - 1
  {
    var others := Threads(rows) - {r.thread};
    RoomLeftBut(rows, Threads(rows), r.thread, m);
    RoomLeftBut(rows + [r], Threads(rows), r.thread, m);
    IdsAppend(rows, r, OnThread(r.thread));
    forall t | t in others ensures Count(rows + [r], t) == Count(rows, t) {
      IdsAppend(rows, r, OnThread(t));
    }
    SameRoom(rows, rows + [r], others, m);
  }

  // A row on a thread below the ceiling takes the room it may add to what waits.
  lemma ForwardingAddsNothing(rows: seq<Row>, r: Row, served: set<Name>, m: nat)
    requires r.thread in Threads(rows) && Count(rows, r.thread) < m
    ensures Remaining(rows + [r], served, m) <= Remaining(rows, served, m)
  {
    SameThreads(rows, r);
    ForwardingUsesRoom(rows, r, m);
    IdsAppend(rows, r, Waiting(served));
  }

  lemma AnsweringShrinks(setup: Setup, rows: seq<Row>, i: nat, response: string, routed: Option<Name>, t: Times,
      served: set<Name>)
    requires i < |rows| && Waiting(served)(rows[i]) && setup.ceiling > 0
    requires setup.next != Some(EVERYONE) && routed != Some(EVERYONE)
    ensures Remaining(AfterAnswer(setup, rows, i, response, routed, t), served, setup.ceiling)
          < Remaining(rows, served, setup.ceiling)
  {
    var acked := Handled(rows, i, t.received, t.acked);
    var after := AfterAnswer(setup, rows, i, response, routed, t);
    HandlingUsesOne(rows, i, t, served, setup.ceiling);
    if after != acked {
      var r := after[|rows|];
      assert after == acked + [r];
      assert r.thread == acked[i].thread;
      ForwardingAddsNothing(acked, r, served, setup.ceiling);
    }
  }

  lemma ReceivingKeeps(rows: seq<Row>, i: nat, now: int, served: set<Name>, m: nat)
    requires i < |rows|
    ensures Remaining(rows[i := rows[i].(received := Some(now))], served, m) == Remaining(rows, served, m)
  {
    var r := rows[i].(received := Some(now));
    StampKeepsRoom(rows, i, r, m);
    IdsKept(rows, i, r, Waiting(served));
  }

  // A run that handles a message strictly lowers what remains; any other run leaves it as it is.
  lemma HandlingShrinks(setup: Setup, rows: seq<Row>, llm: Model, t: Times, served: set<Name>)
    requires setup.name in served && setup.ceiling > 0 && SingleRecipients(setup, llm)
    ensures var (after, o) := Once(setup, rows, llm, t);
            if o == Returned(true) then Remaining(after, served, setup.ceiling) < Remaining(rows, served, setup.ceiling)
            else Remaining(after, served, setup.ceiling) == Remaining(rows, served, setup.ceiling)
  {
    OldestIsTheOldest(rows, setup.name);
    if Oldest(rows, setup.name).Some? {
      var i := Oldest(rows, setup.name).value;
      var asked := Asked(llm, rows[i].body, rows[i].thread);
      var reply := asked(Calls(asked, 1, setup.retries + 1));
      if reply.Failed? || reply.response == "" {
        ReceivingKeeps(rows, i, t.received, served, setup.ceiling);
      } else {
        AnsweringShrinks(setup, rows, i, reply.response, reply.routed, t, served);
      }
    }
  }

  // ---- Any sequence of runs ----

  // One run of some agent of the cluster.
  datatype Turn = Turn(setup: Setup, llm: Model, times: Times)

  function Result(turn: Turn, rows: seq<Row>): (seq<Row>, Outcome) {
    Once(turn.setup, rows, turn.llm, turn.times)
  }

  // The runs one after the other, each on the table the one before left.
  ghost predicate RunsThrough(turns: seq<Turn>, tables: seq<seq<Row>>) {
    && |tables| == |turns| + 1
    && forall k | 0 <= k < |turns| :: tables[k + 1] == Result(turns[k], tables[k]).0
  }

  // The runs that handle a message.
  ghost function Handling(turns: seq<Turn>, tables: seq<seq<Row>>): set<nat>
    requires |turns| <= |tables|
  {
    set k: nat | k < |turns| && Result(turns[k], tables[k]).1 == Returned(true)
  }

  ghost predicate OfCluster(turn: Turn, served: set<Name>, m: nat) {
    turn.setup.name in served && turn.setup.ceiling == m && SingleRecipients(turn.setup, turn.llm)
  }

  lemma LastHandling(turns: seq<Turn>, tables: seq<seq<Row>>)
    requires turns != [] && RunsThrough(turns, tables)
    ensures var n := |turns| - 1;
            && RunsThrough(turns[..n], tables[..n + 1])
            && |Handling(turns, tables)| == |Handling(turns[..n], tables[..n + 1])|
                 + (if Result(turns[n], tables[n]).1 == Returned(true) then 1 else 0)
  {
    var n := |turns| - 1;
    var before := Handling(turns[..n], tables[..n + 1]);
    assert Handling(turns, tables) == before + (if Result(turns[n], tables[n]).1 == Returned(true) then {n} else {});
  }

  // On any routing graph, runs of any agents in any order handle no more messages than remained at
  // the start: sum over threads of max(0, M - count), and one for each message waiting.
  lemma {:induction false} RunsFallSilent(turns: seq<Turn>, tables: seq<seq<Row>>, served: set<Name>, m: nat)
    requires m > 0 && (forall k | 0 <= k < |turns| :: OfCluster(turns[k], served, m)) && RunsThrough(turns, tables)
    ensures |Handling(turns, tables)| + Remaining(tables[|turns|], served, m) <= Remaining(tables[0], served, m)
    decreases |turns|
  {
    if turns == [] {
      assert Handling(turns, tables) == {};
    } else {
      var n := |turns| - 1;
      var turn := turns[n];
      assert OfCluster(turn, served, m);
      LastHandling(turns, tables);
      RunsFallSilent(turns[..n], tables[..n + 1], served, m);
      HandlingShrinks(turn.setup, tables[n], turn.llm, turn.times, served);
    }
  }
}
