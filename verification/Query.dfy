/** The SQL queries of the SQLite transport, as functions of the table.

    `SELECT ... WHERE p ORDER BY created_at` is `Select(rows, p)`. Rows with equal `created_at`
    come in id order, as in the two indexes of the table. `SelectIsTheOrderedQuery` and
    `OrderedQueryIsUnique` say that this is the ordered query and the only possible answer to it. */
module Query {
  import opened Messages

  datatype Stamp = Stamp(id: nat, created: int, sender: Name, recipient: Name)

  function StampOf(rows: seq<Row>, i: nat): Stamp
    requires i < |rows|
  {
    Stamp(i, rows[i].created, rows[i].sender, rows[i].recipient)
  }

  predicate Before(x: Stamp, y: Stamp) {
    x.created < y.created || (x.created == y.created && x.id < y.id)
  }

  predicate Sorted(s: seq<Stamp>) {
    forall i, j | 0 <= i < j < |s| :: Before(s[i], s[j])
  }

  // The number of leading stamps created no later than c, found from the end.
  function Upto(s: seq<Stamp>, c: int): (p: nat)
    ensures p <= |s|
    ensures forall k | p <= k < |s| :: c < s[k].created
    ensures p > 0 ==> s[p - 1].created <= c
  {
    if s == [] || s[|s| - 1].created <= c then |s| else Upto(s[..|s| - 1], c)
  }

  function Place(s: seq<Stamp>, x: Stamp): seq<Stamp> {
    s[..Upto(s, x.created)] + [x] + s[Upto(s, x.created)..]
  }

  function Select(rows: seq<Row>, p: Row -> bool): seq<Stamp> {
    if rows == [] then []
    else
      var last := |rows| - 1;
      var earlier := Select(rows[..last], p);
      if p(rows[last]) then Place(earlier, StampOf(rows, last)) else earlier
  }

  // WHERE clauses.
  function OnThread(thread: string): Row -> bool {
    (r: Row) => r.thread == thread
  }

  function Inbox(agent: Name): Row -> bool {
    (r: Row) => r.recipient == agent && r.processed.None?
  }

  function Thread(rows: seq<Row>, thread: string): seq<Stamp> {
    Select(rows, OnThread(thread))
  }

  // The queue of unprocessed rows of one agent, oldest first.
  function Pending(rows: seq<Row>, agent: Name): seq<Stamp> {
    Select(rows, Inbox(agent))
  }

  // SELECT * ... ORDER BY created_at ASC LIMIT 1
  function Oldest(rows: seq<Row>, agent: Name): (r: Option<nat>)
    ensures r.Some? ==> r.value < |rows| && Inbox(agent)(rows[r.value])
  {
    SelectIsTheOrderedQuery(rows, Inbox(agent));
    var queue := Pending(rows, agent);
    if queue == [] then None else assert queue[0] in queue; Some(queue[0].id)
  }

  // SELECT from_agent, to_agent ... ORDER BY created_at DESC LIMIT n
  function Tail(rows: seq<Row>, thread: string, limit: nat): seq<(Name, Name)> {
    var s := Thread(rows, thread);
    seq(Min(limit, |s|), k requires 0 <= k < Min(limit, |s|) => (s[|s| - 1 - k].sender, s[|s| - 1 - k].recipient))
  }

  function Ids(rows: seq<Row>, p: Row -> bool): set<nat> {
    set i: nat | i < |rows| && p(rows[i])
  }

  // SELECT COUNT(*) ... WHERE thread_id = ?
  function Count(rows: seq<Row>, thread: string): nat {
    |Ids(rows, OnThread(thread))|
  }

  // ---- Facts about placing one stamp ----

  lemma PlaceKeepsOrder(s: seq<Stamp>, x: Stamp)
    requires Sorted(s)
    requires forall k | 0 <= k < |s| :: s[k].id < x.id
    ensures Sorted(Place(s, x))
  {
    var p := Upto(s, x.created);
    forall k | 0 <= k < p ensures s[k].created <= x.created {
      assert k < p - 1 ==> Before(s[k], s[p - 1]);
    }
  }

  lemma UptoBounds(s: seq<Stamp>, c: int, k: nat)
    requires Sorted(s) && k < |s|
    ensures k < Upto(s, c) <==> s[k].created <= c
  {
    var p := Upto(s, c);
    if k + 1 < p {
      assert Before(s[k], s[p - 1]);
    }
  }

  lemma UptoIsUnique(s: seq<Stamp>, c: int, p: nat)
    requires p <= |s|
    requires forall k | p <= k < |s| :: c < s[k].created
    requires forall k | 0 <= k < p :: s[k].created <= c
    ensures Upto(s, c) == p
  {
    var q := Upto(s, c);
    assert q < |s| ==> c < s[q].created;
    assert q > 0 ==> s[q - 1].created <= c;
  }

  // ---- The ordered query ----

  ghost predicate Answers(rows: seq<Row>, p: Row -> bool, s: seq<Stamp>) {
    && Sorted(s)
    && (forall x | x in s :: x.id < |rows| && x == StampOf(rows, x.id) && p(rows[x.id]))
    && (forall i: nat | i < |rows| && p(rows[i]) :: StampOf(rows, i) in s)
  }

  lemma PlaceMembers(s: seq<Stamp>, x: Stamp, y: Stamp)
    ensures y in Place(s, x) <==> y == x || y in s
  {
    var cut := Upto(s, x.created);
    assert s == s[..cut] + s[cut..];
  }

  lemma AnswersAppend(rows: seq<Row>, r: Row, p: Row -> bool, s: seq<Stamp>)
    requires Answers(rows, p, s)
    ensures Answers(rows + [r], p, if p(r) then Place(s, StampOf(rows + [r], |rows|)) else s)
  {
    var after := rows + [r];
    var x := StampOf(after, |rows|);
    var t := if p(r) then Place(s, x) else s;
    assert Sorted(t) by {
      forall k | 0 <= k < |s| ensures s[k].id < x.id {
        assert s[k] in s;
      }
      PlaceKeepsOrder(s, x);
    }
    forall y ensures y in t <==> (p(r) && y == x) || y in s {
      PlaceMembers(s, x, y);
    }
    forall y | y in t ensures y.id < |after| && y == StampOf(after, y.id) && p(after[y.id]) {
    }
    forall i: nat | i < |after| && p(after[i]) ensures StampOf(after, i) in t {
      if i < |rows| { assert StampOf(rows, i) in s; }
    }
  }

  lemma {:induction false} SelectIsTheOrderedQuery(rows: seq<Row>, p: Row -> bool)
    ensures Answers(rows, p, Select(rows, p))
  {
    if rows == [] {
    } else {
      var last := |rows| - 1;
      SelectIsTheOrderedQuery(rows[..last], p);
      AnswersAppend(rows[..last], rows[last], p, Select(rows[..last], p));
      assert rows[..last] + [rows[last]] == rows;
    }
  }

  lemma HeadIsIn(s: seq<Stamp>)
    ensures s == [] || s[0] in s
  {
  }

  lemma SortedTail(s: seq<Stamp>, x: Stamp)
    requires Sorted(s) && s != []
    ensures x in s[1..] <==> x in s && x != s[0]
    ensures x in s ==> x == s[0] || Before(s[0], x)
  {
    assert s == [s[0]] + s[1..];
    assert forall k | 1 <= k < |s| :: Before(s[0], s[k]);
  }

  lemma {:induction false} SortedAreEqual(s: seq<Stamp>, t: seq<Stamp>)
    requires Sorted(s) && Sorted(t)
    requires forall x :: x in s <==> x in t
    ensures s == t
  {
    if s == [] {
      HeadIsIn(t);
    } else {
      assert s[0] in s && s[0] in t;
      SortedTail(s, t[0]);
      SortedTail(t, s[0]);
      forall x ensures x in s[1..] <==> x in t[1..] {
        SortedTail(s, x);
        SortedTail(t, x);
      }
      SortedAreEqual(s[1..], t[1..]);
      assert s == [s[0]] + s[1..] && t == [t[0]] + t[1..];
    }
  }

  // Any correct answer to the ordered query is the one computed here.
  lemma OrderedQueryIsUnique(rows: seq<Row>, p: Row -> bool, s: seq<Stamp>)
    requires Answers(rows, p, s)
    ensures s == Select(rows, p)
  {
    SelectIsTheOrderedQuery(rows, p);
    var t := Select(rows, p);
    forall x ensures x in s <==> x in t {
      if x in s { assert StampOf(rows, x.id) in t; }
      if x in t { assert StampOf(rows, x.id) in s; }
    }
    SortedAreEqual(s, t);
  }

  // ---- How a query changes with the table ----

  lemma SelectAppend(rows: seq<Row>, r: Row, p: Row -> bool)
    ensures Select(rows + [r], p)
         == if p(r) then Place(Select(rows, p), Stamp(|rows|, r.created, r.sender, r.recipient)) else Select(rows, p)
  {
    assert (rows + [r])[..|rows|] == rows;
  }

  // A change that the query does not look at leaves its answer alone.
  lemma SelectUpdate(rows: seq<Row>, i: nat, r: Row, p: Row -> bool)
    requires i < |rows| && p(r) == p(rows[i])
    requires r.created == rows[i].created && r.sender == rows[i].sender && r.recipient == rows[i].recipient
    ensures Select(rows[i := r], p) == Select(rows, p)
  {
    SelectIsTheOrderedQuery(rows, p);
    var after := rows[i := r];
    var s := Select(rows, p);
    assert forall j: nat | j < |rows| :: StampOf(after, j) == StampOf(rows, j);
    forall x | x in s ensures x.id < |after| && x == StampOf(after, x.id) && p(after[x.id]) {
      assert x == StampOf(rows, x.id);
    }
    forall j: nat | j < |after| && p(after[j]) ensures StampOf(after, j) in s {
      assert StampOf(rows, j) in s;
    }
    OrderedQueryIsUnique(after, p, s);
  }

  lemma IdsAppend(rows: seq<Row>, r: Row, p: Row -> bool)
    ensures Ids(rows + [r], p) == Ids(rows, p) + (if p(r) then {|rows|} else {})
    ensures |rows| !in Ids(rows, p)
  {
  }

  lemma IdsKept(rows: seq<Row>, i: nat, r: Row, p: Row -> bool)
    requires i < |rows| && p(r) == p(rows[i])
    ensures Ids(rows[i := r], p) == Ids(rows, p)
  {
  }

  lemma IdsDropped(rows: seq<Row>, i: nat, r: Row, p: Row -> bool)
    requires i < |rows| && p(rows[i]) && !p(r)
    ensures Ids(rows[i := r], p) == Ids(rows, p) - {i}
    ensures i in Ids(rows, p)
  {
  }

  lemma {:induction false} SelectCounts(rows: seq<Row>, p: Row -> bool)
    ensures |Select(rows, p)| == |Ids(rows, p)|
  {
    if rows == [] {
    } else {
      var last := |rows| - 1;
      SelectCounts(rows[..last], p);
      assert rows == rows[..last] + [rows[last]];
      IdsAppend(rows[..last], rows[last], p);
    }
  }

  // ---- What the four queries promise ----

  // The received row is unprocessed, addressed to the agent, and no such row is older;
  // there is none exactly when the inbox is empty.
  lemma OldestIsTheOldest(rows: seq<Row>, agent: Name)
    ensures Oldest(rows, agent).None? <==> forall i: nat | i < |rows| :: !Inbox(agent)(rows[i])
    ensures Oldest(rows, agent).Some? ==>
              var i := Oldest(rows, agent).value;
              && i < |rows| && rows[i].recipient == agent && rows[i].processed.None?
              && forall j: nat | j < |rows| && j != i && Inbox(agent)(rows[j]) ::
                   Before(StampOf(rows, i), StampOf(rows, j))
  {
    SelectIsTheOrderedQuery(rows, Inbox(agent));
    var queue := Pending(rows, agent);
    if queue != [] {
      var i := queue[0].id;
      assert queue[0] in queue;
      forall j: nat | j < |rows| && j != i && Inbox(agent)(rows[j]) ensures Before(StampOf(rows, i), StampOf(rows, j)) {
        var k :| 0 <= k < |queue| && queue[k] == StampOf(rows, j);
      }
      assert Inbox(agent)(rows[i]);
    }
  }

  // Processing the head of a queue pops it and leaves every other queue as it was.
  lemma ProcessingPopsTheQueue(rows: seq<Row>, agent: Name, now: int)
    requires Oldest(rows, agent).Some?
    ensures var i := Oldest(rows, agent).value;
            && i < |rows|
            && var after := rows[i := rows[i].(processed := Some(now))];
               && Pending(after, agent) == Pending(rows, agent)[1..]
               && forall other | other != agent :: Pending(after, other) == Pending(rows, other)
  {
    OldestIsTheOldest(rows, agent);
    SelectIsTheOrderedQuery(rows, Inbox(agent));
    var queue := Pending(rows, agent);
    var i := queue[0].id;
    var after := rows[i := rows[i].(processed := Some(now))];
    assert queue[0] in queue && queue[0] == StampOf(rows, i);
    var s := queue[1..];
    forall x | x in s ensures x.id < |after| && x == StampOf(after, x.id) && Inbox(agent)(after[x.id]) {
      var k :| 1 <= k < |queue| && queue[k] == x;
      assert x in queue && Before(queue[0], queue[k]);
    }
    forall j: nat | j < |after| && Inbox(agent)(after[j]) ensures StampOf(after, j) in s {
      assert j != i;
      assert StampOf(rows, j) in queue;
    }
    OrderedQueryIsUnique(after, Inbox(agent), s);
    forall other | other != agent ensures Pending(after, other) == Pending(rows, other) {
      SelectUpdate(rows, i, after[i], Inbox(other));
    }
  }
}
