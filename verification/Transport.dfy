/** The SQLite transport: the methods that change or query the `messages` table. */
module Transport {
  import opened Messages
  import opened Query
  import opened Names

  datatype Delivery = Delivery(id: nat, row: Row)

  datatype AckError = NoSuchMessage(id: int)

  // One row per resolved recipient, in order.
  function Deliveries(m: Message, recipients: seq<Name>, now: int): seq<Row> {
    seq(|recipients|, k requires 0 <= k < |recipients| =>
      Row(m.sender, recipients[k], m.subject, m.body, m.thread, m.parent, m.created, Some(now), None, None))
  }

  // "*" stands for every recipient the table has seen before this message.
  function Recipients(rows: seq<Row>, to: Addressee): seq<Name> {
    match to
    case Many(names) => names
    case One(name) => if name == EVERYONE then KnownAgents(rows) else [name]
  }

  // `after` is `before` and, for each name, a row with the message's fields that nobody has received.
  ghost predicate Delivered(before: seq<Row>, after: seq<Row>, m: Message, names: seq<Name>, now: int) {
    && |after| == |before| + |names| && before <= after
    && forall k | 0 <= k < |names| ::
         var r := after[|before| + k];
         && r.recipient == names[k] && r.sender == m.sender && r.subject == m.subject && r.body == m.body
         && r.thread == m.thread && r.parent == m.parent && r.created == m.created && r.sent == Some(now)
         && r.received.None? && r.processed.None?
  }

  lemma DeliveriesAreDelivered(before: seq<Row>, m: Message, names: seq<Name>, now: int)
    ensures Delivered(before, before + Deliveries(m, names, now), m, names, now)
  {
  }

  class SQLiteTransport {
    var rows: seq<Row>

    constructor ()
      ensures rows == []
    {
      rows := [];
    }

    // The oldest unprocessed row of the agent, marked as received.
    method Receive(agent: Name, now: int) returns (msg: Option<Delivery>)
      modifies this
      ensures msg.None? <==> forall i: nat | i < |old(rows)| :: !Inbox(agent)(old(rows)[i])
      ensures msg.None? ==> rows == old(rows)
      ensures msg.Some? ==>
                && Oldest(old(rows), agent) == Some(msg.value.id) && msg.value.id < |old(rows)|
                && rows == old(rows)[msg.value.id := msg.value.row]
                && msg.value.row == old(rows)[msg.value.id].(received := Some(now))
                && Inbox(agent)(msg.value.row)
                && forall j: nat | j < |old(rows)| && j != msg.value.id && Inbox(agent)(old(rows)[j]) ::
                     Before(StampOf(old(rows), msg.value.id), StampOf(old(rows), j))
    {
      OldestIsTheOldest(rows, agent);
      var oldest := Oldest(rows, agent);
      match oldest
      case None => msg := None;
      case Some(id) =>
        rows := rows[id := rows[id].(received := Some(now))];
        msg := Some(Delivery(id, rows[id]));
    }

    // One row for each recipient, in order, behind the rows there were: for a single name, for each
    // name of a list, and for "*" for each recipient seen before.
    method Send(m: Message, now: int)
      modifies this
      ensures rows == old(rows) + Deliveries(m, Recipients(old(rows), m.to), now)
      ensures m.to.Many? ==> Delivered(old(rows), rows, m, m.to.names, now)
      ensures m.to.One? && m.to.name != EVERYONE ==> Delivered(old(rows), rows, m, [m.to.name], now)
      ensures m.to.One? && m.to.name == EVERYONE ==>
                exists names ::
                  && Ascending(names) && Delivered(old(rows), rows, m, names, now)
                  && forall n :: n in names <==> Seen(old(rows), n)
    {
      KnownAgentsAreTheRecipients(rows);
      DeliveriesAreDelivered(rows, m, Recipients(rows, m.to), now);
      var recipients: seq<Name>;
      match m.to {
        case Many(names) => recipients := names;
        case One(name) =>
          if name == EVERYONE {
            recipients := this.KnownRecipients();
            if recipients == [] {
              return;
            }
          } else {
            recipients := [name];
          }
      }
      var all := Deliveries(m, recipients, now);
      var k := 0;
      while k < |recipients|
        invariant 0 <= k <= |recipients|
        invariant rows == old(rows) + all[..k]
      {
        rows := rows + [Row(m.sender, recipients[k], m.subject, m.body, m.thread, m.parent, m.created, Some(now),
                            None, None)];
        assert all[..k + 1] == all[..k] + [all[k]];
        k := k + 1;
      }
    }

    // Fails, changing nothing, exactly when no row has the id.
    method Ack(id: int, now: int) returns (r: Result<nat, AckError>)
      modifies this
      ensures r.Ok? <==> 0 <= id < |old(rows)|
      ensures r.Err? ==> rows == old(rows)
      ensures r.Ok? ==> rows == old(rows)[id := old(rows)[id].(processed := Some(now))]
    {
      if 0 <= id < |rows| {
        rows := rows[id := rows[id].(processed := Some(now))];
        r := Ok(id);
      } else {
        r := Err(NoSuchMessage(id));
      }
    }

    method KnownRecipients() returns (names: seq<Name>)
      ensures names == KnownAgents(rows)
      ensures Ascending(names)
      ensures forall n :: n in names <==> Seen(rows, n)
    {
      KnownAgentsAreTheRecipients(rows);
      names := KnownAgents(rows);
    }

    // (from, to) of the newest rows of a thread, newest first.
    method ThreadMessagesTail(thread: string, limit: nat) returns (pairs: seq<(Name, Name)>)
      ensures pairs == Tail(rows, thread, limit)
      ensures |pairs| == Min(limit, Count(rows, thread))
      ensures var s := Thread(rows, thread);
              Answers(rows, OnThread(thread), s)
              && forall k | 0 <= k < |pairs| :: k < |s| && pairs[k] == (s[|s| - 1 - k].sender, s[|s| - 1 - k].recipient)
    {
      SelectIsTheOrderedQuery(rows, OnThread(thread));
      SelectCounts(rows, OnThread(thread));
      pairs := Tail(rows, thread, limit);
    }

    method ThreadMessageCount(thread: string) returns (n: nat)
      ensures n == Count(rows, thread) == |Thread(rows, thread)|
    {
      SelectCounts(rows, OnThread(thread));
      n := Count(rows, thread);
    }
  }

  // Receiving changes nobody's queue, so without an acknowledgement or an older arrival the same row
  // is received again.
  lemma ReceivingKeepsQueues(rows: seq<Row>, agent: Name, now: int, other: Name)
    requires Oldest(rows, agent).Some?
    ensures var i := Oldest(rows, agent).value;
            Pending(rows[i := rows[i].(received := Some(now))], other) == Pending(rows, other)
  {
    var i := Oldest(rows, agent).value;
    SelectUpdate(rows, i, rows[i].(received := Some(now)), Inbox(other));
  }

  // ---- Receiving and acknowledging until the inbox is empty ----

  // Row i received and then processed.
  function Handled(rows: seq<Row>, i: nat, received: int, processed: int): seq<Row>
    requires i < |rows|
  {
    rows[i := rows[i].(received := Some(received), processed := Some(processed))]
  }

  lemma HandlingPopsTheQueue(rows: seq<Row>, agent: Name, received: int, processed: int)
    requires Oldest(rows, agent).Some?
    ensures Oldest(rows, agent).value < |rows|
    ensures Pending(Handled(rows, Oldest(rows, agent).value, received, processed), agent) == Pending(rows, agent)[1..]
    ensures forall other | other != agent ::
              Pending(Handled(rows, Oldest(rows, agent).value, received, processed), other) == Pending(rows, other)
  {
    OldestIsTheOldest(rows, agent);
    var i := Oldest(rows, agent).value;
    var seen := rows[i := rows[i].(received := Some(received))];
    forall a ensures Pending(seen, a) == Pending(rows, a) {
      ReceivingKeepsQueues(rows, agent, received, a);
    }
    assert Oldest(seen, agent) == Oldest(rows, agent);
    ProcessingPopsTheQueue(seen, agent, processed);
    assert seen[i := seen[i].(processed := Some(processed))] == Handled(rows, i, received, processed);
  }

  // The ids handled by receiving and acknowledging on a table nobody else changes.
  function Drain(rows: seq<Row>, agent: Name, now: int): seq<nat>
    decreases |Pending(rows, agent)|
  {
    if Oldest(rows, agent).None? then []
    else
      HandlingPopsTheQueue(rows, agent, now, now);
      [Oldest(rows, agent).value] + Drain(Handled(rows, Oldest(rows, agent).value, now, now), agent, now)
  }

  // Every pending row exactly once, oldest first.
  lemma {:induction false} DrainIsTheQueue(rows: seq<Row>, agent: Name, now: int)
    ensures |Drain(rows, agent, now)| == |Pending(rows, agent)|
    ensures forall k | 0 <= k < |Pending(rows, agent)| :: Drain(rows, agent, now)[k] == Pending(rows, agent)[k].id
    decreases |Pending(rows, agent)|
  {
    if Oldest(rows, agent).Some? {
      HandlingPopsTheQueue(rows, agent, now, now);
      DrainIsTheQueue(Handled(rows, Oldest(rows, agent).value, now, now), agent, now);
    }
  }
}
