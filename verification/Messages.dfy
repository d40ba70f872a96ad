/** Values that cross the transport/core boundary, and the rows of the shared `messages` table. */
module Messages {

  datatype Option<+T> = None | Some(value: T)

  datatype Result<+T, +E> = Ok(value: T) | Err(error: E)

  type Name = string

  const HUMAN: Name := "human"
  const EVERYONE: Name := "*"

  // One row of the table. A row's id is its position: the key is assigned by AUTOINCREMENT
  // and rows are never deleted, so position n holds the row whose database id is n + 1.
  datatype Row = Row(
    sender: Name,
    recipient: Name,
    subject: string,
    body: string,
    thread: string,
    parent: Option<nat>,
    created: int,
    sent: Option<int>,
    received: Option<int>,
    processed: Option<int>)

  // What may stand in `to_agent` before the transport resolves it to single names.
  datatype Addressee = One(name: Name) | Many(names: seq<Name>)

  // A message as its sender constructs it, before it has an id.
  datatype Message = Message(
    sender: Name,
    to: Addressee,
    body: string,
    subject: string,
    thread: string,
    parent: Option<nat>,
    created: int)

  function Min(a: int, b: int): int { if a <= b then a else b }
}
