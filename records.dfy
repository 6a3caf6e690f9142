/** The rows of the `publicaciones` table written when a photo arrives
    (bot.py:89-97) and read back when the user chooses (bot.py:116-124). */
module Records {
  import opened Wrappers
  import opened Choices

  /** The `estado` every row is written with. */
  const Waiting: string := "esperando"

  /** One row: the table's own `id`, then the columns the bot writes. */
  datatype Row = Row(
    id: int,
    chatId: int,
    photoUrl: string,
    option1: string,
    option2: string,
    option3: string,
    status: string)
  {
    /** `registro[key]` for the text columns; `None` for the integer columns
        and for keys the table does not have. */
    function Get(key: string): Option<string> {
      if key == "photo_url" then Some(photoUrl)
      else if key == "opcion_1" then Some(option1)
      else if key == "opcion_2" then Some(option2)
      else if key == "opcion_3" then Some(option3)
      else if key == "estado" then Some(status)
      else None
    }
  }

  /** The option of `row` that choice `c` selects: `registro[f"opcion_{c}"]`
      always finds its column, and choice k reads option k. */
  function Caption(row: Row, c: Choice): (r: Option<string>)
    ensures r == Some(match c case One => row.option1 case Two => row.option2 case Three => row.option3)
  {
    FieldKeys();
    row.Get(FieldKey(c))
  }

  /** The rows of `user`. */
  ghost predicate HasRow(rows: seq<Row>, user: int) {
    exists k :: 0 <= k < |rows| && rows[k].chatId == user
  }

  /** The select `chat_id = user order by id desc limit 1`: the row with the
      largest id among the user's rows, `None` when the user has none. */
  function Latest(rows: seq<Row>, user: int): (r: Option<Row>)
    ensures r.None? <==> !HasRow(rows, user)
    ensures r.Some? ==> r.value in rows && r.value.chatId == user
    ensures r.Some? ==> forall k :: 0 <= k < |rows| && rows[k].chatId == user ==> rows[k].id <= r.value.id
    decreases |rows|
  {
    if |rows| == 0 then None
    else
      var earlier := Latest(rows[..|rows| - 1], user);
      var last := rows[|rows| - 1];
      assert forall k :: 0 <= k < |rows| - 1 ==> rows[..|rows| - 1][k] == rows[k];
      if last.chatId != user then earlier
      else if earlier.Some? && earlier.value.id > last.id then earlier
      else Some(last)
  }

  /** The id of the row at position `i`. */
  function IdAt(rows: seq<Row>, i: int): int
    requires 0 <= i < |rows|
  {
    rows[i].id
  }

  /** Ids grow along the table, as the database assigns them. */
  ghost predicate IdsIncreasing(rows: seq<Row>) {
    forall i, j :: 0 <= i < j < |rows| ==> IdAt(rows, i) < IdAt(rows, j)
  }

  /** With distinct ids the latest row is unique: any row of the user whose id
      is no smaller than every other row of the user is the one returned. */
  lemma LatestUnique(rows: seq<Row>, user: int, row: Row)
    requires IdsIncreasing(rows)
    requires row in rows && row.chatId == user
    requires forall k :: 0 <= k < |rows| && rows[k].chatId == user ==> rows[k].id <= row.id
    ensures Latest(rows, user) == Some(row)
  {
    var r := Latest(rows, user);
    var i :| 0 <= i < |rows| && rows[i] == row;
    var j :| 0 <= j < |rows| && rows[j] == r.value;
    assert IdAt(rows, i) == IdAt(rows, j);
  }

  /** Appending a row whose id exceeds every stored id keeps the ids
      increasing, and every user who had a row still has one. */
  lemma InsertKeepsOrder(rows: seq<Row>, row: Row)
    requires IdsIncreasing(rows)
    requires forall k :: 0 <= k < |rows| ==> rows[k].id < row.id
    ensures IdsIncreasing(rows + [row])
    ensures HasRow(rows + [row], row.chatId)
    ensures forall user :: HasRow(rows, user) ==> HasRow(rows + [row], user)
  {
    var r := rows + [row];
    assert r[|rows|] == row;
    forall i, j | 0 <= i < j < |r|
      ensures IdAt(r, i) < IdAt(r, j)
    {
      if j < |rows| {
        assert IdAt(rows, i) < IdAt(rows, j);
      }
    }
    forall user | HasRow(rows, user)
      ensures HasRow(r, user)
    {
      var k :| 0 <= k < |rows| && rows[k].chatId == user;
      assert r[k] == rows[k];
    }
  }

  /** Inserting a row whose id exceeds every stored id makes it the row a
      later choice by its user reads, and leaves every other user's latest row
      as it was. */
  lemma LatestAfterInsert(rows: seq<Row>, row: Row)
    requires forall k :: 0 <= k < |rows| ==> rows[k].id < row.id
    ensures Latest(rows + [row], row.chatId) == Some(row)
    ensures forall user :: user != row.chatId ==> Latest(rows + [row], user) == Latest(rows, user)
  {
    assert (rows + [row])[..|rows|] == rows;
  }
}
