/** The inventory store as the resolver sees it: a snapshot of rows of the
    `video` table, searched by case-insensitive substring on `name`, and an
    outage that makes a query raise instead of answering. */
module Inventory {
  import opened Wrappers
  import opened Text

  /** A JSON value of a `quantity` or `units` cell. */
  datatype Value = Null | Number(n: int) | Str(s: string)

  /** A stored row. A column is `None` when the row returned for the
      `select('quantity, units')` carries no such key. */
  datatype Row = Row(name: string, quantity: Option<Value>, units: Option<Value>)

  /** A store snapshot. With `outageAfter == Some(n)` the store answers the
      first `n` queries of a request and raises `outage` from then on. */
  datatype Store = Store(rows: seq<Row>, outageAfter: Option<nat>, outage: string)

  /** What can go wrong while resolving: the store raises, a column key is
      missing (`KeyError`), or `words[0]` is taken of an empty word list
      (`IndexError`). */
  datatype Fault = Unavailable(message: string) | MissingColumn(column: string) | NoWords

  /** One entry of the response's `items` list. */
  datatype Item = Item(name: string, quantity: Value, units: Value)

  /** `ilike('name', '%' + p + '%')`: the row's name contains `p`, ignoring case. */
  predicate Matches(row: Row, p: string) {
    Contains(Lower(row.name), Lower(p))
  }

  /** Index of the first row that matches `p`. */
  function FirstMatch(rows: seq<Row>, p: string): (r: Option<nat>)
    ensures r.Some? ==> r.value < |rows|
    decreases |rows|
  {
    if |rows| == 0 then None
    else if Matches(rows[0], p) then Some(0)
    else match FirstMatch(rows[1..], p)
      case None => None
      case Some(i) => Some(i + 1)
  }

  /** The first match is the least index of a matching row. */
  lemma {:induction false} FirstMatchSpec(rows: seq<Row>, p: string)
    ensures var r := FirstMatch(rows, p);
      (r.Some? ==> Matches(rows[r.value], p) && forall j :: 0 <= j < r.value ==> !Matches(rows[j], p))
      && (r.None? <==> forall j :: 0 <= j < |rows| ==> !Matches(rows[j], p))
    decreases |rows|
  {
    if |rows| > 0 && !Matches(rows[0], p) {
      var tail := rows[1..];
      FirstMatchSpec(tail, p);
      forall j | 1 <= j < |rows| ensures rows[j] == tail[j - 1] { }
    }
  }

  /** The rows a query for `p` returns, in store order. */
  function Query(rows: seq<Row>, p: string): (r: seq<Row>)
    ensures |r| <= |rows|
    ensures |r| > 0 <==> FirstMatch(rows, p).Some?
    ensures |r| > 0 ==> r[0] == rows[FirstMatch(rows, p).value]
    decreases |rows|
  {
    if |rows| == 0 then []
    else
      var rest := Query(rows[1..], p);
      if Matches(rows[0], p) then [rows[0]] + rest
      else
        assert forall j :: 0 <= j < |rows| - 1 ==> rows[1..][j] == rows[j + 1];
        rest
  }

  /** A query returns exactly the matching rows of the snapshot. */
  lemma {:induction false} QueryMembers(rows: seq<Row>, p: string)
    ensures forall x :: x in Query(rows, p) <==> x in rows && Matches(x, p)
    decreases |rows|
  {
    if |rows| > 0 {
      QueryMembers(rows[1..], p);
      assert forall x :: x in rows <==> x == rows[0] || x in rows[1..];
    }
  }

  /** Issues the query numbered `issued` (counting from 0 within a request):
      the store raises from the outage on, and before it answers with
      exactly the matching rows, the first matching row first. */
  function Ask(store: Store, issued: nat, p: string): (r: Result<seq<Row>, Fault>)
    ensures r.Failure? <==> store.outageAfter.Some? && issued >= store.outageAfter.value
    ensures r.Failure? ==> r.error == Unavailable(store.outage)
    ensures r.Success? ==> forall x :: x in r.value <==> x in store.rows && Matches(x, p)
    ensures r.Success? ==> (|r.value| > 0 <==> FirstMatch(store.rows, p).Some?)
    ensures r.Success? && |r.value| > 0 ==> r.value[0] == store.rows[FirstMatch(store.rows, p).value]
  {
    QueryMembers(store.rows, p);
    match store.outageAfter
    case Some(n) => if issued >= n then Failure(Unavailable(store.outage)) else Success(Query(store.rows, p))
    case None => Success(Query(store.rows, p))
  }

  /** The same snapshot without the outage. */
  function Healthy(store: Store): Store {
    store.(outageAfter := None)
  }

  /** Both columns are present in the row. */
  predicate Complete(row: Row) {
    row.quantity.Some? && row.units.Some?
  }

  /** The entry for a name with no match: both fields null. */
  function Unmatched(name: string): Item {
    Item(name, Null, Null)
  }
}
