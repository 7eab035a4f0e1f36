/**
 * The two canned queries of the inventory search: every document, or the
 * documents whose quantity is exactly zero (the out-of-stock query, which
 * the stock alert watcher also subscribes to).  Results are keyed by title;
 * the store's natural order of results is not modelled.
 */
module Query {
  import opened Wrappers
  import Catalog

  /** The documents with `qty == 0`, each as stored. */
  function OutOfStock(movies: Catalog.Store): (r: Catalog.Store)
    ensures forall t :: t in r <==> t in movies && movies[t].qty == 0
    ensures forall t :: t in r ==> r[t] == movies[t]
  {
    map t | t in movies && movies[t].qty == 0 :: movies[t]
  }

  /**
   * Runs the query the operator picked: "1" lists everything, "2" lists the
   * out-of-stock items, anything else is an invalid selection (`None`).
   */
  function SearchInventory(movies: Catalog.Store, choice: string): (r: Option<Catalog.Store>)
    ensures r.Some? <==> choice == "1" || choice == "2"
    ensures r.Some? ==> r.value.Keys <= movies.Keys
    ensures r.Some? ==> forall t :: t in r.value ==> r.value[t] == movies[t]
    ensures choice == "1" ==> r == Some(movies)
    ensures choice == "2" ==> forall t :: t in movies ==> (t in r.value <==> movies[t].qty == 0)
  {
    if choice == "1" then Some(movies)
    else if choice == "2" then Some(OutOfStock(movies))
    else None
  }

  /** The out-of-stock listing and the listing of titles with stock split the full listing. */
  lemma OutOfStockPartitionsAll(movies: Catalog.Store)
    ensures OutOfStock(movies).Keys <= movies.Keys
    ensures forall t :: t in movies && t !in OutOfStock(movies) ==> movies[t].qty != 0
  {
  }

  /**
   * Only the mutated title can enter or leave the out-of-stock listing when a
   * mutation keeps every other document.
   */
  lemma OutOfStockFrame(before: Catalog.Store, after: Catalog.Store, title: string)
    requires Catalog.OthersUnchanged(before, after, title)
    ensures forall t :: t != title ==> (t in OutOfStock(after) <==> t in OutOfStock(before))
  {
  }

  /** One line of the search results table: the columns it shows for a document. */
  datatype Row = Row(title: string, year: int, rating: string, studio: string, mediaType: string, qty: int)

  function RowOf(title: string, m: Catalog.Movie): Row {
    Row(title, m.year, m.rating, m.studio, m.mediaType, m.qty)
  }

  /**
   * The rows displayed for a query result: one per document, in no
   * particular order, each showing that document's columns.
   */
  method ResultRows(results: Catalog.Store) returns (rows: seq<Row>)
    ensures |rows| == |results|
    ensures forall i :: 0 <= i < |rows| ==> rows[i].title in results && rows[i] == RowOf(rows[i].title, results[rows[i].title])
    ensures forall t :: t in results ==> exists i :: 0 <= i < |rows| && rows[i].title == t
    ensures forall i, j :: 0 <= i < j < |rows| ==> rows[i].title != rows[j].title
  {
    rows := [];
    var remaining := results.Keys;
    while remaining != {}
      invariant remaining <= results.Keys
      invariant |rows| + |remaining| == |results|
      invariant forall i :: 0 <= i < |rows| ==> rows[i].title in results && rows[i].title !in remaining
      invariant forall i :: 0 <= i < |rows| ==> rows[i] == RowOf(rows[i].title, results[rows[i].title])
      invariant forall t :: t in results && t !in remaining ==> exists i :: 0 <= i < |rows| && rows[i].title == t
      invariant forall i, j :: 0 <= i < j < |rows| ==> rows[i].title != rows[j].title
      decreases |remaining|
    {
      var t :| t in remaining;
      ghost var listed := rows;
      rows := rows + [RowOf(t, results[t])];
      assert forall i :: 0 <= i < |listed| ==> rows[i] == listed[i];
      assert rows[|listed|].title == t;
      remaining := remaining - {t};
    }
  }
}
