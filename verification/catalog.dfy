/**
 * The movie inventory: the `movies` collection as a map from title (the
 * document id) to its document, plus the transaction log.  Each mutation is a
 * guarded read-modify-write: a failed guard leaves store and log as they were,
 * a passed guard writes the whole document back and appends one log message.
 *
 * Quantities are unbounded signed integers, as `int(input(...))` yields them.
 * Nothing checks the sign of a new item's quantity or of an added amount, so
 * a non-negative stock is not an invariant of the store; see
 * `UseInventoryKeepsStockNonNegative` and `AddInventoryCanDriveStockNegative`.
 */
module Catalog {
  import TransactionLog

  /** One document of the `movies` collection; its title is the key, not a field. */
  datatype Movie = Movie(
    year: int,
    rating: string,
    studio: string,
    mediaType: string,
    actors: seq<string>,
    genres: seq<string>,
    specialFeatures: seq<string>,
    qty: int,
    popular: bool)

  type Store = map<string, Movie>

  datatype State = State(movies: Store, log: TransactionLog.Log)

  /** How a mutation ended; `Insufficient` carries the quantity on hand that it reports. */
  datatype Outcome = Ok | AlreadyExists | NotFound | Insufficient(onHand: int)

  datatype Step = Step(state: State, outcome: Outcome)

  /**
   * The operator's answers to the add-new-item prompts once parsed: the
   * comma-separated lists are still the raw strings that were typed.
   */
  datatype NewItem = NewItem(
    title: string,
    year: int,
    rating: string,
    studio: string,
    mediaType: string,
    actors: string,
    genres: string,
    specialFeatures: string,
    qty: int,
    popular: bool)

  /** `b` is `a` with at most its quantity changed. */
  predicate SameExceptQty(a: Movie, b: Movie) {
    a.(qty := b.qty) == b
  }

  /** Every title other than `title` keeps its document, and no such title appears or disappears. */
  predicate OthersUnchanged(before: Store, after: Store, title: string) {
    && (forall t :: t in before && t != title ==> t in after && after[t] == before[t])
    && (forall t :: t in after && t != title ==> t in before)
  }

  predicate StockNonNegative(movies: Store) {
    forall t :: t in movies ==> movies[t].qty >= 0
  }

  /**
   * Creates the document for a title not yet in the store.  The actor, genre
   * and special-feature answers are each stored as a one-element list holding
   * the whole typed string, commas included.
   */
  function AddNewItem(s: State, item: NewItem): (r: Step)
    ensures item.title in s.movies ==> r == Step(s, AlreadyExists)
    ensures item.title !in s.movies ==>
      && r.outcome == Ok
      && r.state.movies.Keys == s.movies.Keys + {item.title}
      && OthersUnchanged(s.movies, r.state.movies, item.title)
      && var m := r.state.movies[item.title];
      && m.year == item.year && m.rating == item.rating && m.studio == item.studio
      && m.mediaType == item.mediaType && m.qty == item.qty && m.popular == item.popular
      && m.actors == [item.actors] && m.genres == [item.genres]
      && m.specialFeatures == [item.specialFeatures]
      && r.state.log == s.log + [TransactionLog.Message(TransactionLog.AddedNew(item.title, item.qty))]
  {
    if item.title in s.movies then Step(s, AlreadyExists)
    else
      var doc := Movie(item.year, item.rating, item.studio, item.mediaType,
                       [item.actors], [item.genres], [item.specialFeatures],
                       item.qty, item.popular);
      var message := TransactionLog.Message(TransactionLog.AddedNew(item.title, item.qty));
      Step(State(s.movies[item.title := doc], TransactionLog.LogTransaction(s.log, message)), Ok)
  }

  /** Adds `addQty` (of either sign) to the quantity of an existing title. */
  function AddInventory(s: State, title: string, addQty: int): (r: Step)
    ensures title !in s.movies ==> r == Step(s, NotFound)
    ensures title in s.movies ==>
      && r.outcome == Ok
      && r.state.movies.Keys == s.movies.Keys
      && r.state.movies[title].qty == s.movies[title].qty + addQty
      && SameExceptQty(s.movies[title], r.state.movies[title])
      && OthersUnchanged(s.movies, r.state.movies, title)
      && r.state.log == s.log + [TransactionLog.Message(TransactionLog.Added(title, addQty))]
  {
    if title !in s.movies then Step(s, NotFound)
    else
      var data := s.movies[title];
      var message := TransactionLog.Message(TransactionLog.Added(title, addQty));
      Step(State(s.movies[title := data.(qty := data.qty + addQty)],
                 TransactionLog.LogTransaction(s.log, message)), Ok)
  }

  /**
   * Takes `useQty` from the quantity of an existing title, refusing when that
   * is more than is on hand.  The sign of `useQty` is never checked: a
   * negative amount is refused only when it exceeds the stock on hand, which
   * happens only when that stock is itself negative; otherwise it raises the
   * quantity.
   */
  function UseInventory(s: State, title: string, useQty: int): (r: Step)
    ensures r.outcome == Ok <==> title in s.movies && useQty <= s.movies[title].qty
    ensures r.outcome != Ok ==> r.state == s
    ensures title !in s.movies ==> r.outcome == NotFound
    ensures title in s.movies && useQty > s.movies[title].qty ==>
      r.outcome == Insufficient(s.movies[title].qty)
    ensures r.outcome == Ok ==>
      && r.state.movies.Keys == s.movies.Keys
      && r.state.movies[title].qty == s.movies[title].qty - useQty
      && r.state.movies[title].qty >= 0
      && SameExceptQty(s.movies[title], r.state.movies[title])
      && OthersUnchanged(s.movies, r.state.movies, title)
      && r.state.log == s.log + [TransactionLog.Message(TransactionLog.Used(title, useQty))]
  {
    if title !in s.movies then Step(s, NotFound)
    else
      var data := s.movies[title];
      if useQty > data.qty then Step(s, Insufficient(data.qty))
      else
        var message := TransactionLog.Message(TransactionLog.Used(title, useQty));
        Step(State(s.movies[title := data.(qty := data.qty - useQty)],
                   TransactionLog.LogTransaction(s.log, message)), Ok)
  }

  /** A second creation of the same title is refused and the first document survives. */
  lemma AddNewItemTwice(s: State, item: NewItem, again: NewItem)
    requires item.title !in s.movies
    requires again.title == item.title
    ensures var first := AddNewItem(s, item).state;
      && AddNewItem(first, again) == Step(first, AlreadyExists)
      && first.movies[item.title].qty == item.qty
  {
  }

  /** Using back what was just added restores the store. */
  lemma UseUndoesAdd(s: State, title: string, amount: int)
    requires title in s.movies
    ensures var added := AddInventory(s, title, amount).state;
      var used := UseInventory(added, title, amount);
      && (used.outcome == Ok <==> s.movies[title].qty >= 0)
      && (used.outcome == Ok ==> used.state.movies == s.movies && |used.state.log| == |s.log| + 2)
  {
  }

  /** Adding back what was just used restores the store. */
  lemma AddUndoesUse(s: State, title: string, amount: int)
    requires UseInventory(s, title, amount).outcome == Ok
    ensures var used := UseInventory(s, title, amount).state;
      AddInventory(used, title, amount).state.movies == s.movies
  {
  }

  /** A successful use keeps a non-negative store non-negative, whatever the sign of `useQty`. */
  lemma UseInventoryKeepsStockNonNegative(s: State, title: string, useQty: int)
    requires StockNonNegative(s.movies)
    ensures StockNonNegative(UseInventory(s, title, useQty).state.movies)
  {
  }

  /** Adding a non-negative amount keeps stock non-negative. */
  lemma AddInventoryKeepsStockNonNegative(s: State, title: string, addQty: int)
    requires StockNonNegative(s.movies)
    requires addQty >= 0
    ensures StockNonNegative(AddInventory(s, title, addQty).state.movies)
  {
  }

  /** Creating with a non-negative quantity keeps stock non-negative. */
  lemma AddNewItemKeepsStockNonNegative(s: State, item: NewItem)
    requires StockNonNegative(s.movies)
    requires item.qty >= 0
    ensures StockNonNegative(AddNewItem(s, item).state.movies)
  {
  }

  /** Nothing refuses a negative amount, so adding can leave a title with negative stock. */
  lemma AddInventoryCanDriveStockNegative(s: State, title: string, addQty: int)
    requires title in s.movies && addQty < -s.movies[title].qty
    ensures AddInventory(s, title, addQty).outcome == Ok
    ensures !StockNonNegative(AddInventory(s, title, addQty).state.movies)
  {
  }
}
