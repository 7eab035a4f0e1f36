/**
 * Sequences of mutations as the operator issues them one after another, and
 * what holds of the whole history: titles are never deleted, the log only
 * grows (by one message per successful mutation), a document's descriptive
 * fields never change after creation, and stock alerts follow quantity
 * changes of the mutated title only.
 */
module History {
  import opened Wrappers
  import Catalog
  import TransactionLog
  import Query
  import StockAlert
  import Decimal

  datatype Command =
    | AddNew(item: Catalog.NewItem)
    | AddQuantity(title: string, amount: int)
    | UseQuantity(title: string, amount: int)

  /** The title a command addresses. */
  function Target(c: Command): string {
    match c
    case AddNew(item) => item.title
    case AddQuantity(title, _) => title
    case UseQuantity(title, _) => title
  }

  /** The log record a command writes when it succeeds. */
  function Recorded(c: Command): TransactionLog.Transaction {
    match c
    case AddNew(item) => TransactionLog.AddedNew(item.title, item.qty)
    case AddQuantity(title, amount) => TransactionLog.Added(title, amount)
    case UseQuantity(title, amount) => TransactionLog.Used(title, amount)
  }

  /** Reads a log message back with the decoder for the command's kind. */
  function DecodeAs(c: Command, message: string): Option<TransactionLog.Transaction> {
    match c
    case AddNew(_) => TransactionLog.DecodeAddedNew(message)
    case AddQuantity(_, _) => TransactionLog.DecodeAdded(message)
    case UseQuantity(_, _) => TransactionLog.DecodeUsed(message)
  }

  /** One mutation, dispatched as the menu does for choices 1 to 3. */
  function Apply(s: Catalog.State, c: Command): (r: Catalog.Step)
    ensures r.outcome == Catalog.Ok ==> r.state.log == s.log + [TransactionLog.Message(Recorded(c))]
    ensures r.outcome != Catalog.Ok ==> r.state == s
    ensures s.movies.Keys <= r.state.movies.Keys
    ensures Catalog.OthersUnchanged(s.movies, r.state.movies, Target(c))
  {
    match c
    case AddNew(item) => Catalog.AddNewItem(s, item)
    case AddQuantity(title, amount) => Catalog.AddInventory(s, title, amount)
    case UseQuantity(title, amount) => Catalog.UseInventory(s, title, amount)
  }

  function Run(s: Catalog.State, cs: seq<Command>): Catalog.State
    decreases |cs|
  {
    if |cs| == 0 then s else Run(Apply(s, cs[0]).state, cs[1..])
  }

  /** How many commands of `cs`, run from `s`, succeed. */
  function Successes(s: Catalog.State, cs: seq<Command>): nat
    decreases |cs|
  {
    if |cs| == 0 then 0
    else
      var step := Apply(s, cs[0]);
      (if step.outcome == Catalog.Ok then 1 else 0) + Successes(step.state, cs[1..])
  }

  /**
   * Over any history the titles only accumulate, the earlier log is kept as a
   * prefix, and exactly one message is appended per successful command.
   */
  lemma {:induction false} RunIsMonotone(s: Catalog.State, cs: seq<Command>)
    ensures s.movies.Keys <= Run(s, cs).movies.Keys
    ensures |Run(s, cs).log| == |s.log| + Successes(s, cs)
    ensures Run(s, cs).log[..|s.log|] == s.log
    decreases |cs|
  {
    if |cs| > 0 {
      var next := Apply(s, cs[0]).state;
      RunIsMonotone(next, cs[1..]);
      assert next.log[..|s.log|] == s.log;
      assert Run(s, cs).log[..|next.log|][..|s.log|] == Run(s, cs).log[..|s.log|];
    }
  }

  /**
   * The entry a successful command appends names its title and quantity
   * exactly: reading it back gives the command's own record.
   */
  lemma LoggedEntryDecodes(s: Catalog.State, c: Command)
    requires Apply(s, c).outcome == Catalog.Ok
    ensures var log := Apply(s, c).state.log;
      |log| == |s.log| + 1 && DecodeAs(c, log[|s.log|]) == Some(Recorded(c))
  {
    match c
    case AddNew(item) => TransactionLog.DecodeAddedNewMessage(item.title, item.qty);
    case AddQuantity(title, amount) => TransactionLog.DecodeAddedMessage(title, amount);
    case UseQuantity(title, amount) => TransactionLog.DecodeUsedMessage(title, amount);
  }

  /** Once created, a document only ever changes its quantity. */
  lemma {:induction false} RunChangesOnlyQuantities(s: Catalog.State, cs: seq<Command>)
    ensures forall t :: t in s.movies ==> t in Run(s, cs).movies && Catalog.SameExceptQty(s.movies[t], Run(s, cs).movies[t])
    decreases |cs|
  {
    if |cs| > 0 {
      var step := Apply(s, cs[0]);
      RunChangesOnlyQuantities(step.state, cs[1..]);
    }
  }

  /** No command that could make a quantity negative: creations and additions are non-negative. */
  predicate NonNegativeAmounts(cs: seq<Command>) {
    forall i :: 0 <= i < |cs| ==>
      match cs[i]
      case AddNew(item) => item.qty >= 0
      case AddQuantity(_, amount) => amount >= 0
      case UseQuantity(_, _) => true
  }

  /** Stock stays non-negative as long as nothing adds a negative amount; uses may be any amount. */
  lemma {:induction false} RunKeepsStockNonNegative(s: Catalog.State, cs: seq<Command>)
    requires Catalog.StockNonNegative(s.movies)
    requires NonNegativeAmounts(cs)
    ensures Catalog.StockNonNegative(Run(s, cs).movies)
    decreases |cs|
  {
    if |cs| > 0 {
      var next := Apply(s, cs[0]).state;
      assert cs[0].AddNew? ==> cs[0].item.qty >= 0;
      assert cs[0].AddQuantity? ==> cs[0].amount >= 0;
      match cs[0] {
        case AddNew(item) =>
          Catalog.AddNewItemKeepsStockNonNegative(s, item);
        case AddQuantity(title, amount) =>
          Catalog.AddInventoryKeepsStockNonNegative(s, title, amount);
        case UseQuantity(title, amount) =>
          Catalog.UseInventoryKeepsStockNonNegative(s, title, amount);
      }
      assert forall i :: 0 <= i < |cs[1..]| ==> cs[1..][i] == cs[i + 1];
      RunKeepsStockNonNegative(next, cs[1..]);
    }
  }

  /**
   * The batch delivered after one command only ever alerts about the title
   * that command addressed.
   */
  lemma AlertsOnlyForTarget(s: Catalog.State, c: Command, changes: seq<StockAlert.DocumentChange>)
    requires StockAlert.DescribesChange(Query.OutOfStock(s.movies).Keys,
                                        Query.OutOfStock(Apply(s, c).state.movies).Keys, changes)
    ensures forall a :: a in StockAlert.NotifyStockAlert(changes) ==> a.id == Target(c)
  {
  }

  /** Using up exactly the stock on hand raises an out-of-stock alert for that title and no other. */
  lemma UseToZeroAlerts(s: Catalog.State, title: string, changes: seq<StockAlert.DocumentChange>)
    requires title in s.movies && s.movies[title].qty != 0
    requires StockAlert.DescribesChange(
               Query.OutOfStock(s.movies).Keys,
               Query.OutOfStock(Catalog.UseInventory(s, title, s.movies[title].qty).state.movies).Keys,
               changes)
    ensures Catalog.UseInventory(s, title, s.movies[title].qty).outcome == Catalog.Ok
    ensures StockAlert.OutOfStockAlert(title) in StockAlert.NotifyStockAlert(changes)
    ensures forall a :: a in StockAlert.NotifyStockAlert(changes) ==> a == StockAlert.OutOfStockAlert(title)
  {
  }

  /** Adding a non-zero amount to a title out of stock raises a re-stocked alert for it and no other. */
  lemma RestockAlerts(s: Catalog.State, title: string, amount: int, changes: seq<StockAlert.DocumentChange>)
    requires title in s.movies && s.movies[title].qty == 0 && amount != 0
    requires StockAlert.DescribesChange(
               Query.OutOfStock(s.movies).Keys,
               Query.OutOfStock(Catalog.AddInventory(s, title, amount).state.movies).Keys,
               changes)
    ensures StockAlert.RestockedAlert(title) in StockAlert.NotifyStockAlert(changes)
    ensures forall a :: a in StockAlert.NotifyStockAlert(changes) ==> a == StockAlert.RestockedAlert(title)
  {
  }

  const Jaws := Catalog.NewItem("Jaws", 1975, "PG", "Universal", "DVD", "Roy Scheider", "Thriller", "None", 3, true)

  /** The catalog after each step of the scenario below. */
  function JawsCreated(s0: Catalog.State): Catalog.State {
    Catalog.AddNewItem(s0, Jaws).state
  }

  function JawsUsedUp(s0: Catalog.State): Catalog.State {
    Catalog.UseInventory(JawsCreated(s0), "Jaws", 3).state
  }

  function JawsRestocked(s0: Catalog.State): Catalog.State {
    Catalog.AddInventory(JawsUsedUp(s0), "Jaws", 2).state
  }

  /** The three log lines the scenario writes. */
  lemma JawsMessages()
    ensures TransactionLog.Message(TransactionLog.AddedNew("Jaws", 3)) == "Added Jaws with initial quantity 3"
    ensures TransactionLog.Message(TransactionLog.Used("Jaws", 3)) == "Used 3 Jaws"
    ensures TransactionLog.Message(TransactionLog.Added("Jaws", 2)) == "Added 2 Jaws"
  {
    assert Decimal.IntToString(3) == "3";
    assert Decimal.IntToString(2) == "2";
    assert TransactionLog.AddedPrefix + "Jaws" == "Added Jaws";
    assert "Added Jaws" + TransactionLog.InitialQuantityInfix == "Added Jaws with initial quantity ";
    assert "Added Jaws with initial quantity " + "3" == "Added Jaws with initial quantity 3";
  }

  /** The quantities and log along the scenario. */
  lemma JawsQuantities(s0: Catalog.State)
    requires "Jaws" !in s0.movies
    ensures "Jaws" in Query.SearchInventory(JawsCreated(s0).movies, "1").value
    ensures JawsCreated(s0).movies["Jaws"].qty == 3
    ensures "Jaws" in JawsUsedUp(s0).movies && JawsUsedUp(s0).movies["Jaws"].qty == 0
    ensures "Jaws" in JawsRestocked(s0).movies && JawsRestocked(s0).movies["Jaws"].qty == 2
    ensures JawsRestocked(s0).log == s0.log + ["Added Jaws with initial quantity 3", "Used 3 Jaws", "Added 2 Jaws"]
  {
    JawsMessages();
    assert JawsCreated(s0).log == s0.log + ["Added Jaws with initial quantity 3"];
    assert JawsUsedUp(s0).log == s0.log + ["Added Jaws with initial quantity 3", "Used 3 Jaws"];
  }

  /**
   * From any catalog without "Jaws": creating it with 3 copies lists it with
   * quantity 3; using 3 puts it out of stock and the next batch alerts so;
   * adding 2 re-stocks it and the next batch alerts so; using a title that
   * does not exist is refused without a log entry.
   */
  lemma JawsScenario(s0: Catalog.State, toZero: seq<StockAlert.DocumentChange>, restocked: seq<StockAlert.DocumentChange>)
    requires "Jaws" !in s0.movies
    requires StockAlert.DescribesChange(Query.OutOfStock(JawsCreated(s0).movies).Keys,
                                        Query.OutOfStock(JawsUsedUp(s0).movies).Keys, toZero)
    requires StockAlert.DescribesChange(Query.OutOfStock(JawsUsedUp(s0).movies).Keys,
                                        Query.OutOfStock(JawsRestocked(s0).movies).Keys, restocked)
    ensures StockAlert.OutOfStockAlert("Jaws") in StockAlert.NotifyStockAlert(toZero)
    ensures forall a :: a in StockAlert.NotifyStockAlert(toZero) ==> a == StockAlert.OutOfStockAlert("Jaws")
    ensures StockAlert.RestockedAlert("Jaws") in StockAlert.NotifyStockAlert(restocked)
    ensures forall a :: a in StockAlert.NotifyStockAlert(restocked) ==> a == StockAlert.RestockedAlert("Jaws")
    ensures "Nonexistent" !in s0.movies ==>
      Catalog.UseInventory(JawsRestocked(s0), "Nonexistent", 1) == Catalog.Step(JawsRestocked(s0), Catalog.NotFound)
  {
    JawsQuantities(s0);
    UseToZeroAlerts(JawsCreated(s0), "Jaws", toZero);
    RestockAlerts(JawsUsedUp(s0), "Jaws", 2, restocked);
  }
}
