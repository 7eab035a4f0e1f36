/**
 * The out-of-stock watcher.  The store pushes, for the subscribed
 * out-of-stock query, batches of document changes; each change is classified
 * on its own: a document entering the result set raises an out-of-stock
 * alert, one leaving it raises a re-stocked alert, and one that stays in the
 * set but was modified raises nothing.
 *
 * The delivery of batches is the store client's business; `DescribesChange`
 * states what a batch reports about two successive result sets, which is
 * what lets the alerts be related to the catalog operations.
 */
module StockAlert {
  import opened Wrappers
  import Catalog
  import Query

  datatype ChangeKind = Added | Modified | Removed

  /** One entry of a change batch: the kind of change and the document id (the title). */
  datatype DocumentChange = DocumentChange(kind: ChangeKind, id: string)

  datatype Alert = OutOfStockAlert(id: string) | RestockedAlert(id: string)

  /** The line printed for an alert. */
  function AlertMessage(a: Alert): (m: string)
    ensures |a.id| < |m| && m[|m| - |a.id|..] == a.id
    ensures m[0] == 'O' <==> a.OutOfStockAlert?
  {
    match a
    case OutOfStockAlert(id) => "OUT OF STOCK ALERT!! ORDER MORE: " + id
    case RestockedAlert(id) => "ITEM HAS BEEN RE-STOCKED!! READY TO USE: " + id
  }

  /** Different alerts print different lines, so the printed line identifies the alert. */
  lemma AlertMessageInjective(a: Alert, b: Alert)
    ensures AlertMessage(a) == AlertMessage(b) <==> a == b
  {
    if AlertMessage(a) == AlertMessage(b) {
      var m := AlertMessage(a);
      assert a.OutOfStockAlert? == b.OutOfStockAlert?;
      assert |a.id| == |b.id|;
      assert a.id == m[|m| - |a.id|..] == b.id;
    }
  }

  /** The alert one change raises, if any. */
  function Classify(c: DocumentChange): (r: Option<Alert>)
    ensures r.Some? ==> r.value.id == c.id
    ensures r == Some(OutOfStockAlert(c.id)) <==> c.kind == Added
    ensures r == Some(RestockedAlert(c.id)) <==> c.kind == Removed
    ensures r == None <==> c.kind == Modified
  {
    match c.kind
    case Added => Some(OutOfStockAlert(c.id))
    case Removed => Some(RestockedAlert(c.id))
    case Modified => None
  }

  /** The alerts raised for one batch, in the order of the changes that raised them. */
  function NotifyStockAlert(changes: seq<DocumentChange>): (alerts: seq<Alert>)
    ensures |alerts| <= |changes|
    ensures forall a :: a in alerts <==> exists c :: c in changes && Classify(c) == Some(a)
  {
    if |changes| == 0 then []
    else
      var rest := NotifyStockAlert(changes[1..]);
      match Classify(changes[0])
      case None => rest
      case Some(a) => [a] + rest
  }

  /** Batches are handled change by change: alerting on a concatenation is alerting on each part. */
  lemma {:induction false} NotifyStockAlertConcat(xs: seq<DocumentChange>, ys: seq<DocumentChange>)
    ensures NotifyStockAlert(xs + ys) == NotifyStockAlert(xs) + NotifyStockAlert(ys)
    decreases |xs|
  {
    if |xs| == 0 {
      assert xs + ys == ys;
    } else {
      assert (xs + ys)[1..] == xs[1..] + ys;
      NotifyStockAlertConcat(xs[1..], ys);
    }
  }

  /**
   * `changes` is a faithful report of the result set moving from `before` to
   * `after`: every entering id is reported added, every leaving id removed,
   * and each reported change agrees with the two sets.
   */
  ghost predicate DescribesChange(before: set<string>, after: set<string>, changes: seq<DocumentChange>) {
    && (forall c :: c in changes && c.kind == Added ==> c.id in after && c.id !in before)
    && (forall c :: c in changes && c.kind == Removed ==> c.id in before && c.id !in after)
    && (forall c :: c in changes && c.kind == Modified ==> c.id in before && c.id in after)
    && (forall t :: t in after && t !in before ==> DocumentChange(Added, t) in changes)
    && (forall t :: t in before && t !in after ==> DocumentChange(Removed, t) in changes)
  }

  /**
   * For a faithful batch of the out-of-stock query, the alerts are exactly:
   * out-of-stock for the titles whose quantity became zero, re-stocked for the
   * titles whose quantity stopped being zero (or that left the store).
   */
  lemma WatchAlerts(before: Catalog.Store, after: Catalog.Store, changes: seq<DocumentChange>)
    requires DescribesChange(Query.OutOfStock(before).Keys, Query.OutOfStock(after).Keys, changes)
    ensures forall t :: OutOfStockAlert(t) in NotifyStockAlert(changes) <==>
      (t in after && after[t].qty == 0) && !(t in before && before[t].qty == 0)
    ensures forall t :: RestockedAlert(t) in NotifyStockAlert(changes) <==>
      (t in before && before[t].qty == 0) && !(t in after && after[t].qty == 0)
  {
  }
}
