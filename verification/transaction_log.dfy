/**
 * The audit trail: every successful mutation appends one human-readable
 * message to the `log` collection.  The server-assigned timestamp stored
 * beside each message is left out, so the log is the sequence of messages.
 *
 * Each message kind has a decoder that recovers the title and the quantity
 * from the text; the round-trip lemmas show that no information is lost
 * within one kind.  Across kinds the format is ambiguous (see
 * `CreateAndIncreaseMessagesCollide`).
 */
module TransactionLog {
  import opened Wrappers
  import Decimal

  type Log = seq<string>

  /** What a log message records. */
  datatype Transaction =
    | AddedNew(title: string, qty: int)
    | Added(title: string, amount: int)
    | Used(title: string, amount: int)

  const AddedPrefix := "Added "
  const UsedPrefix := "Used "
  const InitialQuantityInfix := " with initial quantity "

  /** The text `log_transaction` is handed for each kind of transaction. */
  function Message(t: Transaction): (m: string)
    ensures t.Used? ==> |UsedPrefix| <= |m| && m[..|UsedPrefix|] == UsedPrefix
    ensures !t.Used? ==> |AddedPrefix| <= |m| && m[..|AddedPrefix|] == AddedPrefix
    ensures !t.AddedNew? ==> |t.title| < |m| && m[|m| - |t.title|..] == t.title && m[|m| - |t.title| - 1] == ' '
    ensures t.AddedNew? ==> |InitialQuantityInfix| < |m| && m[|m| - 1] in "0123456789"
  {
    match t
    case AddedNew(title, qty) => AddedPrefix + title + InitialQuantityInfix + Decimal.IntToString(qty)
    case Added(title, amount) => AddedPrefix + Decimal.IntToString(amount) + " " + title
    case Used(title, amount) => UsedPrefix + Decimal.IntToString(amount) + " " + title
  }

  /** Appending a message: the old log survives as a prefix and the message is the new last entry. */
  function LogTransaction(log: Log, message: string): (r: Log)
    ensures |r| == |log| + 1
    ensures r[..|log|] == log
    ensures r[|log|] == message
  {
    log + [message]
  }

  /** Index of the first space in `s`, or `|s|` when there is none. */
  function FirstSpace(s: string): (k: nat)
    ensures k <= |s|
    ensures k < |s| ==> s[k] == ' '
    ensures forall i :: 0 <= i < k ==> s[i] != ' '
  {
    if |s| == 0 || s[0] == ' ' then 0 else 1 + FirstSpace(s[1..])
  }

  /** Index of the last space in `s`, or -1 when there is none. */
  function LastSpace(s: string): (k: int)
    ensures -1 <= k < |s|
    ensures k >= 0 ==> s[k] == ' '
    ensures forall i :: k < i < |s| ==> s[i] != ' '
  {
    if |s| == 0 then -1
    else if s[|s| - 1] == ' ' then |s| - 1
    else LastSpace(s[..|s| - 1])
  }

  /** Reads `"Added {amount} {title}"`: the amount ends at the first space. */
  function DecodeAdded(m: string): Option<Transaction> {
    if |m| < |AddedPrefix| || m[..|AddedPrefix|] != AddedPrefix then None
    else
      var rest := m[|AddedPrefix|..];
      var k := FirstSpace(rest);
      if k == |rest| then None
      else match Decimal.ParseInt(rest[..k])
        case None => None
        case Some(amount) => Some(Added(rest[k + 1..], amount))
  }

  /** Reads `"Used {amount} {title}"`: the amount ends at the first space. */
  function DecodeUsed(m: string): Option<Transaction> {
    if |m| < |UsedPrefix| || m[..|UsedPrefix|] != UsedPrefix then None
    else
      var rest := m[|UsedPrefix|..];
      var k := FirstSpace(rest);
      if k == |rest| then None
      else match Decimal.ParseInt(rest[..k])
        case None => None
        case Some(amount) => Some(Used(rest[k + 1..], amount))
  }

  /**
   * Reads `"Added {title} with initial quantity {qty}"` from the right: the
   * quantity starts after the last space, since a title may itself contain
   * the infix.
   */
  function DecodeAddedNew(m: string): Option<Transaction> {
    var k := LastSpace(m);
    if k < 0 then None
    else
      var head := m[..k + 1];
      var n := |head| - |InitialQuantityInfix|;
      if n < |AddedPrefix| || head[..|AddedPrefix|] != AddedPrefix || head[n..] != InitialQuantityInfix then None
      else match Decimal.ParseInt(m[k + 1..])
        case None => None
        case Some(qty) => Some(AddedNew(head[|AddedPrefix|..n], qty))
  }

  /** In `x + " " + t` with no space in `x`, the first space is the one after `x`. */
  lemma FirstSpaceAfterWord(x: string, t: string)
    requires Decimal.NoSpace(x)
    ensures FirstSpace(x + " " + t) == |x|
  {
    var s := x + " " + t;
    assert s[|x|] == ' ';
    assert forall i :: 0 <= i < |x| ==> s[i] == x[i];
  }

  /** In `h + x` with no space in `x`, the last space is the last one of `h`. */
  lemma LastSpaceBeforeWord(h: string, x: string)
    requires |h| >= 1 && h[|h| - 1] == ' '
    requires Decimal.NoSpace(x)
    ensures LastSpace(h + x) == |h| - 1
  {
    var s := h + x;
    assert s[|h| - 1] == ' ';
    assert forall i :: |h| <= i < |s| ==> s[i] == x[i - |h|];
  }

  lemma DecodeAddedMessage(title: string, amount: int)
    ensures DecodeAdded(Message(Added(title, amount))) == Some(Added(title, amount))
  {
    var x := Decimal.IntToString(amount);
    var m := Message(Added(title, amount));
    var rest := x + " " + title;
    assert m == AddedPrefix + rest;
    assert m[..|AddedPrefix|] == AddedPrefix;
    assert m[|AddedPrefix|..] == rest;
    FirstSpaceAfterWord(x, title);
    assert rest[..|x|] == x;
    assert rest[|x| + 1..] == title;
    Decimal.ParseIntToString(amount);
  }

  lemma DecodeUsedMessage(title: string, amount: int)
    ensures DecodeUsed(Message(Used(title, amount))) == Some(Used(title, amount))
  {
    var x := Decimal.IntToString(amount);
    var m := Message(Used(title, amount));
    var rest := x + " " + title;
    assert m == UsedPrefix + rest;
    assert m[..|UsedPrefix|] == UsedPrefix;
    assert m[|UsedPrefix|..] == rest;
    FirstSpaceAfterWord(x, title);
    assert rest[..|x|] == x;
    assert rest[|x| + 1..] == title;
    Decimal.ParseIntToString(amount);
  }

  lemma DecodeAddedNewMessage(title: string, qty: int)
    ensures DecodeAddedNew(Message(AddedNew(title, qty))) == Some(AddedNew(title, qty))
  {
    var x := Decimal.IntToString(qty);
    var head := AddedPrefix + title + InitialQuantityInfix;
    var m := Message(AddedNew(title, qty));
    assert m == head + x;
    LastSpaceBeforeWord(head, x);
    var k := |head| - 1;
    assert m[..k + 1] == head;
    assert m[k + 1..] == x;
    var n := |head| - |InitialQuantityInfix|;
    assert head[..|AddedPrefix|] == AddedPrefix;
    assert head[n..] == InitialQuantityInfix;
    assert head[|AddedPrefix|..n] == title;
    Decimal.ParseIntToString(qty);
  }

  /** Within one kind, the message determines the transaction. */
  lemma MessageInjectiveWithinKind(a: Transaction, b: Transaction)
    requires a.AddedNew? == b.AddedNew? && a.Added? == b.Added?
    ensures Message(a) == Message(b) <==> a == b
  {
    if Message(a) == Message(b) {
      match a
      case AddedNew(t, q) =>
        DecodeAddedNewMessage(t, q);
        DecodeAddedNewMessage(b.title, b.qty);
      case Added(t, n) =>
        DecodeAddedMessage(t, n);
        DecodeAddedMessage(b.title, b.amount);
      case Used(t, n) =>
        DecodeUsedMessage(t, n);
        DecodeUsedMessage(b.title, b.amount);
    }
  }

  /**
   * Creating a title "5" with quantity 3 and adding 5 copies to a title
   * "with initial quantity 3" log the same text.
   */
  lemma CreateAndIncreaseMessagesCollide()
    ensures Message(AddedNew("5", 3)) == Message(Added("with initial quantity 3", 5))
  {
    assert Decimal.IntToString(3) == "3";
    assert Decimal.IntToString(5) == "5";
    assert InitialQuantityInfix + "3" == " " + "with initial quantity 3";
    assert (AddedPrefix + "5") + InitialQuantityInfix + "3" == (AddedPrefix + "5") + (InitialQuantityInfix + "3");
    assert (AddedPrefix + "5") + " " + "with initial quantity 3" == (AddedPrefix + "5") + (" " + "with initial quantity 3");
  }
}
