# Movie inventory: a Dafny model

This project models the inventory logic of a command-line movie-rental catalog. The catalog is kept in a
hosted document store as a `movies` collection, where each document is keyed by the movie title. A `log`
collection holds audit messages. The model covers the following:

- the three catalog mutations:
  - `add_new_item` creates a title;
  - `add_inventory` adds to its quantity;
  - `use_inventory` takes from its quantity, refusing to take more than is on hand.
- the messages they append to the transaction log;
- the two canned searches: everything, and the out-of-stock items with `qty == 0`;
- the classification of change notifications into out-of-stock and re-stocked alerts.

The store is a `map<string, Movie>` from title to document. The log is a `seq<string>` of messages. Each
mutation is a pure function from the catalog state to a new state and an outcome:
`Ok | AlreadyExists | NotFound | Insufficient(onHand)`. A refused mutation leaves both store and log exactly
as they were. A successful one rewrites the whole document and appends exactly one message.

Quantities are unbounded signed integers, as `int(input(...))` produces them; the store's own 64-bit
limit on what it can hold is not modelled (see "## Left out"). The code never checks the sign
of a new item's quantity or of an added amount. So "stock is non-negative" is **not** an invariant of the
store. Only a successful use guarantees a non-negative result, whatever the sign of the amount used. Adding a
negative amount, or creating a title with a negative quantity, can leave the stock below zero. The sign of a used amount is
never checked either: a negative amount is refused only when it exceeds the stock on hand, which happens only
when that stock is itself negative; otherwise it *raises* the stock. The lemmas in `Catalog` and `History` state exactly which operations preserve
non-negativity.

Modules, one per component:

- `Decimal`: Python's `str(int)` as used inside the f-string log messages, with its inverse parse.
- `TransactionLog`: the three message formats, their decoders, and the append.
- `Catalog`: the `Movie` document, the state, and the three mutations.
- `Query`: the search choices, the out-of-stock filter, and the rows a result table shows.
- `StockAlert`: classification of a change batch into alerts, and what a faithful change batch of the
  out-of-stock query reports.
- `History`: sequences of mutations (as the menu loop issues them), lifecycle properties, and the
  end-to-end scenario of creating, using up and re-stocking "Jaws".
- `Wrappers`: the `Option` type.

## Model

| member | source | states |
|---|---|---|
| Catalog.AddNewItem | movie.py:45-65 | An existing title gives `AlreadyExists` with store and log untouched. A fresh title gets exactly one new key. The new document holds the given year, rating, studio, media type, quantity and popular flag. Actors, genres and special features are each stored as a one-element list holding the raw typed string. Every other title is untouched, and the log gains exactly `Added {title} with initial quantity {qty}`. |
| Catalog.AddInventory | movie.py:76-92 | An absent title gives `NotFound` with nothing changed. Otherwise the outcome is `Ok`, the key set is the same, and the quantity becomes `qty + addQty` for any sign of `addQty`. The title's other fields and all other titles are unchanged, and the log gains `Added {addQty} {title}`. |
| Catalog.UseInventory | movie.py:104-125 | Succeeds if and only if the title exists and `useQty <= qty`. Any failure leaves the state unchanged. An absent title gives `NotFound`. Asking for too much gives `Insufficient` carrying the current quantity. On success the quantity becomes `qty - useQty`, which is `>= 0`. Other fields and titles are unchanged, and the log gains `Used {useQty} {title}`. |
| Catalog.AddNewItemTwice | movie.py:47-62 | After a successful creation, creating the same title again is refused with `AlreadyExists`, and the first document (with its quantity) survives. |
| Catalog.UseUndoesAdd | movie.py:88-121 | Adding `n` and then using `n` succeeds exactly when the original quantity was non-negative. When it succeeds it restores the store, with two log entries more. |
| Catalog.AddUndoesUse | movie.py:88-121 | After a successful use of `n`, adding `n` restores the store. |
| Catalog.UseInventoryKeepsStockNonNegative | movie.py:114-122 | A use keeps a store whose quantities are all non-negative in that state, whatever amount is asked for. |
| Catalog.AddInventoryKeepsStockNonNegative | movie.py:84-89 | Adding a non-negative amount keeps all quantities non-negative. |
| Catalog.AddNewItemKeepsStockNonNegative | movie.py:53-62 | Creating with a non-negative quantity keeps all quantities non-negative. |
| Catalog.AddInventoryCanDriveStockNegative | movie.py:74-89 | Nothing refuses a negative addition. Adding less than `-qty` succeeds and leaves a negative quantity. |
| TransactionLog.Message | movie.py:65-125 | Reproduces the three messages: a creation or increase message starts with `Added `, a use message with `Used `. An increase or use message ends with a space and then the title. A creation message ends in a digit of the rendered quantity. `History.JawsMessages` pins the texts on concrete values, and the `Decode*Message` lemmas invert it. |
| TransactionLog.LogTransaction | movie.py:156-162 | Appending keeps the old log as a prefix and puts the message last, so the log is append-only. |
| TransactionLog.DecodeAddedNewMessage | movie.py:65 | Reading `Added {title} with initial quantity {qty}` from the right recovers the title and quantity, even when the title contains the infix. |
| TransactionLog.DecodeAddedMessage | movie.py:92 | Reading `Added {amount} {title}` recovers the amount and title. |
| TransactionLog.DecodeUsedMessage | movie.py:125 | Reading `Used {amount} {title}` recovers the amount and title. |
| TransactionLog.MessageInjectiveWithinKind | movie.py:65-125 | Two transactions of the same kind log the same text exactly when they are equal. |
| TransactionLog.CreateAndIncreaseMessagesCollide | movie.py:65-92 | Across kinds the format is ambiguous. Creating title `5` with quantity 3 logs the same text as adding 5 to title `with initial quantity 3`. |
| TransactionLog.FirstSpaceAfterWord | movie.py:92 | In an increase or use message, the rendered amount contains no space, so the first space after the `Added ` or `Used ` prefix is the one right after the amount. |
| TransactionLog.LastSpaceBeforeWord | movie.py:65 | In a creation message, the rendered quantity contains no space, so the last space of the text is the one right before the quantity. |
| Decimal.NatToString | movie.py:65 | The rendering is non-empty and all digits. Only zero starts with `0`, and it is one digit long exactly when the number is below 10. |
| Decimal.IntToString | movie.py:92 | Python's `str` of an int contains no space and starts with `-` exactly when the number is negative. |
| Decimal.ParseInt | movie.py:74 | Accepts exactly an optional minus sign followed by one or more digits. The sign of the result follows the text. |
| Decimal.ParseIntToString | movie.py:125 | Parsing a rendered integer gives the integer back. |
| Decimal.IntToStringInjective | movie.py:125 | Two integers render alike exactly when they are equal. |
| Decimal.DigitsValueOfNatToString | movie.py:65 | The digits of `n` read back as `n`. |
| Query.OutOfStock | movie.py:142 | A title is in the result exactly when it is in the store with `qty == 0`, and its document is the stored one. |
| Query.SearchInventory | movie.py:139-145 | Only choices `1` and `2` give a result; anything else is an invalid selection. Choice `1` is the whole store. Choice `2` holds exactly the stored titles with `qty == 0`. Every result is a sub-map of the store. |
| Query.OutOfStockPartitionsAll | movie.py:139-142 | The out-of-stock listing is contained in the full listing. Every title left out of it has non-zero stock. |
| Query.OutOfStockFrame | movie.py:142 | When a mutation keeps every other document, only the mutated title can enter or leave the out-of-stock listing. |
| Query.ResultRows | movie.py:151-153 | The displayed table has one row per result document and no title twice. Each row (built by `Query.RowOf`) shows that document's title, year, rating, studio, media type and quantity. |
| StockAlert.Classify | movie.py:172-180 | `ADDED` gives an out-of-stock alert for the changed id and `REMOVED` a re-stocked alert for it. `MODIFIED` gives nothing. |
| StockAlert.NotifyStockAlert | movie.py:172-180 | A batch raises at most one alert per change. An alert is raised exactly when some change in the batch classifies to it. |
| StockAlert.AlertMessage | movie.py:175-179 | The printed alert line ends with the document id. It starts with `O` (the out-of-stock text) exactly for an out-of-stock alert. |
| StockAlert.AlertMessageInjective | movie.py:175-179 | Two alerts print the same line exactly when they are the same alert. |
| StockAlert.NotifyStockAlertConcat | movie.py:172 | Changes are handled one at a time, in order. The alerts for two batches concatenated are the two batches' alerts concatenated. |
| StockAlert.WatchAlerts | movie.py:164-187 | For a change batch that faithfully reports how the out-of-stock query's result moved, the out-of-stock alerts are exactly for the titles whose quantity became zero. The re-stocked alerts are exactly for the titles that stopped being zero. |
| History.Apply | movie.py:202-207 | A dispatched mutation either fails and changes nothing, or appends exactly its own message. It never removes a title, and it touches no other title. |
| History.LoggedEntryDecodes | movie.py:65-125 | The entry a successful command appends decodes back to that command's title and quantity. |
| History.RunIsMonotone | movie.py:156-162 | Over any sequence of mutations, titles are never deleted. The earlier log is a prefix of the later one, and it grows by exactly one entry per successful command. |
| History.RunChangesOnlyQuantities | movie.py:84-122 | Over any sequence of mutations, a document only ever changes its quantity once it exists. |
| History.RunKeepsStockNonNegative | movie.py:115-122 | Stock stays non-negative over any sequence in which creations and additions are non-negative. Uses may ask for any amount. |
| History.AlertsOnlyForTarget | movie.py:172-187 | For a batch that faithfully reports the change, the batch after one mutation alerts only about the title that mutation addressed. |
| History.UseToZeroAlerts | movie.py:167-176 | Using exactly the stock on hand of a title with non-zero stock succeeds. A next batch that faithfully reports the change then raises an out-of-stock alert for that title and no other alert. |
| History.RestockAlerts | movie.py:169-179 | Adding a non-zero amount to a title at zero makes a next batch that faithfully reports the change raise a re-stocked alert for it and no other alert. |
| History.JawsMessages | movie.py:65-125 | The scenario's three log lines are exactly `Added Jaws with initial quantity 3`, `Used 3 Jaws` and `Added 2 Jaws`. |
| History.JawsQuantities | movie.py:27-125 | From any catalog without "Jaws": creating it with 3 lists it with quantity 3. Using 3 leaves 0 and adding 2 leaves 2. The log gains the three exact messages in order. |
| History.JawsScenario | movie.py:164-187 | In that same scenario, for batches that faithfully report each change, the batch after using 3 alerts "Jaws" out of stock and nothing else. The batch after adding 2 alerts it re-stocked and nothing else. Using an absent title is refused with `NotFound` and no log entry. |

## Left out

- Connecting to the document store, and the credential setup (movie.py:6-25). This is external library code and environment I/O.
- Console prompts and `int()` parsing of the answers, including the `ValueError` on non-numeric input. Parsed values are parameters. The `y`/`n` answer for the popular flag is taken as a `bool`.
- The one-line console messages for failures, and the blank lines printed around alerts. The `Outcome` value and `StockAlert.AlertMessage` carry the same information.
- The padding and column widths of the search result table. `Query.ResultRows` keeps which columns are shown and leaves out how they are laid out.
- The server-assigned timestamp stored with each log message. It comes from an external clock; the log holds messages only.
- Background delivery of change batches by the store client's subscription (`on_snapshot`, movie.py:187), and the interleaving of alerts with the menu's output. Only the per-change classification is modelled.
- Failures of store calls. The model assumes every call to the store succeeds. Two consequences are not represented:
  - The store holds 64-bit signed integers. A `qty` or `year` outside that range when a title is created (movie.py:53-62), a sum `qty + add_qty` outside it (movie.py:88-89), or a difference `qty - use_qty` outside it (movie.py:121-122, e.g. quantity 0 and amount -2^63), makes `set()` raise. The program then ends with nothing written. The model instead returns `Ok` with the unbounded value.
  - The document write (`set()` at movie.py:62, 89 and 122) and `log_transaction` (movie.py:65, 92 and 125) are separate store calls. A failure between them would leave the document updated with no log message. `Catalog.AddNewItem`, `Catalog.AddInventory`, `Catalog.UseInventory` and `History.Apply` treat the write and the append as one atomic step, so `History.RunIsMonotone`'s one-entry-per-success count relies on it.
- The lost-update race between concurrent read-modify-write cycles on the same title. The model is sequential.
- The menu loop in `main` (movie.py:189-209). `History.Apply` models only its dispatch to the three mutations.
- The store's own restrictions on document ids. An empty title fails inside the store client. A title containing `/` either fails there or addresses a document in a sub-collection, outside the `movies` listing (movie.py:140) and the watch (movie.py:187). Titles are opaque keys here, and every stored title is listed.
- Documents written by other programs with missing or non-integer fields, which would fail at `data["qty"]`. Every document here is one `add_new_item` wrote.
- StockAlert.WatchAlerts: the store's change reporting is not modelled. The lemma assumes a batch that reports every title entering or leaving the result set, and only those, so it is conditional on that report.
- History.AlertsOnlyForTarget: the alert conclusion holds only for a change batch satisfying `StockAlert.DescribesChange`, for the same reason as `StockAlert.WatchAlerts`: the store's change reporting is not modelled.
- History.UseToZeroAlerts: the out-of-stock alert is proved only for a change batch satisfying `StockAlert.DescribesChange`; the store's change reporting is not modelled.
- History.RestockAlerts: the re-stocked alert is proved only for a change batch satisfying `StockAlert.DescribesChange`; the store's change reporting is not modelled.
- History.JawsScenario: both alert conclusions hold only for change batches satisfying `StockAlert.DescribesChange`; the store's change reporting is not modelled. The `NotFound` conclusion is unconditional.
- Query.SearchInventory: results are a map, so the store's natural order of the listing is not modelled.
- Decimal.ParseInt: reads only an optional minus sign followed by digits. Python's `int()` also accepts surrounding whitespace, a `+` sign, underscores between digits, and non-ASCII Unicode decimal digits such as fullwidth `３`. The parser is used only to read back the model's own renderings.
