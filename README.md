# finviz_backend: open positions, sector shares and stock search

This project models the three resolvers of the portfolio API (finviz_backend/schema.py) whose computation lies wholly in schema.py itself, over the records of portfolio/models.py. It proves in Dafny what each one returns.

- **Open positions** (`OpenPositions`, open_positions.dfy). The portfolio's positions arrive in query order. Only rows whose `closed` is null are taken, by ascending `opened`. They are folded into a dictionary keyed by stock symbol. The first row of a symbol is stored as is; each later row of that symbol adds its `quantity` onto the stored entry. The result is the dictionary's values in insertion order. `ResolveOpenPositions` is the resolver's loop over a `map<string, Position>` plus a `seq<string>` that records insertion order. It is proved equal to `OpenPositionsOf`, a specification written over the first `n` rows. In the source, `res.get(symbol)` returns a model instance, which is always truthy, so the test is plain key membership.
- **Sector shares** (`Sectors`, sectors.dfy). The resolver builds one `{name, share}` entry per position, where the share is `quantity * price`. It then divides every share by the sum of the shares. No positions gives an empty list and divides nothing. Positions whose weights sum to zero raise Python's `ZeroDivisionError`, which is modelled as `Err(DivisionByZero)`. The sector name comes from a quote service; here it is the function parameter `sectorOf`.
- **Stock search** (`StockSearch`, stock_search.dfy). A non-empty `symbol` keeps the stocks whose symbol contains it, ignoring case (`icontains`). A null or empty `symbol` keeps every stock. Either way at most ten are returned. The stock table is a sequence `table` in one fixed order, and "the first ten" refers to that order.

The records of portfolio/models.py are the datatypes of `Models` (models.dfy): `Portfolio`, `Stock` and `Position`. `opened` and `closed` become `openedAt` and `closedAt`, because `opened` is a Dafny keyword. Timestamps are integers, ordered like the instants they stand for. Float fields are exact reals.

Two points of the sector shares are easy to misread:
- Nothing in the resolver guards a zero total weight, so the model has the error outcome.
- The resolver returns one entry per position, not one per sector, and so does the model.

## Model

| member | source | states |
|---|---|---|
| OpenPositions.ResolveOpenPositions | finviz_backend/schema.py:115-123 | The loop's result is exactly `OpenPositionsOf(rows)`: one entry per symbol of the open rows, in first-occurrence order. Every entry is an open position. Each entry's opening time is no later than that of any open row in the same stock. Requires only that the open rows arrive in ascending `opened` order. |
| OpenPositions.Symbols | finviz_backend/schema.py:117-123 | The dictionary's keys in insertion order contain no symbol twice. A symbol is among them exactly when some open row among the first `n` rows is in that stock. |
| OpenPositions.FirstIndex | finviz_backend/schema.py:119-122 | The stored entry comes from an open row in the right stock, with no open row of that stock before it. |
| OpenPositions.NotMentioned | finviz_backend/schema.py:119-122 | A stock not yet seen has no open row so far and a total quantity of zero. |
| OpenPositions.EntryStep | finviz_backend/schema.py:118-122 | One iteration: a closed row changes no entry. An open row of a known symbol adds its quantity to that entry. An open row of a new symbol becomes the entry itself. Every other symbol's entry is unchanged. |
| OpenPositions.OpenAndEarliest | finviz_backend/schema.py:118-122 | With the open rows sorted by `opened`, every entry is open and keeps the earliest opening time of its stock. |
| OpenPositions.EntryMeaning | finviz_backend/schema.py:119-122 | An entry's quantity is the sum over all open positions in its stock. Every other field (stock, openedAt, closedAt, price) is that of the first open position in that stock. |
| OpenPositions.MentionsWitness | finviz_backend/schema.py:118-119 | "A symbol has been seen" means that some open row at an earlier index is in that stock. |
| OpenPositions.OneEntryPerOpenSymbol | finviz_backend/schema.py:119-123 | No two entries share a symbol. The set of the entries' symbols equals the set of symbols of the open rows. |
| OpenPositions.FirstOccurrenceOrder | finviz_backend/schema.py:117-123 | Entries come in the order in which their stocks first occur among the open rows. This is the dictionary's insertion order. |
| OpenPositions.ResultInFirstOccurrenceOrder | finviz_backend/schema.py:117-123 | The same order, stated on the returned entries: for two entries, the earlier one's stock has its first open row before the later one's. |
| OpenPositions.InsertClosedPrefix | finviz_backend/schema.py:118 | Inserting a closed row shifts later indices by one. It changes no symbol, no total and no first open row. |
| OpenPositions.ClosedRowIgnored | finviz_backend/schema.py:118 | Inserting a closed position anywhere among the rows leaves the open-positions view unchanged. |
| OpenPositions.QuantityConserved | finviz_backend/schema.py:119-120 | The entries' quantities add up to the total quantity of all open positions: no share is lost or counted twice. |
| OpenPositions.SymbolTotals | finviz_backend/schema.py:119-120 | The per-stock totals over all symbols add up to the total open quantity. |
| Sectors.ResolveSectors | finviz_backend/schema.py:145-158 | The result is an error exactly when there are positions and their weights sum to zero. Otherwise there is one entry per position, in input order. Entry `i` has the sector name of position `i`'s stock and the share `quantity*price / total`. With at least one position, the shares sum to exactly 1. |
| Sectors.Normalize | finviz_backend/schema.py:157 | Each normalised entry keeps its name, and its share times the total gives back the original share. |
| Sectors.SharesAreWeights | finviz_backend/schema.py:148-156 | The sum of the entries built by the loop equals the total notional weight of the positions. |
| Sectors.NormalizedSum | finviz_backend/schema.py:156-157 | Dividing every share by a non-zero total divides their sum by that total. |
| StockSearch.ResolveStocks | finviz_backend/schema.py:108-112 | At most ten stocks, all from the table. With a non-empty text: every result's symbol contains the text ignoring case, and the results are the first `min(10, matches)` matches in table order. With null or empty text: the first `min(10, stocks)` stocks of the table. |
| StockSearch.Matching | finviz_backend/schema.py:111 | A stock is kept exactly when it is in the table and its symbol contains the text, ignoring case. |
| StockSearch.ShortResultIsComplete | finviz_backend/schema.py:111 | Fewer than ten results means every matching stock was returned. |
| StockSearch.MatchingConcat | finviz_backend/schema.py:111 | The filter preserves table order: filtering a concatenation is concatenating the filtered parts. |
| StockSearch.CaseInsensitive | finviz_backend/schema.py:111 | The `icontains` lookup gives the same answer after lower-casing the symbol, the text, or both. |
| StockSearch.ExactOccurrenceMatches | finviz_backend/schema.py:111 | A symbol that contains the text with the same case also matches the case-insensitive lookup. |

## Left out

- Framework wiring is not modelled: the GraphQL type definitions, resolver registration and schema construction (schema.py:16-75, 209-211).
- `resolve_portfolio` and `resolve_stock` are not modelled: they only read the database through the ORM.
- `resolve_buy` and `resolve_sell` are not modelled: they only pass their input on to `buy_order` and `sell_order` (see the `buy_order` line below).
- `resolve_balance`, `resolve_history`, `resolve_change` and `resolve_chart` call `get_balance`, `get_history`, `get_pct_change` and `get_chart`. Those methods are not defined in portfolio/models.py, so the valuation logic behind them is not part of this model. The timestamp conversion in those resolvers depends on the local time zone and is left out too.
- `resolve_sortino` is not modelled: it fetches price history and then returns the constant 0.
- `resolve_latest_price` (schema.py:189-192) is not modelled: it is only a network quote. `buy_order` (portfolio/methods.py) is not modelled: it is a network quote plus an ORM insert. `sell_order` is imported but not defined in the source files, so it is not part of this model.
- The quote service that gives a stock's sector is not modelled. It is the parameter `sectorOf`, and its network failures are not modelled.
- The database's own work is taken as given for open positions: `filter(closed=None)` and `order_by("opened")`. `rows` is the query's output in its order. The closed-row test is repeated in the loop, and sortedness of the open rows is a precondition. The order among rows with equal `opened` is left unspecified.
- OpenPositions.ResolveOpenPositions works on values. In the source, the first position object of a symbol is itself mutated in memory (`quantity +=`), never saved, and returned. The model replaces the map entry with an updated copy instead, so it does not capture aliasing of that object.
- Sectors.ResolveSectors uses exact reals, not floating point. Both its error condition and its sum of 1 hold only in real arithmetic. With floats, cancellation can make the total 0.0 when the real total is not zero, and the reverse can also happen. For example, take quantity 3 at price 0.1 and quantity -1 at price 0.30000000000000004. The exact total is 0.3 - 0.30000000000000004 = -4e-17, so the model returns `Ok`. In floats, however, 3 * 0.1 rounds to 0.30000000000000004, the two weights cancel, the total is 0.0 and Python raises `ZeroDivisionError`. The rounding happens in the products, so this holds whatever summation `sum` uses. With many positions, the float sum of the shares can also miss 1 by more than one unit in the last place.
- Sectors.ResolveSectors does not model infinite or NaN prices.
- StockSearch.ResolveStocks assumes one database order, the order of `table`, shared by both queries. Neither query has an `order_by`, and `Stock` has no default ordering, so the database may return any ten matching rows in any order. The prefix and order claims (`r <= Matching(table, …)`, `r <= table`, and `MatchingConcat` applied to the results) hold only under that assumption. Without it, what remains is: at most ten rows, all from the table, each matching the text.
- StockSearch.IContains folds case for ASCII letters only. A database that folds other letters, or that uses another collation, can match more.
- Omitting the `symbol` argument is not modelled: the resolver has no default, so Python raises `TypeError`. Only a null or a string is modelled.
- The `max_length=10` limit on `Stock.symbol` is not modelled: these resolvers do not enforce it.
- `Position.quantity` is an unbounded integer in the model. Python's `+=` in the resolver does not wrap. The GraphQL `Int!` serialisation limit is framework wiring and is not modelled.
