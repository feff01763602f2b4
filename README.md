# Nifty & Bank Nifty live price refresh — a Dafny model

This project models the core of a small stock price service. The service is a Flask app
over Firestore, with prices from yfinance.

The refresh endpoint `update_stock_prices` walks a fixed list of NSE tickers: the Nifty 50
top five followed by the Bank Nifty top five. HDFCBANK.NS and ICICIBANK.NS are on both lists.
For each ticker it reads the live price and the previous close and builds a record
`{price, change, prevClose}`, each value rounded to two decimals. A ticker whose quote is
missing, whose previous close is zero, or whose read raises gets the all-`"N/A"` sentinel
record instead. The record goes into the local `stock_data` dict. It is then written, on its
own, as document `<ticker>` of the `market_indices` collection. The read endpoint
`get_stock_prices` returns the collection as a map from document id to document fields.

Files:

- `quotes.dfy`, module `Quotes`, holds the per-ticker logic as pure functions:
  - the provider outcome `Fetch` (`Raised`, or `Got(live, prev)` with each price possibly
    missing);
  - the stored `Record` (`Numeric(price, change, prevClose)` or `NA`);
  - `Round2`, which rounds to hundredths with ties going to the even hundredth;
  - `Normalize`, which picks the record for one ticker;
  - `Document`, the three-field document that is actually stored.
- `refresh.dfy`, module `Refresh`, holds the refresh itself:
  - the two watchlists and their concatenation `StockList`;
  - the specification functions `BatchData` (the `stock_data` dict after a run of
    iterations), `CompletedWrites` (how many iterations finish before a store write fails)
    and `StoreAfter` (the collection after a refresh);
  - the class `MarketIndices`. Its field `docs` is the collection. `UpdateStockPrices` is the
    refresh loop, proved against those functions. `GetStockPrices` is the read path.

The external services are inputs:
- **The market-data provider** becomes the sequence `fetched`, one outcome per iteration of
  the loop. The source creates a fresh provider handle in every iteration, so a ticker that
  appears twice can see two different quotes.
- **Store write failure** becomes the sequence `writeOk`, one flag per iteration.
- **Read failure** becomes the flag `readOk`.

A write that raises is taken to leave its document untouched.

The refresh is not atomic. Each document is written separately inside the loop
(app.py:58), so a failing write ends the loop with an error and leaves the documents of
earlier iterations written. `StoreAfterFrame` and `InterruptedRefreshKeepsFirstWrite` state
what the collection then holds.

## Model

| member | source | states |
|---|---|---|
| `Quotes.Normalize` | app.py:40-55 | the record is numeric exactly when the read did not raise, both prices are present and the previous close is non-zero; otherwise it is the sentinel |
| `Quotes.SentinelWhenNoPrevClose` | app.py:44-52 | a zero or missing previous close gives the sentinel whatever the live price is |
| `Quotes.NormalizeApproximates` | app.py:45-50 | for a non-zero previous close, price, change and prevClose are each a whole number of hundredths, and within 0.005 of the live price, of `(live - prev) / prev * 100` and of the previous close respectively |
| `Quotes.NormalizeKeepsHundredths` | app.py:47-49 | prices already in whole hundredths are stored unchanged |
| `Quotes.ChangeFollowsMove` | app.py:45-48 | with a positive previous close, a rise is never stored as a negative change and a fall never as a positive one |
| `Quotes.NormalizeExample` | app.py:45-50 | live 105 against previous close 100 is stored as price 105, change 5, prevClose 100 |
| `Quotes.Round2` | app.py:47-49 | `round(x, 2)`: the result has at most two decimals (a whole number of hundredths) |
| `Quotes.Round2TiesToEven` | app.py:47-49 | a value exactly halfway between two hundredths is rounded to the even one |
| `Quotes.Round2TieExamples` | app.py:47-49 | 0.125 rounds to 0.12 and -0.135 to -0.14 |
| `Quotes.Round2Close` | app.py:47-49 | rounding to two decimals moves a value by at most 0.005 |
| `Quotes.Round2Hundredths` | app.py:47-49 | rounding leaves a value with at most two decimals unchanged |
| `Quotes.Round2Monotone` | app.py:47-49 | rounding preserves order |
| `Quotes.Document` | app.py:46-55 | the stored document has exactly the keys price, change and prevClose, which are all numbers or all "N/A", never a mix; it is "N/A" exactly for the sentinel; for a numeric record "price" holds its price, "change" its change and "prevClose" its previous close |
| `Quotes.DocumentInjective` | app.py:46-55 | distinct records are stored as distinct documents |
| `Refresh.CompletedWrites` | app.py:38-58 | the number of iterations that finish is the index of the first failing store write, or the whole list when none fails |
| `Refresh.BatchKeys` | app.py:36-55 | the keys of `BatchData`, the `stock_data` dict after a run of iterations, are exactly the tickers of the list, whatever the provider reports |
| `Refresh.LastIterationWins` | app.py:38-55 | a ticker's entry is the record built in its last iteration; an earlier record for it is replaced wholesale |
| `Refresh.FetchIsolated` | app.py:40-55 | changing what the provider reported in one iteration changes no other ticker's entry |
| `Refresh.FailureGivesSentinel` | app.py:40-55 | a ticker whose last read raised gets the sentinel, and every other ticker's entry is as it would have been had that read succeeded |
| `Refresh.StoreAfterFrame` | app.py:38-58 | about `StoreAfter`, the collection after a refresh: its ids are the old ids plus the tickers of the completed iterations; a document no completed iteration wrote is unchanged; each written ticker holds the record of its last completed iteration |
| `Refresh.UniverseOfStockList` | app.py:24-34 | the merged list has ten entries and eight distinct tickers |
| `Refresh.StockListKeys` | app.py:24-55 | after a run over the fixed list, `stock_data` has exactly the eight distinct tickers as keys |
| `Refresh.SharedTickersTakeLaterQuote` | app.py:24-55 | HDFCBANK.NS and ICICIBANK.NS end with the record from their Bank Nifty iterations, the 6th and 7th of the list |
| `Refresh.InterruptedRefreshKeepsFirstWrite` | app.py:58-63 | if the first write succeeds and the second fails, the collection afterwards is the old one with only the RELIANCE.NS document replaced; for the same input `UpdateStockPrices` returns an error (its first ensures), so an error result can follow a partial update |
| `Refresh.RefreshThenReadRoundTrip` | app.py:58-70 | when every write succeeds on a collection that holds only listed tickers, the collection afterwards is exactly the batch built |
| `Refresh.MarketIndices.constructor` | app.py:19 | the collection handle starts with whatever is already persisted |
| `Refresh.MarketIndices.UpdateStockPrices` | app.py:32-63 | the result is `Ok` exactly when every store write succeeds, and then it carries the full `stock_data` batch; the collection afterwards is the old one overwritten by the records of the completed iterations |
| `Refresh.MarketIndices.GetStockPrices` | app.py:66-75 | a successful read returns every document id of the collection and no other, each mapped to its document's fields; a failed read returns an error |

## Left out

- Flask routing, CORS, `jsonify`, HTTP status codes and the home route (app.py:9-10, app.py:27-29, app.py:60, app.py:63). The outcome is modelled as `Ok`/`Err`, and the error message text is dropped.
- Loading Firebase credentials from the environment, and the startup `ValueError` (app.py:12-21). The collection handle is simply given.
- The yfinance client (app.py:39-42). It is replaced by one `Fetch` outcome per iteration. Constructing `yf.Ticker` on line 39 sits outside the inner `try` and is taken never to raise.
- Firestore durability and consistency (app.py:58, app.py:69). The collection is an in-memory map in a class field. A failed `.set` is taken to change nothing.
- IEEE floating point. Prices are exact reals, so `Round2` rounds exact ties to the even hundredth, which is Python's rule for exactly representable ties. Binary representation effects of `round(x, 2)` and of the division are not modelled.
- Not-a-number and infinite quotes. A provider that returns them is not modelled: NaN is truthy in Python and would yield a numeric record with NaN fields.
- The insertion order of keys in `stock_data` and in the JSON response. Maps are unordered.
- Port parsing and server start-up (app.py:77-79).
- `Refresh.MarketIndices.UpdateStockPrices` and `Refresh.MarketIndices.GetStockPrices` run as single uninterrupted steps. The server started at app.py:79 may handle requests on several threads. The model therefore does not capture a read that sees a refresh half written, or two refreshes whose writes interleave.
