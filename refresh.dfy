/**
  The refresh step of the stock price service and its read path: for every ticker of
  the two merged watchlists, build a record from the provider's quote and write it to
  the "market_indices" document collection, one document per ticker; and read the
  collection back as a map from document id to record.
 */
module Refresh {
  import opened Quotes

  type Ticker = string

  /** The two fixed watchlists; HDFCBANK.NS and ICICIBANK.NS are on both. */
  const Nifty50Top5: seq<Ticker> := ["RELIANCE.NS", "TCS.NS", "INFY.NS", "HDFCBANK.NS", "ICICIBANK.NS"]
  const BankNiftyTop5: seq<Ticker> := ["HDFCBANK.NS", "ICICIBANK.NS", "SBIN.NS", "AXISBANK.NS", "KOTAKBANK.NS"]

  /** The list the refresh walks: the two watchlists concatenated, duplicates kept. */
  const StockList: seq<Ticker> := Nifty50Top5 + BankNiftyTop5

  /** The distinct tickers of the merged list. */
  const Universe: set<Ticker> :=
    {"RELIANCE.NS", "TCS.NS", "INFY.NS", "HDFCBANK.NS", "ICICIBANK.NS", "SBIN.NS", "AXISBANK.NS", "KOTAKBANK.NS"}

  /** The endpoint's outcome: the data it built, or an error (HTTP 500). */
  datatype Result<T> = Ok(data: T) | Err

  /** The `stock_data` dict after the iterations over `ts`, the i-th of which saw
      provider outcome `fs[i]`: each iteration assigns its ticker's entry. */
  function BatchData(ts: seq<Ticker>, fs: seq<Fetch>): map<Ticker, Record>
    requires |ts| == |fs|
  {
    if ts == [] then map[]
    else BatchData(ts[..|ts| - 1], fs[..|fs| - 1])[ts[|ts| - 1] := Normalize(fs[|fs| - 1])]
  }

  /** How many iterations run to completion: the index of the first store write
      that fails, or all of them when none does. */
  function CompletedWrites(writeOk: seq<bool>): (k: nat)
    ensures k <= |writeOk|
    ensures forall j :: 0 <= j < k ==> writeOk[j]
    ensures k < |writeOk| ==> !writeOk[k]
  {
    if writeOk == [] || !writeOk[0] then 0 else 1 + CompletedWrites(writeOk[1..])
  }

  /** The collection after a refresh over `ts` that started from `docs`: every
      iteration whose write went through has replaced its ticker's document. */
  function StoreAfter(docs: map<Ticker, Record>, ts: seq<Ticker>, fs: seq<Fetch>, writeOk: seq<bool>): map<Ticker, Record>
    requires |ts| == |fs| == |writeOk|
  {
    var k := CompletedWrites(writeOk);
    docs + BatchData(ts[..k], fs[..k])
  }

  /** Exactly the tickers of the list get an entry, whatever the provider said. */
  lemma {:induction false} BatchKeys(ts: seq<Ticker>, fs: seq<Fetch>)
    requires |ts| == |fs|
    ensures BatchData(ts, fs).Keys == set t | t in ts
  {
    if ts != [] {
      var n := |ts| - 1;
      BatchKeys(ts[..n], fs[..n]);
      assert ts == ts[..n] + [ts[n]];
      assert (set t | t in ts) == (set t | t in ts[..n]) + {ts[n]};
    }
  }

  /** A ticker's entry holds the record of its LAST iteration: a later iteration for
      the same ticker replaces the earlier record wholesale. */
  lemma {:induction false} LastIterationWins(ts: seq<Ticker>, fs: seq<Fetch>, j: nat)
    requires |ts| == |fs| && j < |ts|
    requires forall i :: j < i < |ts| ==> ts[i] != ts[j]
    ensures ts[j] in BatchData(ts, fs) && BatchData(ts, fs)[ts[j]] == Normalize(fs[j])
  {
    var n := |ts| - 1;
    if j < n {
      LastIterationWins(ts[..n], fs[..n], j);
    }
  }

  /** Two maps that agree away from key `x` still agree there after the same update. */
  lemma UpdateKeepsAgreement<K, V>(a: map<K, V>, b: map<K, V>, x: K, k: K, v: V)
    requires a - {x} == b - {x}
    ensures a[k := v] - {x} == b[k := v] - {x}
  {
    var a', b' := a[k := v] - {x}, b[k := v] - {x};
    assert a'.Keys == b'.Keys by {
      assert a'.Keys == (a.Keys + {k}) - {x};
      assert b'.Keys == (b.Keys + {k}) - {x};
      assert a.Keys - {x} == (a - {x}).Keys;
      assert b.Keys - {x} == (b - {x}).Keys;
      assert (a.Keys + {k}) - {x} == (a.Keys - {x}) + ({k} - {x});
      assert (b.Keys + {k}) - {x} == (b.Keys - {x}) + ({k} - {x});
    }
    forall y | y in a' ensures a'[y] == b'[y] {
      if y != k {
        assert (a - {x})[y] == (b - {x})[y];
      }
    }
  }

  /** What the provider did in iteration `j` changes no other ticker's entry, so one
      failing ticker cannot spoil the others. */
  lemma {:induction false} FetchIsolated(ts: seq<Ticker>, fs: seq<Fetch>, j: nat, f: Fetch)
    requires |ts| == |fs| && j < |ts|
    ensures BatchData(ts, fs[j := f]) - {ts[j]} == BatchData(ts, fs) - {ts[j]}
  {
    var n := |ts| - 1;
    if j < n {
      assert fs[j := f][..n] == fs[..n][j := f];
      FetchIsolated(ts[..n], fs[..n], j, f);
      var before, after := BatchData(ts[..n], fs[..n]), BatchData(ts[..n], fs[..n][j := f]);
      var v := Normalize(fs[n]);
      assert fs[j := f][n] == fs[n];
      UpdateKeepsAgreement(after, before, ts[j], ts[n], v);
    } else {
      assert fs[j := f][..n] == fs[..n];
    }
  }

  /** A ticker whose last quote raised is stored as the sentinel, and the other
      tickers keep the records they would have had had it succeeded. */
  lemma FailureGivesSentinel(ts: seq<Ticker>, fs: seq<Fetch>, j: nat, f: Fetch)
    requires |ts| == |fs| && j < |ts| && fs[j] == Raised
    requires forall i :: j < i < |ts| ==> ts[i] != ts[j]
    ensures ts[j] in BatchData(ts, fs) && BatchData(ts, fs)[ts[j]] == NA
    ensures BatchData(ts, fs) - {ts[j]} == BatchData(ts, fs[j := f]) - {ts[j]}
  {
    LastIterationWins(ts, fs, j);
    FetchIsolated(ts, fs, j, f);
  }

  /** A store write changes only its own ticker's document, and a document written
      in an iteration before a failing write stays written: the refresh is not atomic. */
  lemma {:induction false} StoreAfterFrame(docs: map<Ticker, Record>, ts: seq<Ticker>, fs: seq<Fetch>, writeOk: seq<bool>)
    requires |ts| == |fs| == |writeOk|
    ensures var k := CompletedWrites(writeOk);
      && StoreAfter(docs, ts, fs, writeOk).Keys == docs.Keys + (set i | 0 <= i < k :: ts[i])
      && (forall t :: t in docs && t !in ts[..k] ==> StoreAfter(docs, ts, fs, writeOk)[t] == docs[t])
      && (forall i :: 0 <= i < k && (forall i' :: i < i' < k ==> ts[i'] != ts[i]) ==>
            StoreAfter(docs, ts, fs, writeOk)[ts[i]] == Normalize(fs[i]))
  {
    var k := CompletedWrites(writeOk);
    BatchKeys(ts[..k], fs[..k]);
    assert (set t | t in ts[..k]) == (set i | 0 <= i < k :: ts[i]) by {
      forall t | t in ts[..k] ensures exists i :: 0 <= i < k && ts[i] == t {
        var i :| 0 <= i < k && ts[..k][i] == t;
      }
    }
    forall i | 0 <= i < k && (forall i' :: i < i' < k ==> ts[i'] != ts[i])
      ensures StoreAfter(docs, ts, fs, writeOk)[ts[i]] == Normalize(fs[i])
    {
      LastIterationWins(ts[..k], fs[..k], i);
    }
  }

  /** Every ticker of the merged list, and no other, is a key of `stock_data`:
      eight distinct keys from a ten-element list. */
  lemma StockListKeys(fs: seq<Fetch>)
    requires |fs| == |StockList|
    ensures |StockList| == 10
    ensures BatchData(StockList, fs).Keys == Universe
    ensures |BatchData(StockList, fs).Keys| == 8
  {
    BatchKeys(StockList, fs);
    UniverseOfStockList();
  }

  /** The merged list has ten entries and eight distinct tickers. */
  lemma UniverseOfStockList()
    ensures |StockList| == 10
    ensures (set t | t in StockList) == Universe
    ensures |Universe| == 8
  {
  }

  /** The two tickers on both watchlists end with the quote seen in the Bank Nifty
      pass, the later of their two iterations. */
  lemma SharedTickersTakeLaterQuote(fs: seq<Fetch>)
    requires |fs| == |StockList|
    ensures "HDFCBANK.NS" in BatchData(StockList, fs) && BatchData(StockList, fs)["HDFCBANK.NS"] == Normalize(fs[5])
    ensures "ICICIBANK.NS" in BatchData(StockList, fs) && BatchData(StockList, fs)["ICICIBANK.NS"] == Normalize(fs[6])
  {
    LastIterationWins(StockList, fs, 5);
    LastIterationWins(StockList, fs, 6);
  }

  /** A refresh whose second write fails returns an error, yet the first ticker's
      document has already been replaced: the batch is not written atomically. */
  lemma InterruptedRefreshKeepsFirstWrite(docs: map<Ticker, Record>, fs: seq<Fetch>, writeOk: seq<bool>)
    requires |fs| == |StockList| && |writeOk| == |StockList|
    requires writeOk[0] && !writeOk[1]
    ensures StoreAfter(docs, StockList, fs, writeOk) == docs["RELIANCE.NS" := Normalize(fs[0])]
  {
    assert CompletedWrites(writeOk) == 1;
    assert StockList[..1] == ["RELIANCE.NS"];
    assert BatchData(StockList[..1], fs[..1]) == map["RELIANCE.NS" := Normalize(fs[0])];
  }

  /** When every write goes through on a collection that holds only tickers of the
      list, reading it back gives exactly the batch that was built. */
  lemma RefreshThenReadRoundTrip(docs: map<Ticker, Record>, fs: seq<Fetch>, writeOk: seq<bool>)
    requires |fs| == |StockList| && |writeOk| == |StockList|
    requires forall i :: 0 <= i < |writeOk| ==> writeOk[i]
    requires docs.Keys <= Universe
    ensures StoreAfter(docs, StockList, fs, writeOk) == BatchData(StockList, fs)
  {
    var k := CompletedWrites(writeOk);
    assert k == |writeOk|;
    assert StockList[..k] == StockList && fs[..k] == fs;
    StockListKeys(fs);
    var batch := BatchData(StockList, fs);
    assert (docs + batch).Keys == batch.Keys;
  }

  /** The "market_indices" collection: document id (the ticker) to document. */
  class MarketIndices {
    var docs: map<Ticker, Record>

    /** A handle on the collection, holding whatever is already persisted. */
    constructor (persisted: map<Ticker, Record>)
      ensures docs == persisted
    {
      docs := persisted;
    }

    /** One refresh. The provider's outcome for the i-th ticker of the list is
        `fetched[i]`; whether the i-th store write goes through is `writeOk[i]`.
        A failing write ends the loop with an error; what was written before stays. */
    method UpdateStockPrices(fetched: seq<Fetch>, writeOk: seq<bool>) returns (res: Result<map<Ticker, Record>>)
      requires |fetched| == |StockList| && |writeOk| == |StockList|
      modifies this
      ensures res.Ok? <==> forall i :: 0 <= i < |writeOk| ==> writeOk[i]
      ensures res.Ok? ==> res.data == BatchData(StockList, fetched)
      ensures docs == StoreAfter(old(docs), StockList, fetched, writeOk)
    {
      var stockData: map<Ticker, Record> := map[];
      var i := 0;
      while i < |StockList|
        invariant 0 <= i <= |StockList|
        invariant forall j :: 0 <= j < i ==> writeOk[j]
        invariant stockData == BatchData(StockList[..i], fetched[..i])
        invariant docs == old(docs) + stockData
      {
        var ticker := StockList[i];
        assert StockList[..i + 1][..i] == StockList[..i];
        assert fetched[..i + 1][..i] == fetched[..i];
        stockData := stockData[ticker := Normalize(fetched[i])];
        if !writeOk[i] {
          assert CompletedWrites(writeOk) == i;
          return Err;
        }
        docs := docs[ticker := stockData[ticker]];
        i := i + 1;
      }
      assert StockList[..i] == StockList && fetched[..i] == fetched && writeOk[..i] == writeOk;
      return Ok(stockData);
    }

    /** The read path: every document id mapped to the fields of its document, or an
        error when the read fails (`readOk` false). */
    method GetStockPrices(readOk: bool) returns (res: Result<map<Ticker, map<string, Field>>>)
      ensures res.Ok? <==> readOk
      ensures res.Ok? ==> res.data.Keys == docs.Keys
      ensures res.Ok? ==> forall t :: t in docs ==> res.data[t] == Document(docs[t])
    {
      if !readOk {
        return Err;
      }
      res := Ok(map t | t in docs :: Document(docs[t]));
    }
  }
}
