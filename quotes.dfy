/**
  Per-ticker quote normalisation of the stock refresh endpoint: turning what the
  market-data provider reported for one ticker into the record that is stored,
  either three rounded numbers or the all-"N/A" sentinel.
 */
module Quotes {

  datatype Option<T> = None | Some(value: T)

  /** What reading `fast_info` produced for one ticker in one iteration. `Raised`
      stands for any exception thrown while reading it; a field the provider left
      empty (Python `None`) is `None`. */
  datatype Fetch = Raised | Got(live: Option<real>, prev: Option<real>)

  /** The stored record: all three fields numeric, or all three "N/A". */
  datatype Record = Numeric(price: real, change: real, prevClose: real) | NA

  /** One field of the stored document as it is written: a number or the string "N/A". */
  datatype Field = Num(value: real) | NotAvailable

  /** True when `x` is a whole number of hundredths, i.e. has at most two decimals. */
  predicate WholeHundredths(x: real)
  {
    (x * 100.0).Floor as real == x * 100.0
  }

  /** `round(x, 2)` on exact reals: the nearest hundredth, ties to the even hundredth. */
  function Round2(x: real): (r: real)
    ensures WholeHundredths(r)
  {
    var scaled := x * 100.0;
    var n := scaled.Floor;
    var frac := scaled - n as real;
    var k := if frac > 0.5 || (frac == 0.5 && n % 2 != 0) then n + 1 else n;
    HundredthsAreWhole(k);
    k as real / 100.0
  }

  /** `k` hundredths is a whole number of hundredths. */
  lemma HundredthsAreWhole(k: int)
    ensures WholeHundredths(k as real / 100.0)
  {
    assert k as real / 100.0 * 100.0 == k as real;
  }

  /** Rounding moves a value by at most half a hundredth. */
  lemma Round2Close(x: real)
    ensures -0.005 <= Round2(x) - x <= 0.005
  {
    var scaled := x * 100.0;
    var n := scaled.Floor;
    assert n as real <= scaled < n as real + 1.0;
  }

  /** A value that already has at most two decimals is left as it is. */
  lemma Round2Hundredths(k: int)
    ensures Round2(k as real / 100.0) == k as real / 100.0
  {
    var x := k as real / 100.0;
    assert x * 100.0 == k as real;
    assert (x * 100.0).Floor == k;
  }

  /** A value exactly halfway between the hundredths `n` and `n + 1` goes to the even one. */
  lemma Round2TiesToEven(n: int)
    ensures Round2((n as real + 0.5) / 100.0) == (if n % 2 == 0 then n else n + 1) as real / 100.0
  {
    var x := (n as real + 0.5) / 100.0;
    assert x * 100.0 == n as real + 0.5;
    assert (x * 100.0).Floor == n;
  }

  /** Two ties, one either side of zero: 0.125 goes down to 0.12, -0.135 down to -0.14. */
  lemma Round2TieExamples()
    ensures Round2(0.125) == 0.12
    ensures Round2(-0.135) == -0.14
  {
    Round2TiesToEven(12);
    Round2TiesToEven(-14);
  }

  /** Rounding preserves order. */
  lemma Round2Monotone(x: real, y: real)
    requires x <= y
    ensures Round2(x) <= Round2(y)
  {
    var nx, ny := (x * 100.0).Floor, (y * 100.0).Floor;
    assert x * 100.0 <= y * 100.0;
    assert nx <= ny;
  }

  /** The percentage change of `live` against a non-zero `prev`, before rounding. */
  function PercentChange(live: real, prev: real): real
    requires prev != 0.0
  {
    (live - prev) / prev * 100.0
  }

  /** The record built for one ticker: numbers only when both prices are there and
      the previous close is non-zero (truthy); every other case, including an
      exception while reading or computing, gives the sentinel. */
  function Normalize(f: Fetch): (r: Record)
    ensures r.Numeric? <==> f.Got? && f.live.Some? && f.prev.Some? && f.prev.value != 0.0
  {
    match f
    case Raised => NA
    case Got(live, prev) =>
      if prev.None? || prev.value == 0.0 then NA
      else if live.None? then NA  // arithmetic on a missing live price raises inside the try
      else
        Numeric(Round2(live.value), Round2(PercentChange(live.value, prev.value)), Round2(prev.value))
  }

  /** A previous close that is zero or missing gives the sentinel whatever the live price. */
  lemma SentinelWhenNoPrevClose(live: Option<real>, prev: Option<real>)
    requires prev == None || prev == Some(0.0)
    ensures Normalize(Got(live, prev)) == NA
  {
  }

  /** Every numeric field is a whole number of hundredths, and within half a hundredth
      of the live price, of the percentage change and of the previous close. */
  lemma NormalizeApproximates(live: real, prev: real)
    requires prev != 0.0
    ensures Normalize(Got(Some(live), Some(prev))).Numeric?
    ensures var r := Normalize(Got(Some(live), Some(prev)));
      && WholeHundredths(r.price) && WholeHundredths(r.change) && WholeHundredths(r.prevClose)
      && -0.005 <= r.price - live <= 0.005
      && -0.005 <= r.change - PercentChange(live, prev) <= 0.005
      && -0.005 <= r.prevClose - prev <= 0.005
  {
    Round2Close(live);
    Round2Close(PercentChange(live, prev));
    Round2Close(prev);
  }

  /** Prices quoted in whole hundredths are stored unchanged. */
  lemma NormalizeKeepsHundredths(livePaise: int, prevPaise: int)
    requires prevPaise != 0
    ensures var r := Normalize(Got(Some(livePaise as real / 100.0), Some(prevPaise as real / 100.0)));
      r.Numeric? && r.price == livePaise as real / 100.0 && r.prevClose == prevPaise as real / 100.0
  {
    Round2Hundredths(livePaise);
    Round2Hundredths(prevPaise);
  }

  /** With a positive previous close the sign of the stored change follows the
      direction of the move: a rise never shows as a fall and vice versa. */
  lemma ChangeFollowsMove(live: real, prev: real)
    requires prev > 0.0
    ensures var r := Normalize(Got(Some(live), Some(prev)));
      r.Numeric? && (live >= prev ==> r.change >= 0.0) && (live <= prev ==> r.change <= 0.0)
  {
    Round2Hundredths(0);
    var c := PercentChange(live, prev);
    if live >= prev {
      assert c >= 0.0;
      Round2Monotone(0.0, c);
    }
    if live <= prev {
      assert c <= 0.0;
      Round2Monotone(c, 0.0);
    }
  }

  /** Live price 105 against a previous close of 100 is stored as 105, +5 %, 100. */
  lemma NormalizeExample()
    ensures Normalize(Got(Some(105.0), Some(100.0))) == Numeric(105.0, 5.0, 100.0)
  {
    Round2Hundredths(10500);
    Round2Hundredths(500);
    Round2Hundredths(10000);
  }

  /** The document written to the store for a record: the keys "price", "change" and
      "prevClose", all numbers or all "N/A", never a mix. */
  function Document(r: Record): (d: map<string, Field>)
    ensures d.Keys == {"price", "change", "prevClose"}
    ensures (forall k :: k in d ==> d[k].Num?) || (forall k :: k in d ==> d[k] == NotAvailable)
    ensures r.NA? <==> d["price"] == NotAvailable
    ensures r.Numeric? ==> d["price"] == Num(r.price) && d["change"] == Num(r.change) && d["prevClose"] == Num(r.prevClose)
  {
    match r
    case Numeric(p, c, pc) => map["price" := Num(p), "change" := Num(c), "prevClose" := Num(pc)]
    case NA => map["price" := NotAvailable, "change" := NotAvailable, "prevClose" := NotAvailable]
  }

  /** The document determines the record: no two records are stored alike. */
  lemma DocumentInjective(a: Record, b: Record)
    requires Document(a) == Document(b)
    ensures a == b
  {
    if a.Numeric? && b.Numeric? {
      assert Document(a)["price"] == Document(b)["price"];
      assert Document(a)["change"] == Document(b)["change"];
      assert Document(a)["prevClose"] == Document(b)["prevClose"];
    } else {
      assert Document(a)["price"] == Document(b)["price"];
    }
  }
}
