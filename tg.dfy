/** The analytics of the bot's `/ca` and `/pair` commands (src/tg.py): percentage
    trends over fixed lookback windows, 24-hour volume and transaction sums,
    24-hour and all-time peaks with their market caps, and the K/M/B scaling
    of numbers for the caption. The candle table is a sequence of `Candle`
    rows; "now", the total supply, the pool's WETH reserve and the ether price
    are parameters. */
module Analytics {
  import opened Results
  import opened Frames
  import opened Candles
  import Numerals
  import EthTools

  /** The lookback windows of the trend table, in hours: 1h, 12h, 24h and one week. */
  const TrendHours: seq<nat> := [1, 12, 24, 168]

  const SecondsPerHour: real := 3600.0
  const SecondsPerDay: real := 86400.0

  /** A percentage change as numpy float64 division produces it: a finite value,
      or an infinity or NaN when the initial price is zero. */
  datatype Trend = Pct(value: real) | PlusInf | MinusInf | NaN

  /** `(final - initial) / initial * 100`. */
  function Change(initial: real, final: real): Trend {
    if initial != 0.0 then Pct((final - initial) / initial * 100.0)
    else if final > 0.0 then PlusInf
    else if final < 0.0 then MinusInf
    else NaN
  }

  /** A finite trend of r percent means the final price is the initial one grown by r percent. */
  lemma ChangeIsRelative(initial: real, final: real, r: real)
    ensures Change(initial, final) == Pct(r) <==> initial != 0.0 && final == initial + initial * r / 100.0
  {
    if initial != 0.0 {
      var q := (final - initial) / initial;
      assert q * initial == final - initial;
      if final == initial + initial * r / 100.0 {
        assert (final - initial) == initial * (r / 100.0);
        assert q == r / 100.0;
      }
      if q * 100.0 == r {
        assert initial * r / 100.0 == initial * q;
      }
    }
  }

  /** The rows of the table strictly after `cutoff` on the `ts_utc` column. */
  function Window(rows: seq<Candle>, cutoff: real): seq<Candle> {
    After(rows, TsUtcOf, cutoff)
  }

  function TrendCutoff(now: real, hours: nat): real {
    now - hours as real * SecondsPerHour
  }

  /** The trend over the last `hours` hours; `None` when the window is empty
      (`iloc[0]` raises IndexError, which the loop swallows). */
  function WindowTrend(rows: seq<Candle>, now: real, hours: nat): Option<Trend> {
    var w := Window(rows, TrendCutoff(now, hours));
    if w == [] then None else Some(Change(w[0].p, w[|w| - 1].p))
  }

  /** The key `f'{time}h_trend'`. */
  function TrendKey(hours: nat): string {
    Numerals.IntToString(hours) + "h_trend"
  }

  ghost predicate Injective(keyOf: nat -> string) {
    forall a, b :: keyOf(a) == keyOf(b) ==> a == b
  }

  /** Distinct windows get distinct keys, so no window overwrites another's entry. */
  lemma TrendKeyIsInjective()
    ensures Injective(TrendKey)
  {
    forall a: nat, b: nat | TrendKey(a) == TrendKey(b)
      ensures a == b
    {
      var x, y := Numerals.IntToString(a), Numerals.IntToString(b);
      assert |x| == |y|;
      assert x == TrendKey(a)[..|x|] && y == TrendKey(b)[..|y|];
      Numerals.IntToStringInjective(a, b);
    }
  }

  /** What a dictionary filled over the windows `hours` holds: one entry, under
      `keyOf(h)`, per window whose trend is defined, that trend, and nothing else. */
  ghost predicate TableFor(table: map<string, Trend>, hours: seq<nat>,
                           trendOf: nat -> Option<Trend>, keyOf: nat -> string) {
    && (forall k :: k in table ==> exists h :: h in hours && k == keyOf(h))
    && (forall h :: h in hours ==> (keyOf(h) in table <==> trendOf(h).Some?))
    && (forall h :: h in hours && keyOf(h) in table ==> table[keyOf(h)] == trendOf(h).value)
  }

  /** The trend dictionary of `analyse_ca`: one `'{h}h_trend'` entry per window with at
      least one row, holding that window's trend, and nothing else. */
  ghost predicate TrendsFor(trends: map<string, Trend>, rows: seq<Candle>, now: real, hours: seq<nat>) {
    && (forall k :: k in trends ==> exists h :: h in hours && k == TrendKey(h))
    && (forall h :: h in hours ==> (TrendKey(h) in trends <==> WindowTrend(rows, now, h).Some?))
    && (forall h :: h in hours && TrendKey(h) in trends ==> trends[TrendKey(h)] == WindowTrend(rows, now, h).value)
  }

  /** The dictionary after the loop has visited `hours` in order. */
  function TrendTable(hours: seq<nat>, trendOf: nat -> Option<Trend>, keyOf: nat -> string): map<string, Trend> {
    if hours == [] then map[]
    else
      var table := TrendTable(hours[..|hours| - 1], trendOf, keyOf);
      var h := hours[|hours| - 1];
      if trendOf(h).Some? then table[keyOf(h) := trendOf(h).value] else table
  }

  lemma {:induction false} TrendTableHolds(hours: seq<nat>, trendOf: nat -> Option<Trend>, keyOf: nat -> string)
    requires Injective(keyOf)
    ensures TableFor(TrendTable(hours, trendOf, keyOf), hours, trendOf, keyOf)
  {
    if hours != [] {
      var ps := hours[..|hours| - 1];
      var h := hours[|hours| - 1];
      TrendTableHolds(ps, trendOf, keyOf);
      var previous := TrendTable(ps, trendOf, keyOf);
      var table := TrendTable(hours, trendOf, keyOf);
      assert hours == ps + [h];
      forall k | k in table
        ensures exists g :: g in hours && k == keyOf(g)
      {
        if k != keyOf(h) {
          assert k in previous;
          var g :| g in ps && k == keyOf(g);
          assert g in hours;
        }
      }
      forall g | g in hours
        ensures keyOf(g) in table <==> trendOf(g).Some?
        ensures keyOf(g) in table ==> table[keyOf(g)] == trendOf(g).value
      {
        if keyOf(g) != keyOf(h) {
          assert g in ps;
        }
      }
    }
  }

  /** Visiting one more window adds its entry, if any, to the dictionary so far. */
  lemma TrendTableStep(hours: seq<nat>, i: nat, trendOf: nat -> Option<Trend>, keyOf: nat -> string)
    requires i < |hours|
    ensures TrendTable(hours[..i + 1], trendOf, keyOf) ==
      var table := TrendTable(hours[..i], trendOf, keyOf);
      if trendOf(hours[i]).Some? then table[keyOf(hours[i]) := trendOf(hours[i]).value] else table
  {
    assert hours[..i + 1][..i] == hours[..i];
  }

  /** The `for time in times` loop of `analyse_ca`. */
  method Trends(rows: seq<Candle>, now: real) returns (trends: map<string, Trend>)
    ensures TrendsFor(trends, rows, now, TrendHours)
  {
    var trendOf := (h: nat) => WindowTrend(rows, now, h);
    trends := map[];
    for i := 0 to |TrendHours|
      invariant trends == TrendTable(TrendHours[..i], trendOf, TrendKey)
    {
      var hours := TrendHours[i];
      TrendTableStep(TrendHours, i, trendOf, TrendKey);
      var window := Window(rows, TrendCutoff(now, hours));
      assert trendOf(hours) == if window == [] then None else Some(Change(window[0].p, window[|window| - 1].p));
      if window == [] {
        // `last_time_period.iloc[0]` raises IndexError; the handler logs it and the loop goes on
      } else {
        var initialPrice := window[0].p;
        var finalPrice := window[|window| - 1].p;
        trends := trends[TrendKey(hours) := Change(initialPrice, finalPrice)];
      }
    }
    assert TrendHours[..|TrendHours|] == TrendHours;
    TrendKeyIsInjective();
    TrendTableHolds(TrendHours, trendOf, TrendKey);
  }

  /** A window holding a single row of nonzero price has a trend of 0%: its first and last rows coincide. */
  lemma SingleRowWindowIsFlat(rows: seq<Candle>, now: real, hours: nat)
    requires |Window(rows, TrendCutoff(now, hours))| == 1
    requires Window(rows, TrendCutoff(now, hours))[0].p != 0.0
    ensures WindowTrend(rows, now, hours) == Some(Pct(0.0))
  {
  }

  /** The cutoff is strict: an hour window ending now does not hold the row exactly one
      hour old, so two rows an hour apart give a flat one-hour trend rather than 10%. */
  lemma StrictCutoffDropsWindowStart()
    ensures var first := Candle(0.0, 0.0, 100.0, 0.0, 0.0, 0.0, 0.0, 0.0, 0.0, 0.0, 0.0, 0.0, 0.0);
            var last := Candle(3600.0, 3600.0, 110.0, 0.0, 0.0, 0.0, 0.0, 0.0, 0.0, 0.0, 0.0, 0.0, 0.0);
            WindowTrend([first, last], 3600.0, 1) == Some(Pct(0.0))
  {
    var first := Candle(0.0, 0.0, 100.0, 0.0, 0.0, 0.0, 0.0, 0.0, 0.0, 0.0, 0.0, 0.0, 0.0);
    var last := Candle(3600.0, 3600.0, 110.0, 0.0, 0.0, 0.0, 0.0, 0.0, 0.0, 0.0, 0.0, 0.0, 0.0);
    var rows := [first, last];
    assert TrendCutoff(3600.0, 1) == 0.0;
    assert rows[..1] == [first] && [first][..0] == [];
    assert After([first], TsUtcOf, 0.0) == [];
    assert After(rows, TsUtcOf, 0.0) == After([first], TsUtcOf, 0.0) + [last];
  }

  /** A window is empty exactly when no row is later than its cutoff, and then it gets no entry. */
  lemma EmptyWindowHasNoTrend(rows: seq<Candle>, now: real, hours: nat)
    ensures WindowTrend(rows, now, hours).None? <==>
      forall i :: 0 <= i < |rows| ==> rows[i].tsUtc <= TrendCutoff(now, hours)
  {
    var cutoff := TrendCutoff(now, hours);
    AfterMembers(rows, TsUtcOf, cutoff);
    if forall i :: 0 <= i < |rows| ==> rows[i].tsUtc <= cutoff {
      AfterNoneAbove(rows, TsUtcOf, cutoff);
    }
  }

  /** On a table in ascending time order a window's trend compares its first row
      past the cutoff, at position k, with the table's last row. */
  lemma TrendSpansToLastRow(rows: seq<Candle>, now: real, hours: nat)
    requires Sorted(rows, TsUtcOf)
    requires WindowTrend(rows, now, hours).Some?
    ensures var cutoff := TrendCutoff(now, hours);
      var k := |rows| - |Window(rows, cutoff)|;
      && k < |rows| && rows[k].tsUtc > cutoff
      && (forall j :: 0 <= j < k ==> rows[j].tsUtc <= cutoff)
      && WindowTrend(rows, now, hours) == Some(Change(rows[k].p, rows[|rows| - 1].p))
  {
    var cutoff := TrendCutoff(now, hours);
    var w := Window(rows, cutoff);
    AfterOfSortedIsSuffix(rows, TsUtcOf, cutoff);
    AfterMembers(rows, TsUtcOf, cutoff);
    var k := |rows| - |w|;
    assert rows[k] == w[0] && rows[|rows| - 1] == w[|w| - 1];
    forall j | 0 <= j < k
      ensures rows[j].tsUtc <= cutoff
    {
      KeptBeforeSuffix(rows, cutoff, j, k);
    }
  }

  /** On a sorted table every row before the kept suffix is at or before the cutoff. */
  lemma KeptBeforeSuffix(rows: seq<Candle>, cutoff: real, j: nat, k: nat)
    requires Sorted(rows, TsUtcOf)
    requires j < k <= |rows| && k == |rows| - |Window(rows, cutoff)|
    ensures rows[j].tsUtc <= cutoff
  {
    if rows[j].tsUtc > cutoff {
      forall i | j < i < |rows|
        ensures rows[i].tsUtc > cutoff
      {
        assert TsUtcOf(rows[j]) <= TsUtcOf(rows[i]);
      }
      KeptCount(rows, cutoff, j);
      assert false;
    }
  }

  /** Rows from `j` on that are all past the cutoff all stay in the window. */
  lemma KeptCount(rows: seq<Candle>, cutoff: real, j: nat)
    requires j < |rows|
    requires forall i :: j <= i < |rows| ==> rows[i].tsUtc > cutoff
    ensures |Window(rows, cutoff)| >= |rows| - j
    decreases |rows|
  {
    if |rows| - 1 > j {
      KeptCount(rows[..|rows| - 1], cutoff, j);
    }
  }

  /** The numeric columns of a candle. */
  datatype Field = P | O | H | L | C | V | BV | SV | TC | B | S

  function Get(row: Candle, f: Field): real {
    match f
    case P => row.p
    case O => row.o
    case H => row.h
    case L => row.l
    case C => row.c
    case V => row.v
    case BV => row.bv
    case SV => row.sv
    case TC => row.tc
    case B => row.b
    case S => row.s
  }

  /** `rows[f]`: one column of the table. */
  function Values(rows: seq<Candle>, f: Field): (xs: seq<real>)
    ensures |xs| == |rows|
    ensures forall i :: 0 <= i < |rows| ==> xs[i] == Get(rows[i], f)
  {
    seq(|rows|, i requires 0 <= i < |rows| => Get(rows[i], f))
  }

  /** The sum of column `f` over the rows whose key exceeds `cutoff`, row by row. */
  function SumWhere(rows: seq<Candle>, key: Candle -> real, cutoff: real, f: Field): real {
    if rows == [] then 0.0
    else SumWhere(rows[..|rows| - 1], key, cutoff, f)
         + (if key(rows[|rows| - 1]) > cutoff then Get(rows[|rows| - 1], f) else 0.0)
  }

  /** Summing a column of the filtered table adds up exactly the rows past the cutoff. */
  lemma {:induction false} WindowSum(rows: seq<Candle>, key: Candle -> real, cutoff: real, f: Field)
    ensures Sum(Values(After(rows, key, cutoff), f)) == SumWhere(rows, key, cutoff, f)
  {
    if rows != [] {
      var p := rows[..|rows| - 1];
      var last := rows[|rows| - 1];
      WindowSum(p, key, cutoff, f);
      var wp := After(p, key, cutoff);
      if key(last) > cutoff {
        var xs := Values(After(rows, key, cutoff), f);
        assert xs[..|xs| - 1] == Values(wp, f);
      } else {
        assert After(rows, key, cutoff) == wp;
      }
    }
  }

  /** A window past every row sums to zero. */
  lemma EmptyWindowSumsToZero(rows: seq<Candle>, key: Candle -> real, cutoff: real, f: Field)
    requires forall i :: 0 <= i < |rows| ==> key(rows[i]) <= cutoff
    ensures SumWhere(rows, key, cutoff, f) == 0.0
  {
    WindowSum(rows, key, cutoff, f);
    AfterNoneAbove(rows, key, cutoff);
  }

  /** The largest high price among the rows past the cutoff; `None` (NaN) when there are none. */
  lemma {:induction false} WindowHighs(rows: seq<Candle>, key: Candle -> real, cutoff: real)
    ensures var hs := Values(After(rows, key, cutoff), H);
      && (hs == [] <==> forall i :: 0 <= i < |rows| ==> key(rows[i]) <= cutoff)
      && (forall i :: 0 <= i < |rows| && key(rows[i]) > cutoff ==> rows[i].h in hs)
      && (forall x :: x in hs ==> exists i :: 0 <= i < |rows| && key(rows[i]) > cutoff && rows[i].h == x)
  {
    var w := After(rows, key, cutoff);
    var hs := Values(w, H);
    AfterMembers(rows, key, cutoff);
    if forall i :: 0 <= i < |rows| ==> key(rows[i]) <= cutoff {
      AfterNoneAbove(rows, key, cutoff);
    }
    forall i | 0 <= i < |rows| && key(rows[i]) > cutoff
      ensures rows[i].h in hs
    {
      var j :| 0 <= j < |w| && w[j] == rows[i];
      assert hs[j] == rows[i].h;
    }
    forall x | x in hs
      ensures exists i :: 0 <= i < |rows| && key(rows[i]) > cutoff && rows[i].h == x
    {
      var j :| 0 <= j < |hs| && hs[j] == x;
      assert w[j] in rows;
      var i :| 0 <= i < |rows| && rows[i] == w[j];
      assert key(rows[i]) > cutoff && rows[i].h == x;
    }
  }

  /** A market cap: the price of one token times the supply. */
  function Mcap(price: real, supply: real): real {
    price * supply
  }

  /** `Decimal(price) * total_supply`; a NaN price stays NaN. */
  function MarketCap(price: Option<real>, supply: real): Option<real> {
    if price.Some? then Some(Mcap(price.value, supply)) else None
  }

  /** The `24h_stats` bundle of `analyse_ca`. */
  datatype Stats24h = Stats24h(
    volume: real, buyVolume: real, sellVolume: real,
    transactions: real, buyTransactions: real, sellTransactions: real,
    peakPrice: Option<real>, peakMcap: Option<real>,
    lowPrice: Option<real>, lowMcap: Option<real>)

  /** `last_24_hours['h'].max()` and `.min()`. */
  function Peak24(rows: seq<Candle>, now: real): Option<real> {
    Max(Values(Window(rows, now - SecondsPerDay), H))
  }

  function Low24(rows: seq<Candle>, now: real): Option<real> {
    Min(Values(Window(rows, now - SecondsPerDay), H))
  }

  function Stats24(rows: seq<Candle>, now: real, supply: real): Stats24h {
    var w := Window(rows, now - SecondsPerDay);
    var peak := Peak24(rows, now);
    var low := Low24(rows, now);
    Stats24h(Sum(Values(w, V)), Sum(Values(w, BV)), Sum(Values(w, SV)),
             Sum(Values(w, TC)), Sum(Values(w, B)), Sum(Values(w, S)),
             peak, MarketCap(peak, supply), low, MarketCap(low, supply))
  }

  /** The six 24h sums add up the rows whose `ts_utc` is after now - 24h. */
  lemma Stats24Sums(rows: seq<Candle>, now: real, supply: real)
    ensures var s, cutoff := Stats24(rows, now, supply), now - SecondsPerDay;
      && s.volume == SumWhere(rows, TsUtcOf, cutoff, V)
      && s.buyVolume == SumWhere(rows, TsUtcOf, cutoff, BV)
      && s.sellVolume == SumWhere(rows, TsUtcOf, cutoff, SV)
      && s.transactions == SumWhere(rows, TsUtcOf, cutoff, TC)
      && s.buyTransactions == SumWhere(rows, TsUtcOf, cutoff, B)
      && s.sellTransactions == SumWhere(rows, TsUtcOf, cutoff, S)
  {
    var cutoff := now - SecondsPerDay;
    WindowSum(rows, TsUtcOf, cutoff, V);
    WindowSum(rows, TsUtcOf, cutoff, BV);
    WindowSum(rows, TsUtcOf, cutoff, SV);
    WindowSum(rows, TsUtcOf, cutoff, TC);
    WindowSum(rows, TsUtcOf, cutoff, B);
    WindowSum(rows, TsUtcOf, cutoff, S);
  }

  /** The largest and smallest high of the rows past a cutoff: both exist exactly when
      such a row exists, bracket every such row's high, and are each attained by one. */
  lemma WindowExtremes(rows: seq<Candle>, key: Candle -> real, cutoff: real)
    ensures var hs := Values(After(rows, key, cutoff), H);
      && (Max(hs).Some? <==> exists i :: 0 <= i < |rows| && key(rows[i]) > cutoff)
      && Min(hs).Some? == Max(hs).Some?
      && (forall i :: 0 <= i < |rows| && key(rows[i]) > cutoff ==>
            Min(hs).value <= rows[i].h <= Max(hs).value)
      && (Max(hs).Some? ==> exists i :: 0 <= i < |rows| && key(rows[i]) > cutoff && rows[i].h == Max(hs).value)
      && (Max(hs).Some? ==> exists i :: 0 <= i < |rows| && key(rows[i]) > cutoff && rows[i].h == Min(hs).value)
  {
    WindowHighs(rows, key, cutoff);
    var hs := Values(After(rows, key, cutoff), H);
    if Max(hs).Some? {
      assert Max(hs).value in hs && Min(hs).value in hs;
    }
  }

  /** The 24h peak and low of `Stats24` come from the high column of the last 24 hours (see `WindowExtremes`). */
  lemma Stats24Extremes(rows: seq<Candle>, now: real)
    ensures var peak, low, cutoff := Peak24(rows, now), Low24(rows, now), now - SecondsPerDay;
      && (peak.Some? <==> exists i :: 0 <= i < |rows| && rows[i].tsUtc > cutoff)
      && low.Some? == peak.Some?
      && (forall i :: 0 <= i < |rows| && rows[i].tsUtc > cutoff ==> low.value <= rows[i].h <= peak.value)
      && (peak.Some? ==> exists i :: 0 <= i < |rows| && rows[i].tsUtc > cutoff && rows[i].h == peak.value)
      && (peak.Some? ==> exists i :: 0 <= i < |rows| && rows[i].tsUtc > cutoff && rows[i].h == low.value)
  {
    WindowExtremes(rows, TsUtcOf, now - SecondsPerDay);
    assert forall i :: 0 <= i < |rows| ==> TsUtcOf(rows[i]) == rows[i].tsUtc;
  }

  /** Each 24h market cap is its price times the supply (NaN stays NaN), so for
      a nonnegative supply the low's cap never exceeds the peak's. */
  lemma Stats24Mcaps(rows: seq<Candle>, now: real, supply: real)
    ensures var s := Stats24(rows, now, supply);
      && s.peakMcap.Some? == s.peakPrice.Some?
      && s.lowMcap.Some? == s.lowPrice.Some?
      && (s.peakPrice.Some? ==> s.peakMcap.value == Mcap(s.peakPrice.value, supply))
      && (s.lowPrice.Some? ==> s.lowMcap.value == Mcap(s.lowPrice.value, supply))
      && (supply >= 0.0 && s.peakPrice.Some? ==> s.lowMcap.value <= s.peakMcap.value)
  {
    Stats24Extremes(rows, now);
    var s := Stats24(rows, now, supply);
    if supply >= 0.0 && s.peakPrice.Some? {
      var lo, hi := s.lowPrice.value, s.peakPrice.value;
      assert lo <= hi by {
        var cutoff := now - SecondsPerDay;
        var i :| 0 <= i < |rows| && rows[i].tsUtc > cutoff && rows[i].h == hi;
      }
      MulMonotone(lo, hi, supply);
    }
  }

  lemma MulMonotone(lo: real, hi: real, k: real)
    requires lo <= hi && k >= 0.0
    ensures Mcap(lo, k) <= Mcap(hi, k)
  {
    assert (hi - lo) * k >= 0.0;
  }

  /** The all-time peak: the largest high of the whole table. */
  function PeakPrice(rows: seq<Candle>): real
    requires rows != []
  {
    Max(Values(rows, H)).value
  }

  /** The row of `df[df['h'] == peak].iloc[0]`: the first one that reaches the peak. */
  function PeakIndex(rows: seq<Candle>): nat
    requires rows != []
  {
    FirstIndexOf(Values(rows, H), PeakPrice(rows))
  }

  /** The peak is at least every high, and its time is that of the first row attaining it. */
  lemma PeakIsFirstHighest(rows: seq<Candle>)
    requires rows != []
    ensures PeakIndex(rows) < |rows|
    ensures forall i :: 0 <= i < |rows| ==> rows[i].h <= PeakPrice(rows)
    ensures rows[PeakIndex(rows)].h == PeakPrice(rows)
    ensures forall j :: 0 <= j < PeakIndex(rows) ==> rows[j].h < PeakPrice(rows)
  {
    var hs := Values(rows, H);
    forall j | 0 <= j < PeakIndex(rows)
      ensures rows[j].h < PeakPrice(rows)
    {
      assert hs[j] != PeakPrice(rows) && hs[j] <= PeakPrice(rows);
    }
  }

  /** The report `analyse_ca` packages. */
  datatype CaReport = CaReport(
    trends: map<string, Trend>, stats: Stats24h,
    currentPrice: real, mcap: real,
    peakPriceAll: real, peakMcapAll: real, peakPriceTime: real,
    liquidity: real)

  /** `df.iloc[-1]` raises IndexError on an empty table; `eth_usd` raises on a bad amount;
      multiplying a float by a `Decimal` raises TypeError. */
  datatype AnalysisError = EmptyTable | LiquidityUnavailable(cause: EthTools.UnitError) | TypeMismatch

  /** What `analyse_ca` returns once its arithmetic goes through: an empty table fails at
      `df.iloc[-1]`, a reserve `eth_usd` rejects fails at `eth_usd`, and otherwise the report
      holds the trend table, the 24h bundle, the last high with its market cap, the
      all-time peak with its market cap and the time of the first row reaching it, and
      the reserve's dollar value. */
  ghost predicate CaReportFor(r: Result<CaReport, AnalysisError>, rows: seq<Candle>, now: real,
                              totalSupply: real, reserveWei: int, ethPrice: real) {
    && (rows == [] ==> r == Err(EmptyTable))
    && (rows != [] && EthTools.EthUsd(reserveWei, "Wei", ethPrice).Err? ==>
          r == Err(LiquidityUnavailable(EthTools.EthUsd(reserveWei, "Wei", ethPrice).error)))
    && (rows != [] && EthTools.EthUsd(reserveWei, "Wei", ethPrice).Ok? ==> r.Ok?)
    && (r.Ok? ==> rows != [])
    && (r.Ok? ==> TrendsFor(r.value.trends, rows, now, TrendHours))
    && (r.Ok? ==> r.value.stats == Stats24(rows, now, totalSupply))
    && (r.Ok? ==> r.value.currentPrice == rows[|rows| - 1].h)
    && (r.Ok? ==> r.value.mcap == Mcap(rows[|rows| - 1].h, totalSupply))
    && (r.Ok? ==> r.value.peakPriceAll == PeakPrice(rows))
    && (r.Ok? ==> r.value.peakMcapAll == Mcap(PeakPrice(rows), totalSupply))
    && (r.Ok? ==> r.value.peakPriceTime == rows[PeakIndex(rows)].tsUtc)
    && (r.Ok? ==> r.value.liquidity == EthTools.EthUsd(reserveWei, "Wei", ethPrice).value)
  }

  /** The statistics of `analyse_ca`, after the candles are fetched (the chart is
      `Forecast.Predict` and `Chart.Render`), with the current market cap taken as
      `Decimal(current_price) * total_supply` like the other three market caps.
      `reserveWei` is the pool's WETH reserve, `ethPrice` the price of one ether. */
  method AnalyseCa(rows: seq<Candle>, now: real, totalSupply: real, reserveWei: int, ethPrice: real)
    returns (r: Result<CaReport, AnalysisError>)
    ensures CaReportFor(r, rows, now, totalSupply, reserveWei, ethPrice)
  {
    var trends := Trends(rows, now);
    var stats := Stats24(rows, now, totalSupply);
    if rows == [] {
      return Err(EmptyTable);
    }
    var currentPrice := rows[|rows| - 1].h;
    var peak := PeakPrice(rows);
    var peakTime := rows[PeakIndex(rows)].tsUtc;
    var liquidity := EthTools.EthUsd(reserveWei, "Wei", ethPrice);
    if liquidity.Err? {
      return Err(LiquidityUnavailable(liquidity.error));
    }
    r := Ok(CaReport(trends, stats, currentPrice, Mcap(currentPrice, totalSupply),
                     peak, Mcap(peak, totalSupply), peakTime, liquidity.value));
  }

  /** `analyse_ca` as written: the current market cap multiplies the float `current_price`
      by `total_supply` directly. `supplyIsDecimal` says the supply is a `Decimal`, which is
      what `Web3.from_wei` returns for a nonzero amount (an int 0 otherwise). A `Decimal` is
      accepted by the `Decimal(price) * total_supply` products but not by the float
      product, so with such a supply every nonempty table fails with TypeError after the
      IndexError check and before the reserves are read. A zero supply comes back as the
      int 0, never as a `Decimal`. */
  method AnalyseCaAsWritten(rows: seq<Candle>, now: real, totalSupply: real, supplyIsDecimal: bool,
                            reserveWei: int, ethPrice: real)
    returns (r: Result<CaReport, AnalysisError>)
    requires supplyIsDecimal ==> totalSupply != 0.0
    ensures rows == [] ==> r == Err(EmptyTable)
    ensures rows != [] && supplyIsDecimal ==> r == Err(TypeMismatch)
    ensures !supplyIsDecimal ==> CaReportFor(r, rows, now, totalSupply, reserveWei, ethPrice)
  {
    if rows != [] && supplyIsDecimal {
      return Err(TypeMismatch);
    }
    r := AnalyseCa(rows, now, totalSupply, reserveWei, ethPrice);
  }

  /** The figures of `analyse_pair`'s caption. */
  datatype PairReport = PairReport(
    volume: real, buyVolume: real, sellVolume: real,
    transactions: real, buyTransactions: real, sellTransactions: real,
    peakPrice: real, peakPriceTime: real)

  /** `analyse_pair`'s day: rows whose `ts` is within 86400 s of the last row's. */
  function PairWindow(rows: seq<Candle>): seq<Candle>
    requires rows != []
  {
    After(rows, TsOf, rows[|rows| - 1].ts - SecondsPerDay)
  }

  /** The statistics of `analyse_pair`; an empty table fails at `df.iloc[-1]`. */
  function AnalysePair(rows: seq<Candle>): (r: Result<PairReport, AnalysisError>)
    ensures r.Err? <==> rows == []
    ensures r.Err? ==> r.error == EmptyTable
  {
    if rows == [] then Err(EmptyTable)
    else
      var w := PairWindow(rows);
      Ok(PairReport(Sum(Values(w, V)), Sum(Values(w, BV)), Sum(Values(w, SV)),
                    Sum(Values(w, TC)), Sum(Values(w, B)), Sum(Values(w, S)),
                    PeakPrice(rows), rows[PeakIndex(rows)].tsUtc))
  }

  /** The pair's day always holds the last row, and so is never empty. */
  lemma PairWindowHoldsLastRow(rows: seq<Candle>)
    requires rows != []
    ensures PairWindow(rows) != []
    ensures PairWindow(rows)[|PairWindow(rows)| - 1] == rows[|rows| - 1]
  {
  }

  /** `analyse_pair`'s sums add up the rows of the day ending at the last row's `ts`;
      its peak is the all-time high, timed by the first row that reaches it. */
  lemma AnalysePairSpec(rows: seq<Candle>)
    requires rows != []
    ensures var r, cutoff := AnalysePair(rows).value, rows[|rows| - 1].ts - SecondsPerDay;
      && r.volume == SumWhere(rows, TsOf, cutoff, V)
      && r.buyVolume == SumWhere(rows, TsOf, cutoff, BV)
      && r.sellVolume == SumWhere(rows, TsOf, cutoff, SV)
      && r.transactions == SumWhere(rows, TsOf, cutoff, TC)
      && r.buyTransactions == SumWhere(rows, TsOf, cutoff, B)
      && r.sellTransactions == SumWhere(rows, TsOf, cutoff, S)
      && (forall i :: 0 <= i < |rows| ==> rows[i].h <= r.peakPrice)
      && (exists k :: 0 <= k < |rows| && rows[k].h == r.peakPrice && r.peakPriceTime == rows[k].tsUtc
            && forall j :: 0 <= j < k ==> rows[j].h < r.peakPrice)
  {
    var cutoff := rows[|rows| - 1].ts - SecondsPerDay;
    WindowSum(rows, TsOf, cutoff, V);
    WindowSum(rows, TsOf, cutoff, BV);
    WindowSum(rows, TsOf, cutoff, SV);
    WindowSum(rows, TsOf, cutoff, TC);
    WindowSum(rows, TsOf, cutoff, B);
    WindowSum(rows, TsOf, cutoff, S);
    PeakIsFirstHighest(rows);
    var k := PeakIndex(rows);
    assert rows[k].h == PeakPrice(rows);
  }

  /** The suffixes of `format_numeric_value`, as written. */
  const Suffixes: seq<string> := ["K", "M", "B"]

  /** The suffixes the caption evidently means: none below a thousand. */
  const IntendedSuffixes: seq<string> := ["", "K", "M", "B"]

  function Abs(x: real): real {
    if x < 0.0 then -x else x
  }

  function Pow1000(n: nat): (p: real)
    ensures p >= 1.0
  {
    if n == 0 then 1.0 else 1000.0 * Pow1000(n - 1)
  }

  /** What a reader takes a suffix to mean. */
  function SuffixValue(suffix: string): real {
    if suffix == "K" then 1000.0
    else if suffix == "M" then 1000000.0
    else if suffix == "B" then 1000000000.0
    else 1.0
  }

  /** The scaling loop of `format_numeric_value`: divide by 1000 while the magnitude
      is at least 1000 and a later suffix remains; the result is (value, index). */
  function Scale(value: real, idx: nat, top: nat): (real, nat)
    requires idx <= top
    decreases top - idx
  {
    if Abs(value) >= 1000.0 && idx < top then Scale(value / 1000.0, idx + 1, top) else (value, idx)
  }

  /** The loop stops below 1000 or at the last suffix, and loses nothing: the scaled
      number times 1000 per step taken is the input. */
  lemma {:induction false} ScaleSpec(value: real, idx: nat, top: nat)
    requires idx <= top
    ensures var (s, k) := Scale(value, idx, top);
      && idx <= k <= top
      && s * Pow1000(k - idx) == value
      && (Abs(s) < 1000.0 || k == top)
    decreases top - idx
  {
    if Abs(value) >= 1000.0 && idx < top {
      var v := value / 1000.0;
      ScaleSpec(v, idx + 1, top);
      var (s, k) := Scale(v, idx + 1, top);
      var p := Pow1000(k - idx - 1);
      assert Pow1000(k - idx) == 1000.0 * p;
      assert s * (1000.0 * p) == 1000.0 * (s * p);
    }
  }

  /** The loop takes one step per power of 1000 that the magnitude reaches. */
  lemma {:induction false} ScaleThresholds(value: real, idx: nat, top: nat)
    requires idx <= top
    ensures var (s, k) := Scale(value, idx, top);
      forall j: nat :: 1 <= j <= k - idx ==> Abs(value) >= Pow1000(j)
    decreases top - idx
  {
    if Abs(value) >= 1000.0 && idx < top {
      var v := value / 1000.0;
      ScaleThresholds(v, idx + 1, top);
      var (s, k) := Scale(v, idx + 1, top);
      forall j: nat | 1 <= j <= k - idx
        ensures Abs(value) >= Pow1000(j)
      {
        if j > 1 {
          assert Abs(v) >= Pow1000(j - 1);
          assert Abs(value) == 1000.0 * Abs(v);
        }
      }
    }
  }

  /** `format_numeric_value` as written: the scaled number and its suffix index. */
  method FormatNumericValue(value: real) returns (scaled: real, suffixIdx: nat, suffix: string)
    ensures (scaled, suffixIdx) == Scale(value, 0, |Suffixes| - 1)
    ensures suffixIdx < |Suffixes| && suffix == Suffixes[suffixIdx]
    ensures Abs(value) < 1000.0 ==> scaled == value && suffix == "K"
    ensures scaled * Pow1000(suffixIdx) == value
    ensures Abs(scaled) < 1000.0 || suffixIdx == |Suffixes| - 1
    ensures forall j: nat :: 1 <= j <= suffixIdx ==> Abs(value) >= Pow1000(j)
  {
    scaled, suffixIdx := value, 0;
    while Abs(scaled) >= 1000.0 && suffixIdx < |Suffixes| - 1
      invariant suffixIdx <= |Suffixes| - 1
      invariant Scale(scaled, suffixIdx, |Suffixes| - 1) == Scale(value, 0, |Suffixes| - 1)
      decreases |Suffixes| - 1 - suffixIdx
    {
      scaled := scaled / 1000.0;
      suffixIdx := suffixIdx + 1;
    }
    ScaleSpec(value, 0, |Suffixes| - 1);
    ScaleThresholds(value, 0, |Suffixes| - 1);
    suffix := Suffixes[suffixIdx];
  }

  /** The amount the caption shows: the scaled number times its suffix's meaning. */
  function Shown(scale: (real, nat), suffixes: seq<string>): real
    requires scale.1 < |suffixes|
  {
    scale.0 * SuffixValue(suffixes[scale.1])
  }

  /** As written, every caption amount reads a thousand times too large. */
  lemma AsWrittenShowsThousandfold(value: real)
    ensures Scale(value, 0, 2).1 < |Suffixes|
    ensures Shown(Scale(value, 0, 2), Suffixes) == 1000.0 * value
  {
    ScaleSpec(value, 0, 2);
    var (s, k) := Scale(value, 0, 2);
    assert SuffixValue(Suffixes[k]) == 1000.0 * Pow1000(k) by {
      if k == 0 { assert Suffixes[0] == "K"; }
      else if k == 1 { assert Suffixes[1] == "M"; }
      else { assert Suffixes[2] == "B"; }
    }
  }

  /** 1500 becomes "$1.5M". */
  lemma FifteenHundredReadsAsMillions()
    ensures Scale(1500.0, 0, 2) == (1.5, 1)
    ensures Suffixes[1] == "M"
    ensures Shown(Scale(1500.0, 0, 2), Suffixes) == 1500000.0
  {
  }

  /** The corrected formatter: no suffix below a thousand, so the caption shows the value itself. */
  function FormatNumericValueIntended(value: real): (r: (real, string))
    ensures r.0 * SuffixValue(r.1) == value
    ensures Abs(r.0) < 1000.0 || r.1 == "B"
    ensures Abs(value) < 1000.0 ==> r == (value, "")
  {
    ScaleSpec(value, 0, 3);
    var (s, k) := Scale(value, 0, 3);
    assert SuffixValue(IntendedSuffixes[k]) == Pow1000(k) by {
      if k == 0 { assert IntendedSuffixes[0] == ""; }
      else if k == 1 { assert IntendedSuffixes[1] == "K"; }
      else if k == 2 { assert IntendedSuffixes[2] == "M"; }
      else { assert IntendedSuffixes[3] == "B"; }
    }
    (s, IntendedSuffixes[k])
  }
}
