/** Candle ingestion and pair lookup (src/candles.py): the pair-universe filter,
    the request parameters of a candle fetch, and the accumulation of the
    streamed JSON rows into one column per key, plus the derived `ts_utc`. */
module Candles {
  import opened Results
  import Numerals

  const UniswapV2ExchangeId: int := 1
  const EthereumMainnetChainId: int := 1

  /** One row of the pair-universe snapshot. */
  datatype PairEntry = PairEntry(address: string, exchangeId: int, chainId: int, pairId: int)

  /** The mask of the lookup: exact (case-sensitive) address, Uniswap v2, Ethereum mainnet. */
  predicate IsUniswapEntry(e: PairEntry, address: string) {
    e.address == address && e.exchangeId == UniswapV2ExchangeId && e.chainId == EthereumMainnetChainId
  }

  /** The universe rows the mask selects, in universe order. */
  function Matching(universe: seq<PairEntry>, address: string): (m: seq<PairEntry>)
    ensures forall j :: 0 <= j < |m| ==> m[j] in universe && IsUniswapEntry(m[j], address)
  {
    if universe == [] then []
    else (if IsUniswapEntry(universe[0], address) then [universe[0]] else []) + Matching(universe[1..], address)
  }

  /** `values[0]` on an empty selection raises IndexError. */
  datatype LookupError = NoMatchingPair

  /** `get_uniswap_pair_id`: the pair id of the first selected row. */
  function UniswapPairId(universe: seq<PairEntry>, address: string): (r: Result<int, LookupError>)
    ensures r.Ok? ==> exists i :: 0 <= i < |universe| && IsUniswapEntry(universe[i], address) && universe[i].pairId == r.value
  {
    var m := Matching(universe, address);
    if m == [] then Err(NoMatchingPair) else Ok(m[0].pairId)
  }

  /** The lookup yields the pair id of the first matching row, however many match. */
  lemma {:induction false} PairIdIsFirstMatch(universe: seq<PairEntry>, address: string, k: nat)
    requires k < |universe| && IsUniswapEntry(universe[k], address)
    requires forall j :: 0 <= j < k ==> !IsUniswapEntry(universe[j], address)
    ensures UniswapPairId(universe, address) == Ok(universe[k].pairId)
  {
    if k > 0 {
      PairIdIsFirstMatch(universe[1..], address, k - 1);
    }
  }

  /** The lookup fails exactly when no row matches. */
  lemma {:induction false} PairIdFailsIffNoMatch(universe: seq<PairEntry>, address: string)
    ensures UniswapPairId(universe, address).Err? <==>
      forall j :: 0 <= j < |universe| ==> !IsUniswapEntry(universe[j], address)
  {
    if universe != [] {
      PairIdFailsIffNoMatch(universe[1..], address);
      if !IsUniswapEntry(universe[0], address) {
        forall j | 0 < j < |universe|
          ensures IsUniswapEntry(universe[j], address) == IsUniswapEntry(universe[1..][j - 1], address)
        {
        }
      }
    }
  }

  /** Addresses are compared case-sensitively: a lower-case entry does not match
      the same address written in upper case. */
  lemma LookupIsCaseSensitive()
    ensures UniswapPairId([PairEntry("0xab", 1, 1, 7)], "0xab") == Ok(7)
    ensures UniswapPairId([PairEntry("0xab", 1, 1, 7)], "0xAB") == Err(NoMatchingPair)
  {
    assert "0xab" != "0xAB" by { assert "0xab"[2] != "0xAB"[2]; }
  }

  /** A value in the query string of the candle request. */
  datatype ParamValue = Text(s: string) | Epoch(seconds: int)

  /** A Python `if start_time:` test on an optional epoch: `None` and `0` are falsy. */
  predicate Truthy(t: Option<int>) {
    t.Some? && t.value != 0
  }

  /** What the request parameters of a candle fetch must be. */
  predicate ParamsFor(params: map<string, ParamValue>, pairId: int, timeBucket: string,
                      startTime: Option<int>, endTime: Option<int>) {
    && params.Keys == {"pair_ids", "time_bucket"}
                      + (if Truthy(startTime) then {"start_time"} else {})
                      + (if Truthy(endTime) then {"end_time"} else {})
    && params["pair_ids"] == Text(Numerals.IntToString(pairId))
    && params["time_bucket"] == Text(timeBucket)
    && ("start_time" in params ==> params["start_time"] == Epoch(startTime.value))
    && ("end_time" in params ==> params["end_time"] == Epoch(endTime.value))
  }

  /** The `params` dictionary `get_candles` builds before the request. */
  method RequestParams(pairId: int, timeBucket: string, startTime: Option<int>, endTime: Option<int>)
    returns (params: map<string, ParamValue>)
    ensures ParamsFor(params, pairId, timeBucket, startTime, endTime)
  {
    params := map["pair_ids" := Text(Numerals.IntToString(pairId)), "time_bucket" := Text(timeBucket)];
    if Truthy(startTime) {
      params := params["start_time" := Epoch(startTime.value)];
    }
    if Truthy(endTime) {
      params := params["end_time" := Epoch(endTime.value)];
    }
  }

  /** The server can read the pair id back from the `pair_ids` parameter. */
  lemma ParamsCarryPairId(params: map<string, ParamValue>, pairId: int, timeBucket: string,
                          startTime: Option<int>, endTime: Option<int>)
    requires ParamsFor(params, pairId, timeBucket, startTime, endTime)
    ensures params["pair_ids"].Text? && Numerals.ParseInt(params["pair_ids"].s) == Some(pairId)
  {
    Numerals.ParseIntToString(pairId);
  }

  /** One decoded JSON line of the candle stream: field name to number. */
  type Row = map<string, real>

  /** The keys that occur in any of the rows. */
  function KeysOf(rows: seq<Row>): set<string> {
    if rows == [] then {} else KeysOf(rows[..|rows| - 1]) + rows[|rows| - 1].Keys
  }

  /** The values of `key`, row by row, skipping rows without it. */
  function Column(rows: seq<Row>, key: string): seq<real> {
    if rows == [] then []
    else Column(rows[..|rows| - 1], key) + (if key in rows[|rows| - 1] then [rows[|rows| - 1][key]] else [])
  }

  /** The `candle_data` defaultdict after the nested loops of `get_candles`. */
  method Accumulate(rows: seq<Row>) returns (columns: map<string, seq<real>>)
    ensures columns.Keys == KeysOf(rows)
    ensures forall k :: k in columns ==> columns[k] == Column(rows, k)
  {
    columns := map[];
    for i := 0 to |rows|
      invariant columns.Keys == KeysOf(rows[..i])
      invariant forall k :: k in columns ==> columns[k] == Column(rows[..i], k)
    {
      var item := rows[i];
      PrefixStep(rows, i);
      var pending := item.Keys;
      while pending != {}
        invariant pending <= item.Keys
        invariant columns.Keys == KeysOf(rows[..i]) + (item.Keys - pending)
        invariant forall k :: k in columns && k !in pending ==> columns[k] == Column(rows[..i + 1], k)
        invariant forall k :: k in columns && k in pending ==> columns[k] == Column(rows[..i], k)
        decreases pending
      {
        var key :| key in pending;
        var column := if key in columns then columns[key] else [];
        if key !in columns {
          ColumnOfAbsentKey(rows[..i], key);
        }
        columns := columns[key := column + [item[key]]];
        pending := pending - {key};
      }
    }
    assert rows[..|rows|] == rows;
  }

  /** One more row adds its keys, and appends its value to each column it carries. */
  lemma PrefixStep(rows: seq<Row>, i: nat)
    requires i < |rows|
    ensures KeysOf(rows[..i + 1]) == KeysOf(rows[..i]) + rows[i].Keys
    ensures forall k ::
      Column(rows[..i + 1], k) == Column(rows[..i], k) + (if k in rows[i] then [rows[i][k]] else [])
  {
    assert rows[..i + 1][..i] == rows[..i];
  }

  /** A key no row carries has an empty column. */
  lemma {:induction false} ColumnOfAbsentKey(rows: seq<Row>, key: string)
    requires key !in KeysOf(rows)
    ensures Column(rows, key) == []
  {
    if rows != [] {
      ColumnOfAbsentKey(rows[..|rows| - 1], key);
    }
  }

  /** When every row carries `key`, its column has one entry per row, the i-th from row i. */
  lemma {:induction false} ColumnOfCommonKey(rows: seq<Row>, key: string)
    requires forall i :: 0 <= i < |rows| ==> key in rows[i]
    ensures |Column(rows, key)| == |rows|
    ensures forall i :: 0 <= i < |rows| ==> Column(rows, key)[i] == rows[i][key]
  {
    if rows != [] {
      var p := rows[..|rows| - 1];
      ColumnOfCommonKey(p, key);
      forall i | 0 <= i < |p|
        ensures Column(rows, key)[i] == rows[i][key]
      {
        assert Column(rows, key)[i] == Column(p, key)[i];
      }
    }
  }

  /** A key occurs in some row exactly when it is in `KeysOf`. */
  lemma {:induction false} KeysOfOccurs(rows: seq<Row>, key: string)
    ensures key in KeysOf(rows) <==> exists i :: 0 <= i < |rows| && key in rows[i]
  {
    if rows != [] {
      var p := rows[..|rows| - 1];
      KeysOfOccurs(p, key);
      if key in KeysOf(p) {
        var i :| 0 <= i < |p| && key in p[i];
        assert key in rows[i];
      }
      if exists i :: 0 <= i < |rows| && key in rows[i] {
        var i :| 0 <= i < |rows| && key in rows[i];
        if i < |p| {
          assert key in p[i];
        }
      }
    }
  }

  /** Rows that all share one key set give columns of equal length, one entry per row. */
  lemma UniformRowsGiveFullColumns(rows: seq<Row>)
    requires forall i :: 0 <= i < |rows| ==> rows[i].Keys == rows[0].Keys
    ensures forall k :: k in KeysOf(rows) ==> |Column(rows, k)| == |rows|
  {
    forall k | k in KeysOf(rows)
      ensures |Column(rows, k)| == |rows|
    {
      KeysOfOccurs(rows, k);
      ColumnOfCommonKey(rows, k);
    }
  }

  /** Later rows only append: the columns of a prefix of the stream are prefixes of the columns. */
  lemma {:induction false} ColumnsOnlyGrow(rows: seq<Row>, n: nat, key: string)
    requires n <= |rows|
    ensures Column(rows[..n], key) <= Column(rows, key)
    decreases |rows|
  {
    if n < |rows| {
      var p := rows[..|rows| - 1];
      assert p[..n] == rows[..n];
      ColumnsOnlyGrow(p, n, key);
    } else {
      assert rows[..n] == rows;
    }
  }

  /** The dictionary the accumulation must produce. */
  function Columns(rows: seq<Row>): map<string, seq<real>> {
    map k | k in KeysOf(rows) :: Column(rows, k)
  }

  /** `DataFrame.from_dict` raises ValueError on columns of unequal length;
      `df['ts']` raises KeyError when no row had a timestamp. */
  datatype CandleError = RaggedColumns | MissingTimestamp

  /** All columns have the same length. */
  predicate Rectangular(columns: map<string, seq<real>>) {
    forall a, b :: a in columns && b in columns ==> |columns[a]| == |columns[b]|
  }

  /** `get_candles` after the transport: `rows` is the decoded JSON-lines stream.
      The frame is the accumulated columns plus `ts_utc`, the timestamps read as
      seconds since the epoch (a UTC instant is represented by those seconds). */
  method GetCandles(pairId: int, timeBucket: string, startTime: Option<int>, endTime: Option<int>, rows: seq<Row>)
    returns (params: map<string, ParamValue>, frame: Result<map<string, seq<real>>, CandleError>)
    ensures ParamsFor(params, pairId, timeBucket, startTime, endTime)
    ensures !Rectangular(Columns(rows)) ==> frame == Err(RaggedColumns)
    ensures Rectangular(Columns(rows)) && "ts" !in KeysOf(rows) ==> frame == Err(MissingTimestamp)
    ensures Rectangular(Columns(rows)) && "ts" in KeysOf(rows) ==> frame.Ok?
    ensures frame.Ok? ==> frame.value.Keys == KeysOf(rows) + {"ts_utc"}
    ensures frame.Ok? ==> forall k :: k in KeysOf(rows) && k != "ts_utc" ==> frame.value[k] == Column(rows, k)
    ensures frame.Ok? ==> frame.value["ts_utc"] == Column(rows, "ts")
    ensures frame.Ok? ==> |frame.value["ts_utc"]| == |frame.value["ts"]|
  {
    params := RequestParams(pairId, timeBucket, startTime, endTime);
    var columns := Accumulate(rows);
    assert columns == Columns(rows);
    if !Rectangular(columns) {
      return params, Err(RaggedColumns);
    }
    if "ts" !in columns {
      return params, Err(MissingTimestamp);
    }
    frame := Ok(columns["ts_utc" := columns["ts"]]);
  }

  /** One row of the candle table as the analytics read it. */
  datatype Candle = Candle(ts: real, tsUtc: real, p: real, o: real, h: real, l: real, c: real,
                           v: real, bv: real, sv: real, tc: real, b: real, s: real)

  /** The `ts` column as a key for `Frames.After`. */
  function TsOf(row: Candle): real {
    row.ts
  }

  /** The `ts_utc` column as a key for `Frames.After`. */
  function TsUtcOf(row: Candle): real {
    row.tsUtc
  }
}
