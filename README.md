# Price-analysis bot: a Dafny model of its analytics

The bot answers two Telegram commands about an ERC-20 token or a Uniswap v2 pair.
It fetches 15-minute candles, fits a forecast, draws a chart and prints figures.
This project models the deterministic core of that pipeline and proves what it promises.

- **Candle ingestion** (`Candles`, candles.dfy) covers three steps:
  - the pair-id lookup over the pair universe;
  - the query parameters of the candle request;
  - the accumulation of the JSON-lines stream into per-key columns, plus the `ts_utc` column.
- **Analytics** (`Analytics`, tg.dfy) covers:
  - the trend table over the 1h, 12h, 24h and 168h windows;
  - the 24h sums, highs, lows and market caps;
  - the current and all-time peak figures;
  - the liquidity in dollars;
  - the `/pair` statistics;
  - the K/M/B scaling of caption numbers.
- **Forecast stitching** (`Forecast`, model.dfy) covers:
  - the column rename handed to Prophet;
  - the tail of `period` rows;
  - the overwrite of the first `yhat` with the last known value.
- **Chart window** (`Chart`, render.dfy) covers:
  - the in-place conversion of a string `ts_utc` column in the caller's table;
  - the cutoff at last time − delta;
  - the row filter.
- **Ethereum helpers** (`EthTools`, common.dfy) cover:
  - the type-string dispatch of `cast`;
  - `is_good_tx`;
  - the wei/ether scaling of `eth_usd` and `get_gas_used`.
- Three support modules:
  - `Frames` (frames.dfy): the pandas operations the scripts use — the mask filter, `sum`, `max`, `min` and "first row equal to".
  - `Numerals` (numerals.dfy): `str(int)` and its inverse.
  - `Results` (results.dfy): `Option` and `Result`.

Prices, volumes and supplies are exact `real`s; the model does not use float semantics. Times are seconds since the epoch. A UTC datetime is represented by those seconds.

Prophet, the current time, the total supply, the pair reserves, the ether price and the web3 conversions are parameters of the model.

Where the code and its documentation disagree, the model follows the code:

- **Trends at zero.** A window whose first price is 0 still gets an entry. numpy float division gives +inf, −inf or NaN there; it does not raise. The `Trend` datatype models these as `PlusInf`, `MinusInf` and `NaN`. Only an empty window, where `iloc[0]` raises IndexError, is skipped.
- **Pair lookup.** The address is compared case-sensitively. The first matching row in universe order wins.
- **Rename collision.** When the time and value columns have the same name, the rename maps that name to `y`: a dict literal keeps its later key.
- **Strict trend cutoff.** A window holds the rows strictly after now − h hours (src/tg.py:87), not those at or after it. For rows (t=0, p=100) and (t=3600, p=110) with now = 3600, the 1h window holds only the second row, so the 1h trend is 0%, not 10% (`Analytics.StrictCutoffDropsWindowStart`).
- **One-row windows.** A window holding a single row gets a trend of 0%, its first and last rows being the same one (src/tg.py:89-91). It is not left undefined.
- **No partial `/ca` report.** When `eth_usd` rejects the reserve, `analyse_ca` raises and produces no report (src/tg.py:121-122), so `AnalyseCa` fails with `LiquidityUnavailable`. The code has no fallback that reports the other figures without a liquidity value.
- **Error order in `predict`.** Python evaluates the right-hand side `df[y_column].iloc[-1]` before the target `.iloc[0]`. So a missing or empty value column is reported before an empty tail.

## Model

| member | source | states |
|---|---|---|
| Candles.IsUniswapEntry | src/candles.py:62-64 | definition of the lookup mask; stated by Matching, PairIdIsFirstMatch and LookupIsCaseSensitive |
| Candles.Matching | src/candles.py:61-67 | every selected universe row is a row of the universe with the exact address, exchange id 1 (Uniswap v2) and chain id 1 (Ethereum mainnet) |
| Candles.UniswapPairId | src/candles.py:55-70 | a returned pair id belongs to a universe row that passes the mask |
| Candles.PairIdIsFirstMatch | src/candles.py:61-70 | the lookup returns the pair id of the first matching row in universe order, however many rows match |
| Candles.PairIdFailsIffNoMatch | src/candles.py:67-70 | the lookup fails (IndexError on `values[0]`) exactly when no universe row matches |
| Candles.LookupIsCaseSensitive | src/candles.py:62 | the address comparison is exact: a row stored as "0xab" is found for "0xab", not for "0xAB" |
| Candles.RequestParams | src/candles.py:87-95 | the parameters always hold `pair_ids` = str(pair id) and `time_bucket`; `start_time`/`end_time` appear, with their values, exactly when truthy (None and 0 are left out) |
| Candles.Truthy | src/candles.py:92-95 | definition of Python truthiness of an optional epoch (None and 0 are false); stated through RequestParams |
| Candles.ParamsCarryPairId | src/candles.py:88 | the `pair_ids` text parses back to the pair id |
| Numerals.IntToString | src/candles.py:88 | definition of `str(int)`; stated by ParseIntToString and IntToStringInjective |
| Numerals.NatToString | src/candles.py:88 | `str` of a natural is a nonempty digit string without leading zeros |
| Numerals.DigitsValueOfNatToString | src/candles.py:88 | the digits of `str(n)` denote n |
| Numerals.ParseIntToString | src/candles.py:88 | `int(str(i)) == i` for every integer |
| Numerals.IntToStringInjective | src/tg.py:93 | distinct integers have distinct decimal strings |
| Candles.Accumulate | src/candles.py:105-109 | the loops produce one list per key occurring in the stream, holding that key's values in row order |
| Candles.PrefixStep | src/candles.py:107-109 | one more row adds its keys and appends its value to exactly the columns it carries |
| Candles.ColumnOfAbsentKey | src/candles.py:105 | a key no row carries has an empty list |
| Candles.ColumnOfCommonKey | src/candles.py:107-109 | a key every row carries has one entry per row, the i-th from row i |
| Candles.KeysOfOccurs | src/candles.py:108-109 | a key gets a column exactly when some row carries it |
| Candles.UniformRowsGiveFullColumns | src/candles.py:105-111 | when all rows share one key set, every column's length equals the row count |
| Candles.ColumnsOnlyGrow | src/candles.py:107-109 | the columns after a prefix of the stream are prefixes of the final columns: later rows never change earlier values |
| Candles.Rectangular | src/candles.py:111 | definition: all columns have one length, which `from_dict` requires; stated through GetCandles and UniformRowsGiveFullColumns |
| Candles.GetCandles | src/candles.py:87-114 | the request parameters as above; ragged columns fail as `from_dict` does; no `ts` fails as `df['ts']` does; otherwise the frame holds every accumulated column plus `ts_utc`, which equals the `ts` column one-for-one |
| Frames.After | src/tg.py:87 | the mask filter; its own contract is only the length bound. What it keeps is stated by AfterMembers, AfterSelectsKept and KeptIndicesAscend |
| Frames.AfterMembers | src/tg.py:87 | every kept row is a table row past the cutoff, and every table row past the cutoff is kept |
| Frames.KeptIndices | src/render.py:35 | the mask's selected positions are positions of the table |
| Frames.AfterSelectsKept | src/render.py:35 | the filtered table is exactly the rows at the selected positions, in order |
| Frames.KeptIndicesAscend | src/render.py:35 | the selected positions strictly ascend: the filter keeps a subsequence in table order |
| Frames.KeptIndicesExact | src/render.py:35 | a position is selected exactly when its key exceeds the cutoff |
| Frames.AfterNoneAbove | src/tg.py:87-89 | with every key at or before the cutoff nothing is kept |
| Frames.SortedPrefix | src/render.py:35 | a prefix of a time-ordered table is time-ordered |
| Frames.AfterOfSortedIsSuffix | src/render.py:33-35 | on a time-ordered table the filter keeps a contiguous suffix |
| Frames.SuffixGrows | src/render.py:35 | a kept last row extends the kept suffix of the rows before it |
| Frames.SortedBelowLast | src/render.py:35 | if the last row of a time-ordered table is dropped, nothing is kept |
| Frames.Sum | src/tg.py:101-106 | definition of `series.sum()` (0 for an empty column); stated by WindowSum, EmptyWindowSumsToZero, Stats24Sums and AnalysePairSpec |
| Frames.Max | src/tg.py:108 | `max` of a column is absent (NaN) exactly for an empty column; otherwise it is one of its values and at least all of them |
| Frames.Min | src/tg.py:111 | `min` of a column is absent (NaN) exactly for an empty column; otherwise it is one of its values and at most all of them |
| Frames.FirstIndexOf | src/tg.py:119 | the position found holds the value and no earlier position does |
| Analytics.Change | src/tg.py:91 | definition of the numpy percentage change (inf/−inf/NaN for a zero initial price); its meaning is stated by ChangeIsRelative |
| Analytics.TrendCutoff | src/tg.py:86 | definition: now minus h hours; stated through EmptyWindowHasNoTrend and StrictCutoffDropsWindowStart |
| Analytics.Window | src/tg.py:87 | definition: the rows with `ts_utc` strictly after the cutoff; its meaning is AfterMembers and AfterSelectsKept on the `ts_utc` key |
| Analytics.WindowTrend | src/tg.py:86-91 | definition of one window's trend; stated by EmptyWindowHasNoTrend, SingleRowWindowIsFlat, TrendSpansToLastRow and StrictCutoffDropsWindowStart |
| Analytics.StrictCutoffDropsWindowStart | src/tg.py:86-91 | rows (t=0, p=100) and (t=3600, p=110) at now = 3600 give a 1h trend of 0%: the row exactly an hour old is outside the window |
| Analytics.ChangeIsRelative | src/tg.py:89-91 | a finite change of r percent holds exactly when the initial price is nonzero and the final price is the initial one grown by r percent |
| Analytics.TrendKey | src/tg.py:93 | definition of `f'{time}h_trend'`; stated by TrendKeyIsInjective |
| Analytics.TrendKeyIsInjective | src/tg.py:93 | the key function is injective, so no window overwrites another's entry |
| Analytics.TrendTableHolds | src/tg.py:83-95 | after the loop over windows, the dictionary has a key exactly for each window with a trend, and that key holds the window's trend |
| Analytics.TrendTableStep | src/tg.py:93-95 | one more window adds its entry when it has one and leaves the dictionary alone when its body raised |
| Analytics.Trends | src/tg.py:77-95 | the trend dictionary holds, for each h in [1, 12, 24, 168], its key exactly when the rows after now − h hours are not empty, mapped to (last p − first p) / first p × 100 over those rows |
| Analytics.SingleRowWindowIsFlat | src/tg.py:89-91 | a window of one row with nonzero price has a trend of 0% |
| Analytics.EmptyWindowHasNoTrend | src/tg.py:84-95 | a window has no trend exactly when no row is after its cutoff |
| Analytics.TrendSpansToLastRow | src/tg.py:87-91 | on a time-ordered table a window's trend compares the first row after the cutoff with the table's last row, and every earlier row is at or before the cutoff |
| Analytics.KeptBeforeSuffix | src/tg.py:87 | on a time-ordered table the rows before the window are at or before the cutoff |
| Analytics.KeptCount | src/tg.py:87 | a run of rows after the cutoff that ends the table stays whole in the window |
| Analytics.Values | src/tg.py:101 | `df[col]` has one entry per row, the i-th from row i |
| Analytics.WindowSum | src/tg.py:99-106 | summing a column of the filtered table adds up exactly the rows after the cutoff |
| Analytics.EmptyWindowSumsToZero | src/tg.py:99-106 | a window with no rows sums to zero |
| Analytics.WindowHighs | src/tg.py:108-111 | the high column of the filtered table holds exactly the highs of the rows after the cutoff |
| Analytics.Peak24 | src/tg.py:108 | definition of the 24h `h.max()`; stated by Stats24Extremes |
| Analytics.Low24 | src/tg.py:111 | definition of the 24h `h.min()`; stated by Stats24Extremes |
| Analytics.Mcap | src/tg.py:109-118 | definition: price times supply; stated by Stats24Mcaps and MulMonotone |
| Analytics.MarketCap | src/tg.py:109-112 | definition: a NaN price stays NaN, any other is multiplied by the supply; stated by Stats24Mcaps |
| Analytics.Stats24 | src/tg.py:99-112 | definition of the 24h bundle; stated by Stats24Sums, Stats24Extremes and Stats24Mcaps |
| Analytics.Stats24Sums | src/tg.py:99-106 | the six 24h sums (`v`, `bv`, `sv`, `tc`, `b`, `s`) add up the rows whose `ts_utc` is after now − 24 h |
| Analytics.WindowExtremes | src/tg.py:108-111 | the largest and smallest high past a cutoff exist exactly when a row is past it; they bracket every such high and are attained |
| Analytics.Stats24Extremes | src/tg.py:108-111 | the 24h peak and low both come from the `h` column of the last 24 hours: present exactly when that window has rows, low ≤ peak, each attained by a row of the window |
| Analytics.Stats24Mcaps | src/tg.py:108-112 | each 24h mcap is its price times the supply (NaN stays NaN), present together with its price, and for a nonnegative supply the low mcap is at most the peak mcap |
| Analytics.MulMonotone | src/tg.py:109-112 | a market cap grows with the price for a nonnegative supply |
| Analytics.PeakPrice | src/tg.py:117 | definition: the largest high; stated by PeakIsFirstHighest |
| Analytics.PeakIndex | src/tg.py:119 | definition: the first row whose high equals the peak; stated by PeakIsFirstHighest |
| Analytics.PeakIsFirstHighest | src/tg.py:117-119 | the all-time peak is at least every row's high and attained; its time is that of the first row reaching it |
| Analytics.AnalyseCa | src/tg.py:61-147 | corrected form (current market cap computed like the other three): an empty table fails (IndexError); a reserve `eth_usd` rejects fails; otherwise the report holds the trend table, the 24h stats, the last high as current price and its mcap, the all-time peak, its mcap and first time, and the reserve's dollar value (all in `CaReportFor`) |
| Analytics.AnalyseCaAsWritten | src/tg.py:109-122 | as written: an empty table fails (IndexError at line 114); with a `Decimal` supply every nonempty table fails with TypeError at the float product of line 115; with an int supply the result is that of AnalyseCa |
| Analytics.AnalysePair | src/tg.py:185-214 | `analyse_pair` fails exactly on an empty table |
| Analytics.PairWindow | src/tg.py:203 | definition of the pair's day; stated by PairWindowHoldsLastRow and AnalysePairSpec |
| Analytics.PairWindowHoldsLastRow | src/tg.py:203 | the pair's day (rows with `ts` > last `ts` − 86400) always holds the last row, as its last row |
| Analytics.AnalysePairSpec | src/tg.py:203-214 | the pair's sums add up the rows of the day ending at the last row; its peak is at least every high and its time is that of the first row reaching it |
| Analytics.Pow1000 | src/tg.py:155-156 | the powers of 1000 the loop divides by; its own contract is only the bound ≥ 1. Its role is stated by ScaleSpec and ScaleThresholds |
| Analytics.Scale | src/tg.py:155-157 | definition of the scaling loop; stated by ScaleSpec and ScaleThresholds, and FormatNumericValue is proved equal to it |
| Analytics.ScaleSpec | src/tg.py:153-157 | the scaling loop ends with index at most the last suffix; the scaled value times 1000^steps is the input; it stops once the magnitude is below 1000 or at the last suffix |
| Analytics.ScaleThresholds | src/tg.py:155 | the loop takes one step per power of 1000 that the input's magnitude reaches |
| Analytics.FormatNumericValue | src/tg.py:149-158 | the suffix index ends ≤ 2; scaled × 1000^index = input; the loop stops below 1000 or at 'B'; an input below 1000 in magnitude is unchanged and gets 'K' |
| Analytics.AsWrittenShowsThousandfold | src/tg.py:153-158 | as written, the caption reads a thousand times the value |
| Analytics.FifteenHundredReadsAsMillions | src/tg.py:153-158 | as written, 1500 is printed as 1.5 with suffix 'M' |
| Analytics.FormatNumericValueIntended | src/tg.py:153-158 | with the suffixes '', 'K', 'M', 'B' the caption reads the value itself; the loop stops below 1000 or at 'B'; an input below 1000 is shown unchanged without a suffix |
| Forecast.RenamedTo | src/model.py:21 | definition of one column's new name (the value column wins a collision); stated by Rename and RenameTargets |
| Forecast.Rename | src/model.py:21 | the rename keeps every column's values and position and changes only the names |
| Forecast.Lookup | src/model.py:35 | `df[name]` raises exactly when no column has that name; otherwise it is the values of such a column |
| Forecast.RenameTargets | src/model.py:21 | after the rename the value column is found under 'y' and a distinct time column under 'ds'; other columns keep their names; the caller's table is a separate value and is not altered |
| Forecast.Tail | src/model.py:29 | `tail(n)` has min(n, length) rows: the last ones, in order |
| Forecast.Stitched | src/model.py:33-35 | the first row's `yhat` becomes the last known value; `ds`, `yhat_lower` and `yhat_upper` of every row and all other rows are kept |
| Forecast.Predict | src/model.py:21-35 | the result is the stitched tail of Prophet's forecast exactly when Prophet succeeds with rows, the value column exists and is nonempty, and period ≥ 1; otherwise the matching error, in Python's evaluation order |
| Forecast.TailOfLongForecast | src/model.py:26-29 | a forecast of at least `period` rows gives exactly its last `period` rows, ending with the forecast's last row |
| Chart.KnownFrame.constructor | src/render.py:26 | the frame holds the given `ts_utc` and close columns, of equal length |
| Chart.Parsed | src/render.py:31 | `to_datetime` over a column fails exactly when some string does not parse; otherwise it keeps every timestamp and parses every string, position by position |
| Chart.Stamps | src/render.py:31 | the converted column written back holds one timestamp per parsed value |
| Chart.Points | src/render.py:33-35 | the plotted rows pair each row's time with its close |
| Chart.Render | src/render.py:26-35 | a string last `ts_utc` converts the whole column in the caller's table; the close column is never touched; an empty table, an unparseable column or a mixed column fails; otherwise the chart rows are those after last time − delta |
| Chart.Cutoff | src/render.py:33 | definition: the last row's time minus delta; stated by CutSelectsRows and CutKeepsLastRow |
| Chart.Cut | src/render.py:35 | definition of the row filter; stated by CutSelectsRows, CutKeepsLastRow and CutOfSortedIsSuffix |
| Chart.CutSelectsRows | src/render.py:33-35 | the chart keeps exactly the rows after the cutoff, each once, in table order |
| Chart.CutKeepsLastRow | src/render.py:33-35 | for delta > 0 the last row is always on the chart, as its last point |
| Chart.CutOfSortedIsSuffix | src/render.py:33-35 | when timestamps ascend, the chart rows are a contiguous suffix |
| Chart.ParsingParsedIsIdentity | src/render.py:30-31 | converting a column of timestamps leaves it unchanged |
| EthTools.Contains | src/bc_tools/common.py:78-92 | definition of the `in` substring test; stated by ContainsIffOccurs |
| EthTools.ContainsIffOccurs | src/bc_tools/common.py:78 | Python's `in` on strings holds exactly when the needle occurs at some offset |
| EthTools.BigEndian | src/bc_tools/common.py:79 | a big-endian number of n bytes is below 256^n |
| EthTools.Cast | src/bc_tools/common.py:71-100 | a conversion that raises returns the original value |
| EthTools.CastBoolText | src/bc_tools/common.py:88-89 | the non-hex bool cast is true exactly for 'True', 'true', '1', 't', 'T' |
| EthTools.KindOf | src/bc_tools/common.py:73-96 | definition of the branch choice; stated by CastDispatch and IntegerTypeNamesDispatchToInt |
| EthTools.Convert | src/bc_tools/common.py:73-96 | definition of each branch's conversion as written, the hex address branch always raising; stated by CastBoolText, CastHexInt, CastDispatch and HexAddressCastReturnsInput |
| EthTools.HexAddressCastReturnsInput | src/bc_tools/common.py:74-75 | as written, the hex address cast raises for every value (`to_checksum_address` has no `hexstr` keyword), so `cast` returns its input |
| EthTools.ConvertIntended | src/bc_tools/common.py:74-75 | definition of the corrected conversion: a hex address is passed positionally to `to_checksum_address`; stated by CastIntendedChecksumsHexAddresses |
| EthTools.CastIntended | src/bc_tools/common.py:71-100 | corrected `cast`: a conversion that raises returns the original value |
| EthTools.CastIntendedChecksumsHexAddresses | src/bc_tools/common.py:74-87 | corrected, a hex address is checksummed exactly as a text address is, and every other branch is as written |
| EthTools.CastDispatch | src/bc_tools/common.py:73-96 | the type is checked in order: exact 'address', exact 'bool', substring 'int', substring 'bytes'; any other type returns the value unchanged |
| EthTools.IntegerTypeNamesDispatchToInt | src/bc_tools/common.py:78 | 'uint256' and 'int8' take the integer branch |
| EthTools.CastHexInt | src/bc_tools/common.py:78-79 | the hex integer cast reads bytes big-endian; a value that is not bytes raises, and the original value comes back |
| EthTools.BigEndianAppend | src/bc_tools/common.py:79 | appending byte b to bytes worth n gives 256·n + b |
| EthTools.BigEndianConcat | src/bc_tools/common.py:79 | reading a concatenation shifts the high part past the low part |
| EthTools.LeadingZerosIgnored | src/bc_tools/common.py:79 | a leading zero byte does not change the number |
| EthTools.IsGoodTx | src/bc_tools/common.py:55-56 | definition of `is_good_tx`: a receipt is good exactly when its status is 1, which is the whole of the source function |
| EthTools.Lower | src/bc_tools/common.py:113-114 | ASCII `str.lower` of a unit name; its own contract is only the length. LowerOfUnitNames states what it gives for 'Wei' and 'Ether' |
| EthTools.LowerOfUnitNames | src/bc_tools/common.py:113-114 | the unit names 'Wei' and 'Ether' are found as 'wei' and 'ether' |
| EthTools.UnitValue | src/bc_tools/common.py:113-114 | definition of the denomination table (1 ether = 10^18 wei); stated through EthUsdOfWei and GasUsedInEther |
| EthTools.ToWei | src/bc_tools/common.py:113 | definition of `to_wei` for integer amounts; stated through EthUsdOfWei and EthUsdOutOfRange |
| EthTools.FromWei | src/bc_tools/common.py:114 | definition of `from_wei` for integer amounts; stated through EthUsdOfWei and GasUsedInEther |
| EthTools.EthUsd | src/bc_tools/common.py:110-117 | definition of `eth_usd`; stated by EthUsdOfWei, EthUsdOutOfRange, EthUsdOfZero and EthUsdLinear |
| EthTools.EthUsdOfWei | src/bc_tools/common.py:110-117 | `eth_usd(amount, 'Wei')` of an amount in 0 .. 2^256 − 1 is amount / 10^18 × the ether price |
| EthTools.EthUsdOutOfRange | src/bc_tools/common.py:113 | a negative amount, or one above 2^256 − 1, makes `eth_usd` raise |
| EthTools.EthUsdOfZero | src/bc_tools/common.py:110-117 | `eth_usd(0, 'Wei')` is 0 whatever the price |
| EthTools.EthUsdLinear | src/bc_tools/common.py:110-117 | `eth_usd` of wei is additive in the amount |
| EthTools.GasUsed | src/bc_tools/common.py:58-60 | definition of `get_gas_used`; stated by GasUsedInEther |
| EthTools.GasUsedInEther | src/bc_tools/common.py:58-60 | `get_gas_used(r, 'Ether')` is the gas used divided by 10^18 |

## Left out

- Prophet fitting and prediction (src/model.py:23-28): a foreign statistical library. It is a parameter `prophet` from the renamed table, the period and the frequency to a forecast, or to a failure.
- The pandas chained assignment at src/model.py:35 writes through a `tail` slice. Under copy-on-write pandas could silently drop the overwrite. The model performs the intended overwrite.
- `make_future_dataframe`'s frequency string is passed to the `prophet` parameter but not interpreted.
- Plotting, JPEG encoding and the predicted-data plot (src/render.py:37-59): matplotlib state and raster output. `Render` returns the known points it would plot.
- `pd.to_timedelta("72 hours")` (src/render.py:33): the cutoff delta is a number of seconds. String parsing by `pd.to_datetime` is a parameter `parse` applied to each string on its own. It stands for the format pandas infers. pandas 2 takes that format from the first string and rejects strings in other formats. The model does not capture this dependence of one string's parse on another.
- HTTP and streaming transport: the session, parquet, jsonlines, the pair-universe download and the CSV dump (src/candles.py:21-53, 97-103, 116-117). The decoded stream is an input sequence of rows. Etherscan, chainid and CoinGecko requests (`get_abi`, `get_chain_info`, `_eth_usd`) are left out too; the ether price is a parameter.
- Web3 connection and contract reads (connect_web3, `erc20.ERC20`, `get_total_supply`, `get_reserves`): total supply and reserve wei are parameters. The web3 conversions that `cast` calls are a parameter record whose entries may fail. `to_checksum_address` takes one positional value: this is its signature in web3 v6, which is not part of this model, and the hex address branch depends on it (see Findings).
- The eth-utils unit table and the 0 .. 2^256 − 1 range check of `to_wei`/`from_wei` are library code that is not part of this model. `UnitValue`, `ToWei` and `FromWei` restate those rules for integer amounts.
- The bot handlers, asyncio, caption text and logger setup (src/tg.py:32-59, 160-183, 216-275; src/bc_tools/common.py:12-35, 141-156): I/O and concurrency. The textual and float formatting of captions (`repr`, `:.2e`, `/1000`) is float-specific. Only the suffix choice and scaled value of `format_numeric_value` are modelled.
- `tx_url` (src/bc_tools/common.py:62-69): `blockexp` is undefined, so it always returns the failure text. It has no logic worth modelling.
- `__main__` blocks and commented-out code in model.py, render.py and common.py: demo or dead code.
- The fetch, prediction and chart steps inside `analyse_ca` and `analyse_pair` (src/tg.py:65-74, 187-201) are not sequenced in `AnalyseCa`/`AnalysePair`. They are modelled as `UniswapPairId`/`GetCandles`, `Predict` and `Render` on their own. Their failures, and the `str(...).lower()` of the pair address, are not propagated into the reports.
- `datetime.now()` is naive local time, compared with `ts_utc`: `now` is a parameter in the same seconds as `ts_utc`. Any timezone offset is the caller's.
- Float and `Decimal` products (src/tg.py:109-118) are exact in the model. The type of the supply is the one thing modelled about them: `AnalyseCaAsWritten` takes it as `supplyIsDecimal` (see Findings). A float supply, which `Decimal(price) * total_supply` would reject at line 109, is not modelled, because `Web3.from_wei` returns an int or a `Decimal`. `get_total_supply` itself is not part of this model. `peak_mcap_all` reads the supply a second time; the model uses the same supply.
- Duplicate column names in the forecast input are resolved by `Lookup` to the first such column. pandas would return a frame.
- `ts_utc` in `get_candles` is a nanosecond datetime in pandas. The model keeps the seconds.
- `Lower` folds ASCII letters only. The unit names are ASCII.
- Analytics.Stats24Extremes: stated about `Peak24`/`Low24`, the functions `Stats24` uses for its peak and low, not about the `Stats24h` record itself.
- Analytics.AnalysePair: its contract states only when it fails. Its figures are stated by AnalysePairSpec and PairWindowHoldsLastRow.

## Findings

| source | as written | input that shows it | evidently intended | confidence | as-written member | corrected member |
|---|---|---|---|---|---|---|
| src/tg.py:153-158 | the suffix list is ['K', 'M', 'B'] and index 0 already prints 'K', so every amount reads a thousand times too large | 1500 is printed as "$1.5M"; 5 is printed as "$5K" | ['', 'K', 'M', 'B']: no suffix below a thousand, so 1500 prints as "$1.5K" | not executed | Analytics.FormatNumericValue, Analytics.AsWrittenShowsThousandfold, Analytics.FifteenHundredReadsAsMillions | Analytics.FormatNumericValueIntended |
| src/tg.py:115 | `mcap = current_price * total_supply` multiplies the float high by the supply. `total_supply` comes from `get_total_supply('Ether')`, and lines 109, 112 and 118 multiply it by `Decimal(...)`, so it is an int or a `Decimal`. For a nonzero amount `Web3.from_wei` returns a `Decimal`, and float × `Decimal` raises TypeError | any nonempty candle table with a nonzero supply returned as a `Decimal`: `/ca` raises at line 115 and produces no report (a zero supply comes back as the int 0, so AnalyseCaAsWritten requires a `Decimal` supply to be nonzero) | `Decimal(current_price) * total_supply`, like the three market caps around it | plausible; not executed; `get_total_supply` is not part of this model, so the `Decimal` supply is inferred from its unit argument | Analytics.AnalyseCaAsWritten | Analytics.AnalyseCa |
| src/bc_tools/common.py:74-75 | the hex address branch calls `Web3.to_checksum_address(hexstr=_value)`, but that method takes its value positionally and has no `hexstr` keyword. The TypeError is swallowed by the `except` at lines 98-100 | `cast("0x" + 40 hex digits, "address", True)` returns its input unchanged, without the checksum | `Web3.to_checksum_address(_value)`, the call the text branch makes | plausible; not executed; the web3 signature is not part of this model | EthTools.HexAddressCastReturnsInput, EthTools.Convert | EthTools.CastIntended, EthTools.CastIntendedChecksumsHexAddresses |
