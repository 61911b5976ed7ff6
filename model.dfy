/** The forecast stitching of `predict` (src/model.py). Prophet is a parameter: a
    function from the renamed table, the number of periods and the frequency to
    the forecast rows, or `None` when fitting or predicting fails. Around it the
    model keeps what the code itself does: rename the two columns, keep the last
    `period` rows, and overwrite the first `yhat` with the last known value. */
module Forecast {
  import opened Results

  /** One row of Prophet's forecast table, reduced to the columns the bot reads. */
  datatype ForecastRow = ForecastRow(ds: real, yhat: real, yhatLower: real, yhatUpper: real)

  /** A column of the known table. */
  datatype NamedColumn = NamedColumn(name: string, values: seq<real>)

  type Table = seq<NamedColumn>

  /** The new name under `rename(columns={ts_column: 'ds', y_column: 'y'})`; when
      both arguments name the same column the dict keeps one key, mapped to 'y'. */
  function RenamedTo(name: string, tsColumn: string, yColumn: string): string {
    if name == yColumn then "y" else if name == tsColumn then "ds" else name
  }

  function Rename(df: Table, tsColumn: string, yColumn: string): (r: Table)
    ensures |r| == |df|
    ensures forall i :: 0 <= i < |df| ==>
      r[i] == NamedColumn(RenamedTo(df[i].name, tsColumn, yColumn), df[i].values)
  {
    seq(|df|, i requires 0 <= i < |df| => NamedColumn(RenamedTo(df[i].name, tsColumn, yColumn), df[i].values))
  }

  /** `df[name]`: the first column of that name, `None` (KeyError) when there is none. */
  function Lookup(df: Table, name: string): (r: Option<seq<real>>)
    ensures r.None? <==> forall i :: 0 <= i < |df| ==> df[i].name != name
    ensures r.Some? ==> exists i :: 0 <= i < |df| && df[i] == NamedColumn(name, r.value)
  {
    if df == [] then None
    else if df[0].name == name then Some(df[0].values)
    else
      var rest := Lookup(df[1..], name);
      assert rest.Some? ==> exists i :: 0 <= i < |df[1..]| && df[1..][i] == NamedColumn(name, rest.value);
      assert forall i :: 1 <= i < |df| ==> df[i] == df[1..][i - 1];
      rest
  }

  /** After the rename the values column appears under 'y', the time column under
      'ds' (when it is another column), and every other column is untouched. */
  lemma RenameTargets(df: Table, tsColumn: string, yColumn: string)
    ensures Lookup(df, yColumn).Some? ==>
      exists i :: 0 <= i < |df| && Rename(df, tsColumn, yColumn)[i] == NamedColumn("y", Lookup(df, yColumn).value)
    ensures tsColumn != yColumn && Lookup(df, tsColumn).Some? ==>
      exists i :: 0 <= i < |df| && Rename(df, tsColumn, yColumn)[i] == NamedColumn("ds", Lookup(df, tsColumn).value)
    ensures forall i :: 0 <= i < |df| && df[i].name != tsColumn && df[i].name != yColumn ==>
      Rename(df, tsColumn, yColumn)[i] == df[i]
  {
    var r := Rename(df, tsColumn, yColumn);
    if Lookup(df, yColumn).Some? {
      var i :| 0 <= i < |df| && df[i] == NamedColumn(yColumn, Lookup(df, yColumn).value);
      assert r[i] == NamedColumn("y", Lookup(df, yColumn).value);
    }
    if tsColumn != yColumn && Lookup(df, tsColumn).Some? {
      var i :| 0 <= i < |df| && df[i] == NamedColumn(tsColumn, Lookup(df, tsColumn).value);
      assert r[i] == NamedColumn("ds", Lookup(df, tsColumn).value);
    }
  }

  /** `tail(n)`: the last n rows, or all of them when there are fewer. */
  function Tail<T>(xs: seq<T>, n: nat): (r: seq<T>)
    ensures |r| == if n <= |xs| then n else |xs|
    ensures forall i :: 0 <= i < |r| ==> r[i] == xs[|xs| - |r| + i]
  {
    if n <= |xs| then xs[|xs| - n..] else xs
  }

  /** The continuity step: the first predicted `yhat` becomes the last known value;
      every other cell is the forecast's. */
  function Stitched(tail: seq<ForecastRow>, last: real): (r: seq<ForecastRow>)
    requires tail != []
    ensures |r| == |tail|
    ensures r[0].yhat == last
    ensures forall i :: 0 <= i < |r| ==>
      r[i].ds == tail[i].ds && r[i].yhatLower == tail[i].yhatLower && r[i].yhatUpper == tail[i].yhatUpper
    ensures forall i :: 1 <= i < |r| ==> r[i] == tail[i]
  {
    tail[0 := tail[0].(yhat := last)]
  }

  /** `predict` fails where Python would raise: in Prophet, at `df[y_column]`, at
      `.iloc[-1]` of an empty column, or at `.iloc[0]` of an empty tail. */
  datatype ForecastError = ModelFailed | MissingColumn | EmptyColumn | EmptyTail

  /** `predict(df, period, freq, ts_column, y_column)`. The right-hand side
      `df[y_column].iloc[-1]` is evaluated before the target `.iloc[0]`, so its
      errors come first. */
  method Predict(df: Table, period: nat, freq: string, tsColumn: string, yColumn: string,
                 prophet: (Table, nat, string) -> Option<seq<ForecastRow>>)
    returns (r: Result<seq<ForecastRow>, ForecastError>)
    ensures prophet(Rename(df, tsColumn, yColumn), period, freq).None? ==> r == Err(ModelFailed)
    ensures prophet(Rename(df, tsColumn, yColumn), period, freq).Some? && Lookup(df, yColumn).None? ==>
      r == Err(MissingColumn)
    ensures prophet(Rename(df, tsColumn, yColumn), period, freq).Some? && Lookup(df, yColumn) == Some([]) ==>
      r == Err(EmptyColumn)
    ensures r.Err? && r.error == EmptyTail ==>
      Lookup(df, yColumn).Some? && Lookup(df, yColumn).value != [] &&
      (period == 0 || prophet(Rename(df, tsColumn, yColumn), period, freq) == Some([]))
    ensures (&& prophet(Rename(df, tsColumn, yColumn), period, freq).Some?
             && Lookup(df, yColumn).Some? && Lookup(df, yColumn).value != []
             && (period == 0 || prophet(Rename(df, tsColumn, yColumn), period, freq).value == []))
      ==> r == Err(EmptyTail)
    ensures r.Ok? <==>
      && prophet(Rename(df, tsColumn, yColumn), period, freq).Some?
      && prophet(Rename(df, tsColumn, yColumn), period, freq).value != []
      && Lookup(df, yColumn).Some? && Lookup(df, yColumn).value != []
      && period >= 1
    ensures r.Ok? ==>
      var known := Lookup(df, yColumn).value;
      r.value == Stitched(Tail(prophet(Rename(df, tsColumn, yColumn), period, freq).value, period), known[|known| - 1])
  {
    var fitted := prophet(Rename(df, tsColumn, yColumn), period, freq);
    if fitted.None? {
      return Err(ModelFailed);
    }
    var forecast := fitted.value;
    var predicted := Tail(forecast, period);
    var known := Lookup(df, yColumn);
    if known.None? {
      return Err(MissingColumn);
    }
    if known.value == [] {
      return Err(EmptyColumn);
    }
    var last := known.value[|known.value| - 1];
    if predicted == [] {
      return Err(EmptyTail);
    }
    predicted := predicted[0 := predicted[0].(yhat := last)];
    r := Ok(predicted);
  }

  /** A forecast of at least `period` rows gives exactly `period` predicted rows:
      the forecast's last ones, so the predicted table ends where the forecast ends. */
  lemma TailOfLongForecast(forecast: seq<ForecastRow>, period: nat)
    requires period <= |forecast|
    ensures |Tail(forecast, period)| == period
    ensures Tail(forecast, period) == forecast[|forecast| - period..]
    ensures period > 0 ==> Tail(forecast, period)[period - 1] == forecast[|forecast| - 1]
  {
  }
}
