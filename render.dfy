/** The chart window of `render` (src/render.py): the known rows whose `ts_utc` is
    strictly after the last row's `ts_utc` minus a delta, in seconds. When the
    last timestamp is still a string, the whole column is converted first, and
    since `df` is the caller's table itself the conversion stays in it. The
    plotting and the JPEG buffer are not modelled. */
module Chart {
  import opened Results
  import opened Frames

  /** A `ts_utc` cell: a parsed timestamp (seconds since the epoch) or the raw text read from a file. */
  datatype Stamp = At(seconds: real) | Text(text: string)

  /** The two columns of the caller's table that `render` touches. */
  class KnownFrame {
    var tsUtc: seq<Stamp>
    var close: seq<real>

    ghost predicate Valid()
      reads this
    {
      |tsUtc| == |close|
    }

    constructor (tsUtc: seq<Stamp>, close: seq<real>)
      requires |tsUtc| == |close|
      ensures Valid()
      ensures this.tsUtc == tsUtc && this.close == close
    {
      this.tsUtc := tsUtc;
      this.close := close;
    }
  }

  /** A plotted point: time and close price. */
  datatype Point = Point(ts: real, close: real)

  function PointTs(p: Point): real {
    p.ts
  }

  /** `pd.to_datetime` over a column: every string parsed by `parse`, every timestamp
      kept; `None` (ValueError) when some string does not parse. */
  function Parsed(stamps: seq<Stamp>, parse: string -> Option<real>): (r: Option<seq<real>>)
    ensures r.None? <==> exists i :: 0 <= i < |stamps| && stamps[i].Text? && parse(stamps[i].text).None?
    ensures r.Some? ==> |r.value| == |stamps|
    ensures r.Some? ==> forall i :: 0 <= i < |stamps| ==>
      if stamps[i].At? then r.value[i] == stamps[i].seconds else parse(stamps[i].text) == Some(r.value[i])
  {
    if stamps == [] then Some([])
    else
      var n := |stamps|;
      var rest := Parsed(stamps[..n - 1], parse);
      var last := stamps[n - 1];
      var t := if last.At? then Some(last.seconds) else parse(last.text);
      assert forall i :: 0 <= i < n - 1 ==> stamps[..n - 1][i] == stamps[i];
      if rest.None? || t.None? then None else Some(rest.value + [t.value])
  }

  predicate AllParsed(stamps: seq<Stamp>) {
    forall i :: 0 <= i < |stamps| ==> stamps[i].At?
  }

  /** The converted column written back into the table. */
  function Stamps(times: seq<real>): (r: seq<Stamp>)
    ensures |r| == |times| && AllParsed(r)
    ensures forall i :: 0 <= i < |times| ==> r[i] == At(times[i])
  {
    seq(|times|, i requires 0 <= i < |times| => At(times[i]))
  }

  /** The rows of a fully parsed table as points. */
  function Points(stamps: seq<Stamp>, close: seq<real>): (r: seq<Point>)
    requires AllParsed(stamps) && |stamps| == |close|
    ensures |r| == |stamps|
    ensures forall i :: 0 <= i < |r| ==> r[i] == Point(stamps[i].seconds, close[i])
  {
    seq(|stamps|, i requires 0 <= i < |stamps| => Point(stamps[i].seconds, close[i]))
  }

  /** `df.iloc[-1]['ts_utc'] - delta`. */
  function Cutoff(points: seq<Point>, delta: real): real
    requires points != []
  {
    points[|points| - 1].ts - delta
  }

  /** `df[df['ts_utc'] > cutoff_time]`. */
  function Cut(points: seq<Point>, delta: real): seq<Point>
    requires points != []
  {
    After(points, PointTs, Cutoff(points, delta))
  }

  /** `iloc[-1]` of an empty table raises IndexError; `to_datetime` raises on a string
      it cannot parse; comparing a column that still mixes strings and timestamps
      with a timestamp raises TypeError. */
  datatype RenderError = NoRows | Unparseable | MixedStamps

  /** `render(_df, _predicted_data, cutoff_delta)`, up to the known rows it plots. */
  method Render(df: KnownFrame, delta: real, parse: string -> Option<real>)
    returns (r: Result<seq<Point>, RenderError>)
    requires df.Valid()
    modifies df
    ensures df.Valid() && df.close == old(df.close)
    ensures old(df.tsUtc) == [] ==> r == Err(NoRows) && df.tsUtc == old(df.tsUtc)
    ensures old(df.tsUtc) != [] && old(df.tsUtc[|df.tsUtc| - 1]).At? ==> df.tsUtc == old(df.tsUtc)
    ensures old(df.tsUtc) != [] && old(df.tsUtc[|df.tsUtc| - 1]).Text? ==>
      if Parsed(old(df.tsUtc), parse).None? then r == Err(Unparseable) && df.tsUtc == old(df.tsUtc)
      else df.tsUtc == Stamps(Parsed(old(df.tsUtc), parse).value)
    ensures r == Err(MixedStamps) <==> old(df.tsUtc) != [] && old(df.tsUtc[|df.tsUtc| - 1]).At? && !AllParsed(df.tsUtc)
    ensures r.Ok? <==> df.tsUtc != [] && AllParsed(df.tsUtc)
    ensures r.Ok? ==> r.value == Cut(Points(df.tsUtc, df.close), delta)
  {
    if df.tsUtc == [] {
      return Err(NoRows);
    }
    if df.tsUtc[|df.tsUtc| - 1].Text? {
      var times := Parsed(df.tsUtc, parse);
      if times.None? {
        return Err(Unparseable);
      }
      df.tsUtc := Stamps(times.value);
    }
    if !AllParsed(df.tsUtc) {
      return Err(MixedStamps);
    }
    var points := Points(df.tsUtc, df.close);
    r := Ok(Cut(points, delta));
  }

  /** The chart keeps exactly the rows after the cutoff, each once, in table order. */
  lemma CutSelectsRows(points: seq<Point>, delta: real)
    requires points != []
    ensures var cutoff, ks := Cutoff(points, delta), KeptIndices(points, PointTs, Cutoff(points, delta));
      && |Cut(points, delta)| == |ks|
      && (forall j :: 0 <= j < |ks| ==> Cut(points, delta)[j] == points[ks[j]])
      && (forall j, k :: 0 <= j < k < |ks| ==> ks[j] < ks[k])
      && (forall i :: 0 <= i < |points| ==> (i in ks <==> points[i].ts > cutoff))
  {
    var cutoff := Cutoff(points, delta);
    AfterSelectsKept(points, PointTs, cutoff);
    KeptIndicesAscend(points, PointTs, cutoff);
    KeptIndicesExact(points, PointTs, cutoff);
  }

  /** With a positive delta the last row is always on the chart, as its last point. */
  lemma CutKeepsLastRow(points: seq<Point>, delta: real)
    requires points != [] && delta > 0.0
    ensures Cut(points, delta) != []
    ensures Cut(points, delta)[|Cut(points, delta)| - 1] == points[|points| - 1]
  {
  }

  /** On a table in ascending time order the chart shows a contiguous tail of it. */
  lemma CutOfSortedIsSuffix(points: seq<Point>, delta: real)
    requires points != [] && Sorted(points, PointTs)
    ensures Cut(points, delta) == points[|points| - |Cut(points, delta)|..]
  {
    AfterOfSortedIsSuffix(points, PointTs, Cutoff(points, delta));
  }

  /** Conversion only ever replaces strings: a parsed column of stamps that were all
      timestamps already is the same column. */
  lemma ParsingParsedIsIdentity(stamps: seq<Stamp>, parse: string -> Option<real>)
    requires AllParsed(stamps)
    ensures Parsed(stamps, parse).Some?
    ensures Stamps(Parsed(stamps, parse).value) == stamps
  {
    var r := Parsed(stamps, parse);
    assert r.Some?;
    assert forall i :: 0 <= i < |stamps| ==> Stamps(r.value)[i] == stamps[i];
  }
}
