/** The column handling of `load_csv` in `trading/data_loader.py` (lower-casing the header,
    choosing the timestamp column, renaming the one-letter aliases, checking the required
    price columns) and the per-bucket OHLCV fold of `resample_ohlcv`. Reading the file,
    parsing dates and cutting time into buckets are not part of this model. */
module DataLoader {
  import opened Wrappers
  import opened Frame

  // ---------------------------------------------------------------------------------
  // Column names

  predicate IsUpper(c: char)
  {
    'A' <= c <= 'Z'
  }

  /** `str.lower()` on one character (ASCII letters only). */
  function LowerChar(c: char): (r: char)
    ensures !IsUpper(r)
    ensures !IsUpper(c) ==> r == c
    ensures IsUpper(c) ==> r as int - c as int == 32
  {
    if IsUpper(c) then (c as int + 32) as char else c
  }

  /** A name without upper-case letters. */
  predicate IsLowerName(s: string)
  {
    forall i :: 0 <= i < |s| ==> !IsUpper(s[i])
  }

  /** `str.lower()`: each upper-case letter replaced by its lower-case form, everything
      else kept in place. */
  function Lower(s: string): (r: string)
    ensures |r| == |s| && IsLowerName(r)
    ensures forall i :: 0 <= i < |s| && !IsUpper(s[i]) ==> r[i] == s[i]
  {
    seq(|s|, i requires 0 <= i < |s| => LowerChar(s[i]))
  }

  /** Lower-casing a name that is already lower case changes nothing, so lower-casing
      twice is lower-casing once. */
  lemma LowerIdempotent(s: string)
    ensures IsLowerName(s) ==> Lower(s) == s
    ensures Lower(Lower(s)) == Lower(s)
  {
    assert IsLowerName(s) ==> forall i :: 0 <= i < |s| ==> Lower(s)[i] == s[i];
    var l := Lower(s);
    assert forall i :: 0 <= i < |l| ==> Lower(l)[i] == l[i];
  }

  /** `[c.lower() for c in df.columns]`. */
  function LowerAll(names: seq<string>): (r: seq<string>)
    ensures |r| == |names|
    ensures forall i :: 0 <= i < |names| ==> r[i] == Lower(names[i])
  {
    seq(|names|, i requires 0 <= i < |names| => Lower(names[i]))
  }

  /** The mapping `df.rename(columns=rename_map)` applies to one name: the one-letter
      aliases become the full names; every other name, the full names included, is kept. */
  function Rename(name: string): (r: string)
    ensures IsAlias(name) ==> IsPriceName(r)
    ensures !IsAlias(name) ==> r == name
  {
    match name
    case "o" => "open"
    case "h" => "high"
    case "l" => "low"
    case "c" => "close"
    case "v" => "volume"
    case _ => name
  }

  predicate IsAlias(name: string)
  {
    name in {"o", "h", "l", "c", "v"}
  }

  predicate IsPriceName(name: string)
  {
    name in {"open", "high", "low", "close", "volume"}
  }

  /** An alias becomes a full price name, any other name stays as it is, renaming twice is
      renaming once, and a lower-case name stays lower case. */
  lemma RenameFacts(name: string)
    ensures IsAlias(name) ==> IsPriceName(Rename(name))
    ensures !IsAlias(name) ==> Rename(name) == name
    ensures Rename(Rename(name)) == Rename(name)
    ensures IsLowerName(name) ==> IsLowerName(Rename(name))
  {
  }

  function RenameAll(names: seq<string>): (r: seq<string>)
    ensures |r| == |names|
    ensures forall i :: 0 <= i < |names| ==> r[i] == Rename(names[i])
  {
    seq(|names|, i requires 0 <= i < |names| => Rename(names[i]))
  }

  /** The names left after `set_index("timestamp")` moves the timestamp into the index. */
  function WithoutTimestamp(names: seq<string>): (r: seq<string>)
    ensures forall n :: n in r <==> n in names && n != "timestamp"
    ensures |r| <= |names|
  {
    if names == [] then []
    else (if names[0] == "timestamp" then [] else [names[0]]) + WithoutTimestamp(names[1..])
  }

  /** Where the index comes from. */
  datatype TimestampSource = FromTimestamp | FromDate

  datatype LoadError =
    | NoTimestampColumn         // neither "timestamp" nor "date"
    | MissingColumn(name: string)

  /** The frame's layout after `load_csv`: where its index came from, and its columns. */
  datatype Layout = Layout(source: TimestampSource, columns: seq<string>)

  /** The columns `load_csv` insists on, in the order it checks them. */
  const RequiredColumns: seq<string> := ["open", "high", "low", "close"]

  /** The first required name that `names` lacks, as the check loop reports it. */
  function FirstMissing(required: seq<string>, names: seq<string>): (r: Option<string>)
    ensures r.None? <==> forall i :: 0 <= i < |required| ==> required[i] in names
    ensures r.Some? ==> exists k :: (0 <= k < |required| && required[k] == r.value
                                     && r.value !in names && forall j :: 0 <= j < k ==> required[j] in names)
  {
    if required == [] then None
    else if required[0] !in names then Some(required[0])
    else
      var rest := FirstMissing(required[1..], names);
      assert forall i :: 1 <= i < |required| ==> required[i] == required[1..][i - 1];
      if rest.Some? then
        var k :| 0 <= k < |required| - 1 && required[1..][k] == rest.value
                 && rest.value !in names && forall j :: 0 <= j < k ==> required[1..][j] in names;
        assert required[k + 1] == rest.value;
        rest
      else rest
  }

  /** The column handling of `load_csv` on a header: lower-case every name, take the
      index from "timestamp" or else from "date" (a `KeyError` otherwise), rename the
      aliases, and fail with a `KeyError` naming the first of open, high, low, close that
      is still missing. */
  function LoadColumns(header: seq<string>): (r: Result<Layout, LoadError>)
    ensures r == Err(NoTimestampColumn) <==> "timestamp" !in LowerAll(header) && "date" !in LowerAll(header)
    ensures r.Ok? ==> forall k :: 0 <= k < |RequiredColumns| ==> RequiredColumns[k] in r.value.columns
    ensures r.Err? && r.error.MissingColumn? ==> r.error.name in RequiredColumns
  {
    var lowered := LowerAll(header);
    if "timestamp" in lowered || "date" in lowered then
      var source := if "timestamp" in lowered then FromTimestamp else FromDate;
      var columns := RenameAll(WithoutTimestamp(lowered));
      var missing := FirstMissing(RequiredColumns, columns);
      if missing.Some? then Err(MissingColumn(missing.value)) else Ok(Layout(source, columns))
    else Err(NoTimestampColumn)
  }

  /** The timestamp comes from a "timestamp" column if there is one (in any case), else
      from "date"; with neither, loading fails. */
  lemma TimestampChoice(header: seq<string>)
    ensures var lowered := LowerAll(header);
            && (LoadColumns(header) == Err(NoTimestampColumn) <==> "timestamp" !in lowered && "date" !in lowered)
            && (LoadColumns(header).Ok? && "timestamp" in lowered ==> LoadColumns(header).value.source == FromTimestamp)
            && (LoadColumns(header).Ok? && "timestamp" !in lowered ==> LoadColumns(header).value.source == FromDate)
  {
  }

  /** Some header name, once lower-cased and renamed, is `name` and is not the timestamp
      that moves into the index. */
  predicate Provides(header: seq<string>, name: string)
  {
    exists h :: h in header && Lower(h) != "timestamp" && Rename(Lower(h)) == name
  }

  /** A column survives the normalisation exactly when some header name provides it;
      every surviving name is lower case and none is a one-letter alias. */
  lemma NormalisedColumns(header: seq<string>)
    ensures var cols := RenameAll(WithoutTimestamp(LowerAll(header)));
            && (forall i :: 0 <= i < |cols| ==> IsLowerName(cols[i]) && !IsAlias(cols[i]))
            && (forall n :: n in cols <==> Provides(header, n))
  {
    var lowered := LowerAll(header);
    var kept := WithoutTimestamp(lowered);
    var cols := RenameAll(kept);
    forall i | 0 <= i < |cols|
      ensures IsLowerName(cols[i]) && !IsAlias(cols[i])
    {
      assert kept[i] in lowered;
      RenameFacts(kept[i]);
    }
    forall n
      ensures n in cols <==> Provides(header, n)
    {
      if n in cols {
        var i :| 0 <= i < |cols| && cols[i] == n;
        assert kept[i] in lowered;
        var k :| 0 <= k < |lowered| && lowered[k] == kept[i];
        assert header[k] in header;
      }
      if Provides(header, n) {
        var h :| h in header && Lower(h) != "timestamp" && Rename(Lower(h)) == n;
        var k :| 0 <= k < |header| && header[k] == h;
        assert lowered[k] == Lower(h);
        assert Lower(h) in kept;
        var i :| 0 <= i < |kept| && kept[i] == Lower(h);
        assert cols[i] == n;
      }
    }
  }

  /** Loading succeeds exactly when the header has a timestamp or date column and
      provides each of open, high, low and close; volume is not demanded. Then every
      column name is lower case and none is an alias. */
  lemma LoadSucceedsIff(header: seq<string>)
    ensures LoadColumns(header).Ok? <==>
              && ("timestamp" in LowerAll(header) || "date" in LowerAll(header))
              && forall k :: 0 <= k < |RequiredColumns| ==> Provides(header, RequiredColumns[k])
    ensures LoadColumns(header).Ok? ==>
              var cols := LoadColumns(header).value.columns;
              forall i :: 0 <= i < |cols| ==> IsLowerName(cols[i]) && !IsAlias(cols[i])
  {
    NormalisedColumns(header);
  }

  /** A missing column is reported by name: the first of open, high, low, close, in that
      order, that no header name provides. */
  lemma MissingColumnReported(header: seq<string>)
    ensures var r := LoadColumns(header);
            r.Err? && r.error.MissingColumn? ==>
              exists k :: 0 <= k < |RequiredColumns| && RequiredColumns[k] == r.error.name
                && !Provides(header, r.error.name)
                && forall j :: 0 <= j < k ==> Provides(header, RequiredColumns[j])
  {
    NormalisedColumns(header);
  }

  // ---------------------------------------------------------------------------------
  // Bar aggregation

  function HighestHigh(group: seq<Bar>): (r: real)
    requires group != []
    ensures forall i :: 0 <= i < |group| ==> group[i].high <= r
    ensures exists i :: 0 <= i < |group| && group[i].high == r
  {
    if |group| == 1 then group[0].high
    else
      var rest := HighestHigh(group[1..]);
      assert forall i :: 1 <= i < |group| ==> group[i] == group[1..][i - 1];
      Max(group[0].high, rest)
  }

  function LowestLow(group: seq<Bar>): (r: real)
    requires group != []
    ensures forall i :: 0 <= i < |group| ==> r <= group[i].low
    ensures exists i :: 0 <= i < |group| && group[i].low == r
  {
    if |group| == 1 then group[0].low
    else
      var rest := LowestLow(group[1..]);
      assert forall i :: 1 <= i < |group| ==> group[i] == group[1..][i - 1];
      Min(group[0].low, rest)
  }

  function TotalVolume(group: seq<Bar>): real
  {
    if group == [] then 0.0 else group[0].volume + TotalVolume(group[1..])
  }

  /** The inner `ohlcv` of `resample_ohlcv` on one time bucket. On an empty bucket the
      first `iloc[0]` raises `IndexError`: `None`. */
  function AggregateBucket(group: seq<Bar>): (r: Option<Bar>)
    ensures r.Some? <==> group != []
    ensures r.Some? ==>
              && r.value.open == group[0].open
              && r.value.close == group[|group| - 1].close
              && (forall i :: 0 <= i < |group| ==> r.value.low <= group[i].low && group[i].high <= r.value.high)
              && (exists i :: 0 <= i < |group| && group[i].high == r.value.high)
              && (exists i :: 0 <= i < |group| && group[i].low == r.value.low)
              && r.value.volume == TotalVolume(group)
  {
    if group == [] then None
    else Some(Bar(group[0].open, HighestHigh(group), LowestLow(group), group[|group| - 1].close, TotalVolume(group)))
  }

  /** A bar whose open and close lie between its low and its high. */
  predicate Consistent(b: Bar)
  {
    b.low <= b.open <= b.high && b.low <= b.close <= b.high
  }

  /** Aggregating consistent bars gives a consistent bar whose range covers the open and
      the close. */
  lemma AggregateConsistent(group: seq<Bar>)
    requires group != []
    requires forall i :: 0 <= i < |group| ==> Consistent(group[i])
    ensures Consistent(AggregateBucket(group).value)
  {
    var b := AggregateBucket(group).value;
    var last := group[|group| - 1];
    assert b.low <= group[0].low <= group[0].open <= group[0].high <= b.high;
    assert b.low <= last.low <= last.close <= last.high <= b.high;
  }

  /** The volume of a bucket made of two runs is the sum of their volumes. */
  lemma {:induction false} TotalVolumeAppend(a: seq<Bar>, b: seq<Bar>)
    ensures TotalVolume(a + b) == TotalVolume(a) + TotalVolume(b)
  {
    if a != [] {
      assert (a + b)[0] == a[0] && (a + b)[1..] == a[1..] + b;
      TotalVolumeAppend(a[1..], b);
    } else {
      assert a + b == b;
    }
  }

  /** `resample_ohlcv` applies `ohlcv` to every time bucket, empty ones included. */
  datatype ResampleError = EmptyBucket

  /** Some time bucket holds no row: a gap in the timestamps as wide as the rule. */
  predicate HasEmptyBucket(buckets: seq<seq<Bar>>)
  {
    exists k :: 0 <= k < |buckets| && buckets[k] == []
  }

  /** `df.resample(rule).apply(ohlcv).dropna()` once the rows are cut into buckets. It
      raises (`IndexError` in `ohlcv`) exactly when some bucket is empty; otherwise it gives
      one bar per bucket, the bucket's aggregate, in bucket order, and `dropna()` removes
      nothing. */
  function Resample(buckets: seq<seq<Bar>>): (r: Result<seq<Bar>, ResampleError>)
    ensures r.Err? <==> HasEmptyBucket(buckets)
    ensures r.Ok? ==>
              |r.value| == |buckets|
              && forall k :: 0 <= k < |buckets| ==>
                   buckets[k] != [] && r.value[k] == AggregateBucket(buckets[k]).value
  {
    if buckets == [] then Ok([])
    else
      var head := AggregateBucket(buckets[0]);
      var rest := Resample(buckets[1..]);
      ResampleStep(buckets, rest);
      if head.None? || rest.Err? then Err(EmptyBucket)
      else Ok([head.value] + rest.value)
  }

  /** One step of `Resample`: some bucket is empty exactly when the first one is or one of
      the others is, and with none empty the first aggregate followed by the others' is the
      aggregate of every bucket in order. */
  lemma ResampleStep(buckets: seq<seq<Bar>>, rest: Result<seq<Bar>, ResampleError>)
    requires buckets != []
    requires rest.Err? <==> HasEmptyBucket(buckets[1..])
    requires rest.Ok? ==>
               |rest.value| == |buckets[1..]|
               && forall k :: 0 <= k < |buckets[1..]| ==>
                    buckets[1..][k] != [] && rest.value[k] == AggregateBucket(buckets[1..][k]).value
    ensures HasEmptyBucket(buckets) <==> buckets[0] == [] || rest.Err?
    ensures buckets[0] != [] && rest.Ok? ==>
              var out := [AggregateBucket(buckets[0]).value] + rest.value;
              |out| == |buckets|
              && forall k :: 0 <= k < |buckets| ==>
                   buckets[k] != [] && out[k] == AggregateBucket(buckets[k]).value
  {
    assert forall k :: 0 <= k < |buckets[1..]| ==> buckets[1..][k] == buckets[k + 1];
    if HasEmptyBucket(buckets) && buckets[0] != [] {
      var k :| 0 <= k < |buckets| && buckets[k] == [];
      assert buckets[1..][k - 1] == [];
    }
    if buckets[0] != [] && rest.Ok? {
      var out := [AggregateBucket(buckets[0]).value] + rest.value;
      forall k | 0 <= k < |buckets|
        ensures buckets[k] != [] && out[k] == AggregateBucket(buckets[k]).value
      {
        if k > 0 {
          assert out[k] == rest.value[k - 1];
        }
      }
    }
  }

  /** A single bucket yields its aggregate, and an empty one raises. */
  lemma ResampleOne(b: seq<Bar>)
    ensures Resample([b]) == if b == [] then Err(EmptyBucket) else Ok([AggregateBucket(b).value])
  {
    assert [b][1..] == [];
    assert Resample([b][1..]) == Ok([]);
    if b == [] {
      assert Resample([b]) == Err(EmptyBucket);
    } else {
      assert Resample([b]).value == [AggregateBucket(b).value];
    }
  }

  /** Resampling is done bucket by bucket: consecutive runs of buckets succeed exactly when
      each run does, and then the bars are those of each run, in order. With `ResampleOne`
      this pins the result down on every input. */
  lemma ResampleConcat(a: seq<seq<Bar>>, b: seq<seq<Bar>>)
    ensures Resample(a + b)
            == if Resample(a).Ok? && Resample(b).Ok? then Ok(Resample(a).value + Resample(b).value)
               else Err(EmptyBucket)
  {
    var r, ra, rb := Resample(a + b), Resample(a), Resample(b);
    if HasEmptyBucket(a) {
      var k :| 0 <= k < |a| && a[k] == [];
      assert (a + b)[k] == [];
    } else if HasEmptyBucket(b) {
      var k :| 0 <= k < |b| && b[k] == [];
      assert (a + b)[|a| + k] == [];
    } else {
      assert !HasEmptyBucket(a + b) by {
        forall k | 0 <= k < |a + b| ensures (a + b)[k] != [] {
          if k < |a| { assert (a + b)[k] == a[k]; } else { assert (a + b)[k] == b[k - |a|]; }
        }
      }
      var v := ra.value + rb.value;
      forall k | 0 <= k < |a + b| ensures r.value[k] == v[k] {
        if k < |a| { assert (a + b)[k] == a[k]; } else { assert (a + b)[k] == b[k - |a|]; }
      }
      assert r.value == v;
    }
  }

  /** Every bar of the resampled frame is consistent when the bars of its bucket are. */
  lemma ResampleConsistent(buckets: seq<seq<Bar>>)
    requires forall k, i :: 0 <= k < |buckets| && 0 <= i < |buckets[k]| ==> Consistent(buckets[k][i])
    ensures Resample(buckets).Ok? ==>
              forall j :: 0 <= j < |Resample(buckets).value| ==> Consistent(Resample(buckets).value[j])
  {
    forall k | 0 <= k < |buckets| && buckets[k] != []
      ensures Consistent(AggregateBucket(buckets[k]).value)
    {
      AggregateConsistent(buckets[k]);
    }
  }
}
