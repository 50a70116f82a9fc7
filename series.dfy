/**
 * The per-file preprocessing shared by the training scripts: a score file named
 * `<series id>.csv` is read, its zero scores are dropped, every remaining row is tagged with
 * the series id, and the real game dates are replaced by consecutive days ending on
 * 2024-02-19.
 *
 * Days are counted from 1970-01-01; `End` is 2024-02-19.
 */
module Series {
  import opened Options

  /** Day 19772 after 1970-01-01, that is 2024-02-19. */
  const End: int := 19772

  /** A row of a score file as read: its `datetime` text and its `score`. */
  datatype Sample = Sample(datetime: string, value: real)

  /** A row of the training table: its (synthetic) day, its value and its series id. */
  datatype Row = Row(day: int, value: real, seriesId: string)

  /** `name.endswith(".csv")`. */
  predicate IsCsvName(name: string) {
    |name| >= 4 && name[|name| - 4..] == ".csv"
  }

  /** `name.split(".")[0]`: the text before the first `.`, or all of it without one. */
  function SeriesId(name: string): (id: string)
    ensures id <= name && '.' !in id
    ensures |id| < |name| ==> name[|id|] == '.'
  {
    if name == [] || name[0] == '.' then [] else [name[0]] + SeriesId(name[1..])
  }

  /** The three facts of `SeriesId`'s contract pin it down: any dot-free prefix that reaches
      the first `.` (or the end) is the series id. */
  lemma {:induction false} SeriesIdUnique(name: string, id: string)
    requires id <= name && '.' !in id
    requires |id| < |name| ==> name[|id|] == '.'
    ensures id == SeriesId(name)
  {
    if id == [] {
      assert |name| > 0 ==> name[0] == '.';
    } else {
      assert id[0] == name[0];
      assert id[1..] <= name[1..];
      assert |id[1..]| < |name[1..]| ==> name[1..][|id[1..]|] == name[|id|];
      SeriesIdUnique(name[1..], id[1..]);
      assert id == [id[0]] + id[1..];
    }
  }

  /** The id of `<target>.csv` is `target` itself when `target` has no `.` in it. */
  lemma CsvNameOfTarget(target: string)
    requires '.' !in target
    ensures IsCsvName(target + ".csv")
    ensures SeriesId(target + ".csv") == target
  {
    var name := target + ".csv";
    assert name[|target|] == '.';
    assert target <= name;
    SeriesIdUnique(name, target);
  }

  /** `df[df["value"] != 0]`: the rows whose value is not zero, in their original order. */
  function NonZero(rows: seq<Sample>): (kept: seq<Sample>)
    ensures |kept| <= |rows|
    ensures forall i | 0 <= i < |kept| :: kept[i].value != 0.0
  {
    if rows == [] then []
    else
      var rest := NonZero(rows[1..]);
      if rows[0].value != 0.0 then [rows[0]] + rest else rest
  }

  /** Filtering works row by row, so it keeps the order of the rows: filtering `a + b` gives
      the kept rows of `a` followed by those of `b`. */
  lemma {:induction false} NonZeroAppend(a: seq<Sample>, b: seq<Sample>)
    ensures NonZero(a + b) == NonZero(a) + NonZero(b)
  {
    if a == [] {
      assert a + b == b;
    } else {
      assert (a + b)[1..] == a[1..] + b;
      assert (a + b)[0] == a[0];
      NonZeroAppend(a[1..], b);
      var x, y := NonZero(a[1..]), NonZero(b);
      assert [a[0]] + (x + y) == ([a[0]] + x) + y;
    }
  }

  /** Exactly the zero rows are removed: each row occurs in the result as often as in the
      input when its value is not zero, and not at all otherwise. */
  lemma {:induction false} NonZeroCounts(rows: seq<Sample>)
    ensures forall x :: multiset(NonZero(rows))[x] == if x.value != 0.0 then multiset(rows)[x] else 0
  {
    if rows != [] {
      NonZeroCounts(rows[1..]);
      assert rows == [rows[0]] + rows[1..];
    }
  }

  /** `pd.date_range(start, periods=n, freq="D")`: `n` consecutive days from `start`. */
  function DateRange(start: int, n: nat): (days: seq<int>)
    ensures |days| == n
    decreases n
  {
    if n == 0 then [] else [start] + DateRange(start + 1, n - 1)
  }

  lemma {:induction false} DateRangeIndex(start: int, n: nat)
    ensures forall i | 0 <= i < n :: DateRange(start, n)[i] == start + i
    decreases n
  {
    if n > 0 {
      DateRangeIndex(start + 1, n - 1);
    }
  }

  /**
   * The kept rows of one file as they enter the training table: every row gets the series
   * id, and `n` rows get the `n` days that end on `End`, from `End - (n - 1)` onwards.
   */
  function Dated(kept: seq<Sample>, id: string): (rows: seq<Row>)
    ensures |rows| == |kept|
  {
    var days := DateRange(End - (|kept| - 1), |kept|);
    seq(|kept|, i requires 0 <= i < |kept| => Row(days[i], kept[i].value, id))
  }

  /** Row `i` of `n` is dated `End - (n - 1 - i)` and keeps its value; every row carries the
      series id; the days are consecutive, strictly increasing, and the last is `End`. */
  lemma DatedRows(kept: seq<Sample>, id: string)
    ensures var rows := Dated(kept, id);
      && (forall i | 0 <= i < |rows| ::
            rows[i].day == End - (|rows| - 1 - i) && rows[i].value == kept[i].value && rows[i].seriesId == id)
      && (forall i | 0 <= i < |rows| - 1 :: rows[i + 1].day == rows[i].day + 1)
      && (|rows| > 0 ==> rows[|rows| - 1].day == End)
  {
    DateRangeIndex(End - (|kept| - 1), |kept|);
  }

  /** Row `k` of a table is dated `End - (n - 1 - k)`: the days run consecutively up to `End`. */
  predicate EndsOnEnd(df: seq<Row>) {
    forall k | 0 <= k < |df| :: df[k].day == End - (|df| - 1 - k)
  }

  /** Every row of a table carries the series id `id`. */
  predicate Tagged(df: seq<Row>, id: string) {
    forall k | 0 <= k < |df| :: df[k].seriesId == id
  }

  /** A file of a data folder: its name and the rows it holds when read as CSV. */
  datatype DataFile = DataFile(name: string, samples: seq<Sample>)

  /** The table a file contributes once it is accepted. */
  function Prepared(f: DataFile): (df: seq<Row>)
    ensures |df| == |NonZero(f.samples)|
    ensures EndsOnEnd(df) && Tagged(df, SeriesId(f.name))
  {
    DatedRows(NonZero(f.samples), SeriesId(f.name));
    Dated(NonZero(f.samples), SeriesId(f.name))
  }

  /** The rows of the tables, one table after the other. */
  function Flatten(dfs: seq<seq<Row>>): (table: seq<Row>)
    ensures |table| == TotalRows(dfs)
  {
    if dfs == [] then [] else dfs[0] + Flatten(dfs[1..])
  }

  /** The number of rows of all the tables together. */
  function TotalRows(dfs: seq<seq<Row>>): nat {
    if dfs == [] then 0 else |dfs[0]| + TotalRows(dfs[1..])
  }

  /** `pd.concat(dfs, ignore_index=True)`, None where pandas raises because there is no table
      to concatenate. */
  function Concat(dfs: seq<seq<Row>>): (table: Option<seq<Row>>)
    ensures table.Some? <==> dfs != []
    ensures table.Some? ==> table.value == Flatten(dfs)
  {
    if dfs == [] then None else Some(Flatten(dfs))
  }

  /** Table `i` sits in the concatenation right after the tables before it. */
  lemma {:induction false} FlattenSlot(dfs: seq<seq<Row>>, i: nat)
    requires i < |dfs|
    ensures TotalRows(dfs[..i]) + |dfs[i]| <= |Flatten(dfs)|
    ensures Flatten(dfs)[TotalRows(dfs[..i])..TotalRows(dfs[..i]) + |dfs[i]|] == dfs[i]
  {
    if i == 0 {
      assert dfs[..0] == [];
    } else {
      var rest := dfs[1..];
      assert dfs[..i][1..] == rest[..i - 1] && dfs[..i][0] == dfs[0];
      assert TotalRows(dfs[..i]) == |dfs[0]| + TotalRows(rest[..i - 1]);
      FlattenSlot(rest, i - 1);
      var lo := TotalRows(rest[..i - 1]);
      assert Flatten(dfs) == dfs[0] + Flatten(rest);
      assert Flatten(dfs)[|dfs[0]| + lo..|dfs[0]| + lo + |dfs[i]|] == Flatten(rest)[lo..lo + |dfs[i]|];
    }
  }
}
