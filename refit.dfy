/**
 * refit.py, up to the concatenation of the training table: the `.csv` files of one league
 * folder, with zero scores dropped, kept when at least 20 rows remain, dated on consecutive
 * days up to 2024-02-19. Unlike train_global.py there is no check for a series id seen
 * before. The forecasting that follows is not modelled.
 */
module Refit {
  import opened Options
  import opened Series

  /** Series with fewer non-zero rows are not used. */
  const MinRows: nat := 20

  /** Whether the loop appends a table for `f`. */
  predicate Accepts(f: DataFile) {
    IsCsvName(f.name) && |Prepared(f)| >= MinRows
  }

  /** The tables appended to `dfs`, in listing order. */
  function AcceptedTables(files: seq<DataFile>): seq<seq<Row>> {
    if files == [] then []
    else
      var dfs := AcceptedTables(files[..|files| - 1]);
      var f := files[|files| - 1];
      if Accepts(f) then dfs + [Prepared(f)] else dfs
  }

  /**
   * Every accepted table is the table of a `.csv` file of the folder with enough non-zero
   * rows, and every such file contributes its table.
   */
  lemma {:induction false} AcceptedTablesFrom(files: seq<DataFile>)
    ensures forall df | df in AcceptedTables(files) :: exists f | f in files :: Accepts(f) && df == Prepared(f)
    ensures forall f | f in files && Accepts(f) :: Prepared(f) in AcceptedTables(files)
    ensures |AcceptedTables(files)| <= |files|
    decreases |files|
  {
    if files != [] {
      var init, last := files[..|files| - 1], files[|files| - 1];
      assert files == init + [last];
      AcceptedTablesFrom(init);
      var dfs, prev := AcceptedTables(files), AcceptedTables(init);
      forall df | df in dfs ensures exists f | f in files :: Accepts(f) && df == Prepared(f) {
        if df in prev {
          var f :| f in init && Accepts(f) && df == Prepared(f);
          assert f in files;
        } else {
          assert Accepts(last) && df == Prepared(last) && last in files;
        }
      }
      forall f | f in files && Accepts(f) ensures Prepared(f) in dfs {
        if f in init {
          assert Prepared(f) in prev;
        } else {
          assert f == last;
        }
      }
    }
  }

  /** The tables keep listing order: those of the files `a + b` are those of `a` followed
      by those of `b`. */
  lemma {:induction false} AcceptedTablesAppend(a: seq<DataFile>, b: seq<DataFile>)
    ensures AcceptedTables(a + b) == AcceptedTables(a) + AcceptedTables(b)
    decreases |b|
  {
    if b == [] {
      assert a + b == a;
    } else {
      var init, last := b[..|b| - 1], b[|b| - 1];
      assert (a + b)[..|a + b| - 1] == a + init && (a + b)[|a + b| - 1] == last;
      AcceptedTablesAppend(a, init);
      if Accepts(last) {
        assert AcceptedTables(a) + AcceptedTables(init) + [Prepared(last)]
            == AcceptedTables(a) + (AcceptedTables(init) + [Prepared(last)]);
      }
    }
  }

  /** Every accepted table has at least `MinRows` rows, all tagged with one series id and
      dated on consecutive days up to `End`. */
  lemma AcceptedTablesShape(files: seq<DataFile>)
    ensures forall df: seq<Row> | df in AcceptedTables(files) ::
              |df| >= MinRows && EndsOnEnd(df) && Tagged(df, df[0].seriesId)
  {
    AcceptedTablesFrom(files);
    forall df: seq<Row> | df in AcceptedTables(files)
      ensures |df| >= MinRows && EndsOnEnd(df) && Tagged(df, df[0].seriesId)
    {
      var f :| f in files && Accepts(f) && df == Prepared(f);
      assert Tagged(df, SeriesId(f.name));
    }
  }

  /** No de-duplication: `a.csv` and `a.b.csv` both contribute a table under the id `a`. */
  lemma SameIdTwice(first: seq<Sample>, second: seq<Sample>)
    requires |NonZero(first)| >= MinRows && |NonZero(second)| >= MinRows
    ensures var dfs := AcceptedTables([DataFile("a.csv", first), DataFile("a.b.csv", second)]);
      && |dfs| == 2
      && dfs[0] == Dated(NonZero(first), "a")
      && dfs[1] == Dated(NonZero(second), "a")
  {
    var f1, f2 := DataFile("a.csv", first), DataFile("a.b.csv", second);
    assert f1.name[1] == '.' && "a" <= f1.name;
    SeriesIdUnique(f1.name, "a");
    assert f2.name[1] == '.' && "a" <= f2.name;
    SeriesIdUnique(f2.name, "a");
    assert f1.name[|f1.name| - 4..] == ".csv" && f2.name[|f2.name| - 4..] == ".csv";
    assert Accepts(f1) && Accepts(f2);
    var files := [f1, f2];
    assert files[..1] == [f1] && [f1][..0] == [];
    assert AcceptedTables([f1]) == [Prepared(f1)];
  }

  /** The file loop of refit.py, then `pd.concat(dfs)` (None where it raises because no
      series was accepted). */
  method BuildRefitTable(files: seq<DataFile>) returns (finalDf: Option<seq<Row>>)
    ensures finalDf == Concat(AcceptedTables(files))
  {
    var dfs: seq<seq<Row>> := [];
    var k := 0;
    while k < |files|
      invariant 0 <= k <= |files|
      invariant dfs == AcceptedTables(files[..k])
    {
      var filename := files[k].name;
      if IsCsvName(filename) {
        var seriesId := SeriesId(filename);
        var df := Dated(NonZero(files[k].samples), seriesId);
        if |df| >= MinRows {
          dfs := dfs + [df];
        }
      }
      assert files[..k + 1][..k] == files[..k];
      k := k + 1;
    }
    assert files[..k] == files;
    finalDf := Concat(dfs);
  }
}
