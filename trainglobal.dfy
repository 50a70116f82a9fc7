/**
 * train_global.py, up to the concatenation of the training table: walk every league folder
 * of the data folder, take each `.csv` file whose series id has not been taken yet, drop its
 * zero scores, and keep it when at least 40 rows remain, dated on consecutive days up to
 * 2024-02-19. The forecasting that follows is not modelled.
 */
module TrainGlobal {
  import opened Options
  import opened Series

  /** Series with fewer non-zero rows are not used for training. */
  const MinRows: nat := 40

  /** An entry of the data folder: a league folder with its files, or anything else. */
  datatype Entry = LeagueFolder(name: string, files: seq<DataFile>) | OtherEntry(name: string)

  /** The loop's state: the accepted tables (`dfs`) and the series ids taken so far
      (`existing_series_ids`). */
  datatype Accum = Accum(dfs: seq<seq<Row>>, seen: set<string>)

  /** What one file does to the state. */
  function Consider(acc: Accum, f: DataFile): Accum {
    if !IsCsvName(f.name) then acc
    else
      var id := SeriesId(f.name);
      if id in acc.seen then acc
      else if |Prepared(f)| < MinRows then acc
      else Accum(acc.dfs + [Prepared(f)], acc.seen + {id})
  }

  /** The state after the files of one league folder, in listing order. */
  function ConsiderAll(acc: Accum, files: seq<DataFile>): Accum {
    if files == [] then acc else Consider(ConsiderAll(acc, files[..|files| - 1]), files[|files| - 1])
  }

  /** The state after the entries of the data folder, in listing order, from no table and no
      id. Entries that are not folders are passed over. */
  function Scan(entries: seq<Entry>): Accum {
    if entries == [] then Accum([], {})
    else
      var acc := Scan(entries[..|entries| - 1]);
      match entries[|entries| - 1]
      case LeagueFolder(_, files) => ConsiderAll(acc, files)
      case OtherEntry(_) => acc
  }

  /** The series id of an accepted table: the id its first row carries. */
  function IdOf(df: seq<Row>): string
    requires |df| > 0
  {
    df[0].seriesId
  }

  /**
   * What the state promises: every table has at least `MinRows` rows, all tagged with one
   * id and dated on consecutive days up to `End`; no two tables share an id; and the ids
   * taken are exactly the ids of the tables.
   */
  predicate Good(acc: Accum) {
    && (forall i | 0 <= i < |acc.dfs| ::
          |acc.dfs[i]| >= MinRows && Tagged(acc.dfs[i], IdOf(acc.dfs[i])) && EndsOnEnd(acc.dfs[i]))
    && (forall i, j | 0 <= i < j < |acc.dfs| :: IdOf(acc.dfs[i]) != IdOf(acc.dfs[j]))
    && acc.seen == set i | 0 <= i < |acc.dfs| :: IdOf(acc.dfs[i])
  }

  /**
   * A file either leaves the state alone or appends one table under an id not taken
   * before, taking that id; the id set grows only with an accepted table, so a file
   * rejected as too short leaves its id free for a later file.
   */
  lemma ConsiderStep(acc: Accum, f: DataFile)
    ensures var next := Consider(acc, f);
      || next == acc
      || (&& IsCsvName(f.name) && SeriesId(f.name) !in acc.seen
          && next == Accum(acc.dfs + [Prepared(f)], acc.seen + {SeriesId(f.name)}))
    ensures IsCsvName(f.name) && SeriesId(f.name) !in acc.seen && |NonZero(f.samples)| < MinRows
            ==> Consider(acc, f) == acc
    ensures IsCsvName(f.name) && SeriesId(f.name) !in acc.seen && |NonZero(f.samples)| >= MinRows
            ==> Consider(acc, f) == Accum(acc.dfs + [Prepared(f)], acc.seen + {SeriesId(f.name)})
  {
  }

  /**
   * Within a folder's file loop, file `k` is accepted exactly when its name ends in `.csv`,
   * no table accepted before it carries its series id, and it has at least `MinRows`
   * non-zero rows; an accepted file appends its table and takes its id, any other file
   * leaves the state as it was.
   */
  lemma FileAccepted(acc: Accum, files: seq<DataFile>, k: nat)
    requires Good(acc) && k < |files|
    ensures Good(ConsiderAll(acc, files[..k]))
    ensures var before, f := ConsiderAll(acc, files[..k]), files[k];
      ConsiderAll(acc, files[..k + 1]) ==
        if && IsCsvName(f.name)
           && (forall i | 0 <= i < |before.dfs| :: IdOf(before.dfs[i]) != SeriesId(f.name))
           && |NonZero(f.samples)| >= MinRows
        then Accum(before.dfs + [Prepared(f)], before.seen + {SeriesId(f.name)})
        else before
  {
    var before, f := ConsiderAll(acc, files[..k]), files[k];
    assert files[..k + 1][..k] == files[..k];
    assert ConsiderAll(acc, files[..k + 1]) == Consider(before, f);
    ConsiderAllKeepsGood(acc, files[..k]);
    SeenIsIds(before, SeriesId(f.name));
    ConsiderStep(before, f);
  }

  /** In a good state, an id is taken exactly when some accepted table carries it. */
  lemma SeenIsIds(acc: Accum, id: string)
    requires Good(acc)
    ensures id in acc.seen <==> exists i | 0 <= i < |acc.dfs| :: IdOf(acc.dfs[i]) == id
  {
  }

  lemma ConsiderKeepsGood(acc: Accum, f: DataFile)
    requires Good(acc)
    ensures Good(Consider(acc, f))
  {
    var next := Consider(acc, f);
    if next != acc {
      var df := Prepared(f);
      var id := SeriesId(f.name);
      assert IdOf(df) == id;
      var ids := set i | 0 <= i < |acc.dfs| :: IdOf(acc.dfs[i]);
      var nextIds := set i | 0 <= i < |next.dfs| :: IdOf(next.dfs[i]);
      assert next.dfs[|acc.dfs|] == df;
      assert forall i | 0 <= i < |acc.dfs| :: next.dfs[i] == acc.dfs[i];
      assert nextIds == ids + {id} by {
        forall x | x in nextIds ensures x in ids + {id} {
          var i :| 0 <= i < |next.dfs| && x == IdOf(next.dfs[i]);
          if i < |acc.dfs| { assert x == IdOf(acc.dfs[i]); }
        }
        assert id == IdOf(next.dfs[|acc.dfs|]);
      }
    }
  }

  lemma {:induction false} ConsiderAllKeepsGood(acc: Accum, files: seq<DataFile>)
    requires Good(acc)
    ensures Good(ConsiderAll(acc, files))
    decreases |files|
  {
    if files != [] {
      ConsiderAllKeepsGood(acc, files[..|files| - 1]);
      ConsiderKeepsGood(ConsiderAll(acc, files[..|files| - 1]), files[|files| - 1]);
    }
  }

  /** Whatever the data folder holds, the accepted tables are long enough, dated up to
      `End`, each under its own id, and the ids taken are exactly theirs. */
  lemma {:induction false} ScanGood(entries: seq<Entry>)
    ensures Good(Scan(entries))
    decreases |entries|
  {
    if entries != [] {
      var init := entries[..|entries| - 1];
      ScanGood(init);
      match entries[|entries| - 1]
      case LeagueFolder(_, files) => ConsiderAllKeepsGood(Scan(init), files);
      case OtherEntry(_) =>
    }
  }

  /**
   * A file rejected as too short does not block its id: with `a.csv` too short and
   * `a.old.csv` long enough, in that order, the second file's table is accepted under `a`.
   */
  lemma ShortFileDoesNotBlock(short: seq<Sample>, long: seq<Sample>)
    requires |NonZero(short)| < MinRows && |NonZero(long)| >= MinRows
    ensures ConsiderAll(Accum([], {}), [DataFile("a.csv", short), DataFile("a.old.csv", long)])
            == Accum([Dated(NonZero(long), "a")], {"a"})
  {
    var files := [DataFile("a.csv", short), DataFile("a.old.csv", long)];
    assert files[..1][..0] == [];
    assert SeriesId("a.csv") == "a" && SeriesId("a.old.csv") == "a";
    assert IsCsvName("a.csv") && IsCsvName("a.old.csv");
    assert ConsiderAll(Accum([], {}), files[..1]) == Accum([], {});
  }

  /**
   * The folder walk of train_global.py: the nested loops over folders and files, with
   * `dfs` and `existing_series_ids` updated as they go, then `pd.concat(dfs)` (None where it
   * raises because no series was accepted).
   */
  method BuildTrainingTable(entries: seq<Entry>) returns (finalDf: Option<seq<Row>>)
    ensures finalDf == Concat(Scan(entries).dfs)
  {
    var dfs: seq<seq<Row>> := [];
    var existingSeriesIds: set<string> := {};
    var e := 0;
    while e < |entries|
      invariant 0 <= e <= |entries|
      invariant Accum(dfs, existingSeriesIds) == Scan(entries[..e])
    {
      assert entries[..e + 1][..e] == entries[..e];
      match entries[e] {
        case OtherEntry(_) =>
        case LeagueFolder(_, files) =>
          var k := 0;
          while k < |files|
            invariant 0 <= k <= |files|
            invariant Accum(dfs, existingSeriesIds) == ConsiderAll(Scan(entries[..e]), files[..k])
          {
            var filename := files[k].name;
            if IsCsvName(filename) {
              var seriesId := SeriesId(filename);
              if seriesId !in existingSeriesIds {
                var df := Dated(NonZero(files[k].samples), seriesId);
                if |df| >= MinRows {
                  dfs := dfs + [df];
                  existingSeriesIds := existingSeriesIds + {seriesId};
                }
              }
            }
            assert files[..k + 1][..k] == files[..k];
            k := k + 1;
          }
          assert files[..k] == files;
      }
      e := e + 1;
    }
    assert entries[..e] == entries;
    finalDf := Concat(dfs);
  }
}
