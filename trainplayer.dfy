/**
 * train_player.py, up to the training table of one player: the file `<target>.csv`, with
 * zero scores dropped, every row tagged with the series id and dated on consecutive days up
 * to 2024-02-19. There is no minimum length. The forecasting that follows is not modelled.
 */
module TrainPlayer {
  import opened Series

  /**
   * The straight-line preparation of train_player.py. The table has one row per non-zero
   * score, in file order and with the same value; row `i` of `n` is dated
   * `End - (n - 1 - i)`, so the days are consecutive and the last is `End`; every row
   * carries the id of `<target>.csv`, which is `target` when it has no `.`.
   */
  method PrepareTarget(target: string, samples: seq<Sample>) returns (df: seq<Row>)
    ensures |df| == |NonZero(samples)|
    ensures forall i | 0 <= i < |df| ::
              df[i].value == NonZero(samples)[i].value && df[i].day == End - (|df| - 1 - i)
    ensures Tagged(df, SeriesId(target + ".csv"))
    ensures '.' !in target ==> Tagged(df, target)
    ensures |df| > 0 ==> df[|df| - 1].day == End
  {
    var filename := target + ".csv";
    var seriesId := SeriesId(filename);
    var kept := NonZero(samples);
    df := Dated(kept, seriesId);
    DatedRows(kept, seriesId);
    if '.' !in target {
      CsvNameOfTarget(target);
    }
  }
}
