/**
 * The "Time elapsed" message of train_global.py and train_player.py: the run's duration
 * split into hours, minutes and seconds. The clock reads are not modelled; the duration is
 * given as its number of whole seconds.
 */
module Elapsed {

  const SecondsPerDay: nat := 86400

  datatype Parts = Parts(hours: nat, minutes: nat, seconds: nat)

  /** `timedelta.seconds` of a duration of `total` whole seconds: the seconds left over
      after the whole days, which the timedelta keeps in its `days` field. */
  function SecondsField(total: nat): (s: nat)
    ensures s < SecondsPerDay
    ensures exists days: nat :: total == days * SecondsPerDay + s
  {
    var s := total % SecondsPerDay;
    assert total == (total / SecondsPerDay) * SecondsPerDay + s;
    s
  }

  /** The split as the scripts print it: `seconds // 3600`, `(seconds // 60) % 60` and
      `seconds % 60`, taken of `duration.seconds`. */
  function PrintedParts(total: nat): Parts {
    var s := SecondsField(total);
    Parts(s / 3600, (s / 60) % 60, s % 60)
  }

  /** The printed parts add up to `duration.seconds`, with fewer than 60 minutes and
      seconds and fewer than 24 hours. */
  lemma PrintedPartsSum(total: nat)
    ensures var p := PrintedParts(total);
      && p.minutes < 60 && p.seconds < 60 && p.hours < 24
      && p.hours * 3600 + p.minutes * 60 + p.seconds == SecondsField(total)
  {
    var s := SecondsField(total);
    assert s == (s / 60) * 60 + s % 60;
    assert s / 60 == (s / 3600) * 60 + (s / 60) % 60;
  }

  /** A run of 25 hours is reported as taking 1 hour: the whole day is dropped. */
  lemma PrintedPartsDropDays()
    ensures PrintedParts(90000) == Parts(1, 0, 0)
    ensures ElapsedParts(90000) == Parts(25, 0, 0)
  {
  }

  /** The intended split of the whole duration. */
  function ElapsedParts(total: nat): Parts {
    Parts(total / 3600, (total / 60) % 60, total % 60)
  }

  /** The intended parts add up to the whole duration, with fewer than 60 minutes and
      seconds; for runs shorter than a day they agree with the printed ones. */
  lemma ElapsedPartsSum(total: nat)
    ensures var p := ElapsedParts(total);
      && p.minutes < 60 && p.seconds < 60
      && p.hours * 3600 + p.minutes * 60 + p.seconds == total
    ensures total < SecondsPerDay ==> ElapsedParts(total) == PrintedParts(total)
  {
    assert total == (total / 60) * 60 + total % 60;
    assert total / 60 == (total / 3600) * 60 + (total / 60) % 60;
  }
}
