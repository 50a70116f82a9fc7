/**
 * The score download scripts (dl_so5.py for a league's clubs, dl_my_players.py for a user's
 * cards). Both carry the same `fetch_player_scores` loop, the same `format_datetime` and the
 * same per-player CSV step; they differ only in where the player slugs come from.
 *
 * Requests for a player's scores are a function `fetch(slug)` from request to response.
 * A run writes files in order; the file system itself is not modelled, only the sequence of
 * (path, rows) writes.
 */
module ScoreDownload {
  import opened Options
  import opened Paging
  import opened GameDate

  /** A node of `allSo5Scores`: the score and the text of `game.date`. */
  datatype ScoreNode = ScoreNode(score: real, gameDate: string)

  /** A row written by the CSV writer with the field names `datetime`, `score`. */
  datatype CsvRow = CsvRow(datetime: string, score: real)

  /** One file written by a run: where it went and its rows after the header. */
  datatype CsvFile = CsvFile(path: string, rows: seq<CsvRow>)

  /** What a run has written so far, and whether it is still going (no exception raised). */
  datatype RunState = RunState(files: seq<CsvFile>, running: bool)

  /** The `first:` argument of the `allSo5Scores` query. */
  const PageSize: nat := 50

  /**
   * `fetch_player_scores`: start from the empty cursor, append each page's nodes, and take
   * the page's end cursor only while it reports a next page. The result is the nodes of the
   * one complete request log, in arrival order, or Aborted when a request raised.
   */
  method FetchPlayerScores(fetch: Request -> Response<ScoreNode>)
    returns (allScores: Collection<ScoreNode>, requests: seq<Request>)
    requires Terminates(fetch, PageSize)
    ensures IsRequestLog(fetch, PageSize, requests)
    ensures allScores == Outcome(fetch, requests)
  {
    ghost var log :| IsRequestLog(fetch, PageSize, log);
    var scores: seq<ScoreNode> := [];
    var afterCursor := "";
    var hasNextPage := true;
    requests := [];
    while hasNextPage
      invariant |requests| <= |log| && requests == log[..|requests|]
      invariant hasNextPage ==> |requests| < |log| && log[|requests|] == Request(afterCursor, PageSize)
      invariant !hasNextPage ==> requests == log && fetch(log[|log| - 1]).Delivered?
      invariant scores == Gathered(fetch, requests)
      decreases |log| - |requests|
    {
      var request := Request(afterCursor, PageSize);
      var response := fetch(request);
      ghost var before := requests;
      requests := requests + [request];
      assert requests == log[..|requests|] && requests[..|before|] == before;
      if response.TransportFailed? {
        FinalIsLast(fetch, PageSize, log, |before|);
        assert requests == log;
        return Aborted, requests;
      }
      scores := scores + response.page.nodes;
      hasNextPage := response.page.hasNextPage;
      if hasNextPage {
        assert Chained(fetch, PageSize, log, |before|);
        afterCursor := response.page.endCursor;
      } else {
        FinalIsLast(fetch, PageSize, log, |before|);
      }
    }
    allScores := Collected(scores);
  }

  /** `s` in reverse order. */
  function Reversed<T>(s: seq<T>): seq<T> {
    if s == [] then [] else [s[|s| - 1]] + Reversed(s[..|s| - 1])
  }

  lemma {:induction false} ReversedIndex<T>(s: seq<T>, k: nat)
    requires k < |s|
    ensures |Reversed(s)| == |s| && Reversed(s)[k] == s[|s| - 1 - k]
  {
    if k > 0 {
      ReversedIndex(s[..|s| - 1], k - 1);
    } else if |s| > 1 {
      ReversedIndex(s[..|s| - 1], 0);
    } else {
      assert Reversed(s[..0]) == [];
    }
  }

  /** `score_data.reverse()`: the list reversed in place, oldest score first. */
  method ReverseInPlace<T>(a: array<T>)
    modifies a
    ensures a[..] == Reversed(old(a[..]))
  {
    var n := a.Length;
    var i := 0;
    while i < n / 2
      invariant 0 <= i <= n / 2
      invariant forall k | 0 <= k < i :: a[k] == old(a[n - 1 - k]) && a[n - 1 - k] == old(a[k])
      invariant forall k | i <= k < n - i :: a[k] == old(a[k])
    {
      a[i], a[n - 1 - i] := a[n - 1 - i], a[i];
      i := i + 1;
    }
    ReversedByIndex(old(a[..]), a[..]);
  }

  /** A list whose element k is element n-1-k of `s` is the reversal of `s`. */
  lemma ReversedByIndex<T>(s: seq<T>, r: seq<T>)
    requires |r| == |s| && forall k | 0 <= k < |s| :: r[k] == s[|s| - 1 - k]
    ensures r == Reversed(s)
  {
    if s == [] {
      assert Reversed(s) == [];
    } else {
      ReversedIndex(s, 0);
    }
    forall k | 0 <= k < |s| ensures r[k] == Reversed(s)[k] {
      ReversedIndex(s, k);
    }
  }

  /** The row written for one node, or None where `format_datetime` raises on its date. */
  function CsvRowFor(node: ScoreNode): (row: Option<CsvRow>)
    ensures row.Some? <==> FormatDatetime(node.gameDate).Some?
    ensures row.Some? ==> row.value.score == node.score && row.value.datetime == FormatDatetime(node.gameDate).value
  {
    match FormatDatetime(node.gameDate)
    case None => None
    case Some(formattedDate) => Some(CsvRow(formattedDate, node.score))
  }

  /**
   * What a writer emits for `items` when making a row can raise: one row per item, in
   * order, up to the first item without a row, where the writing stops. The flag says
   * whether the writer got through every item.
   */
  function RowsUntilFailure<A, B>(items: seq<A>, rowOf: A -> Option<B>): (seq<B>, bool) {
    if items == [] then ([], true)
    else
      match rowOf(items[0])
      case None => ([], false)
      case Some(row) =>
        var rest := RowsUntilFailure(items[1..], rowOf);
        ([row] + rest.0, rest.1)
  }

  /** The rows written: one per item from the start, each that item's row, stopping exactly
      at the first item without a row; the flag is set exactly when no item lacks one. */
  lemma {:induction false} RowsUntilFailureSpec<A, B>(items: seq<A>, rowOf: A -> Option<B>)
    ensures var out := RowsUntilFailure(items, rowOf);
      && |out.0| <= |items|
      && (out.1 <==> |out.0| == |items|)
      && (forall i | 0 <= i < |out.0| :: rowOf(items[i]) == Some(out.0[i]))
      && (!out.1 ==> rowOf(items[|out.0|]).None?)
  {
    if items != [] && rowOf(items[0]).Some? {
      var rest := RowsUntilFailure(items[1..], rowOf);
      RowsUntilFailureSpec(items[1..], rowOf);
      var out := RowsUntilFailure(items, rowOf);
      assert out.0 == [rowOf(items[0]).value] + rest.0;
      forall i | 1 <= i < |out.0| ensures rowOf(items[i]) == Some(out.0[i]) {
        assert out.0[i] == rest.0[i - 1] && items[i] == items[1..][i - 1];
      }
    }
  }

  /** Those facts determine what is written: rows and a flag that meet them are the
      writer's output. */
  lemma RowsMatch<A, B>(items: seq<A>, rowOf: A -> Option<B>, rows: seq<B>, complete: bool)
    requires |rows| <= |items| && (complete <==> |rows| == |items|)
    requires forall k | 0 <= k < |rows| :: rowOf(items[k]) == Some(rows[k])
    requires !complete ==> rowOf(items[|rows|]).None?
    ensures (rows, complete) == RowsUntilFailure(items, rowOf)
  {
    var out := RowsUntilFailure(items, rowOf);
    RowsUntilFailureSpec(items, rowOf);
    assert forall k | 0 <= k < |rows| :: rowOf(items[k]).Some?;
    assert forall k | 0 <= k < |out.0| :: rowOf(items[k]).Some?;
    assert |out.0| == |rows|;
    forall k | 0 <= k < |rows| ensures rows[k] == out.0[k] {
      assert rowOf(items[k]) == Some(rows[k]) && rowOf(items[k]) == Some(out.0[k]);
    }
    assert rows == out.0;
  }

  /** The rows `main` writes for the (already reversed) scores. */
  function CsvRows(scores: seq<ScoreNode>): (seq<CsvRow>, bool) {
    RowsUntilFailure(scores, CsvRowFor)
  }

  /** The row-writing loop of `main` over the (already reversed) scores. */
  method WriteRows(a: array<ScoreNode>) returns (rows: seq<CsvRow>, complete: bool)
    ensures (rows, complete) == CsvRows(a[..])
  {
    rows := [];
    var i := 0;
    while i < a.Length
      invariant 0 <= i <= a.Length && |rows| == i
      invariant forall k | 0 <= k < i :: CsvRowFor(a[k]) == Some(rows[k])
    {
      var row := CsvRowFor(a[i]);
      if row.None? {
        RowsMatch(a[..], CsvRowFor, rows, false);
        return rows, false;
      }
      rows := rows + [row.value];
      i := i + 1;
    }
    RowsMatch(a[..], CsvRowFor, rows, true);
    complete := true;
  }

  /** `<data_dir>/<slug>.csv`. */
  function CsvPath(dataDir: string, slug: string): string {
    dataDir + "/" + slug + ".csv"
  }

  /**
   * What one player's turn of `main` writes: nothing if fetching raised (and the run stops),
   * nothing if the player has no scores, otherwise the player's file with the scores
   * reversed; the run stops if a game date did not parse.
   */
  ghost function PlayerStep(dataDir: string, slug: string, fetch: Request -> Response<ScoreNode>): RunState
    requires Terminates(fetch, PageSize)
  {
    match Collect(fetch, PageSize)
    case Aborted => RunState([], false)
    case Collected(nodes) =>
      if nodes == [] then RunState([], true)
      else
        var out := CsvRows(Reversed(nodes));
        RunState([CsvFile(CsvPath(dataDir, slug), out.0)], out.1)
  }

  /** One player's turn of `main`. */
  method SavePlayer(dataDir: string, slug: string, fetch: Request -> Response<ScoreNode>)
    returns (written: seq<CsvFile>, ok: bool)
    requires Terminates(fetch, PageSize)
    ensures RunState(written, ok) == PlayerStep(dataDir, slug, fetch)
  {
    var scoreData, requests := FetchPlayerScores(fetch);
    CollectIsOutcome(fetch, PageSize, requests);
    if scoreData.Aborted? {
      return [], false;
    }
    if scoreData.nodes == [] {
      return [], true;
    }
    var nodes := scoreData.nodes;
    var a := new ScoreNode[|nodes|](k requires 0 <= k < |nodes| => nodes[k]);
    assert a[..] == nodes;
    ReverseInPlace(a);
    var rows, complete := WriteRows(a);
    written, ok := [CsvFile(CsvPath(dataDir, slug), rows)], complete;
  }

  /**
   * Writing the reversed list: row i is the row of the item i places from the end, and
   * every item gets its row exactly when no item lacks one.
   */
  lemma {:induction false} RowsOldestFirst<A, B>(items: seq<A>, rowOf: A -> Option<B>)
    ensures var out := RowsUntilFailure(Reversed(items), rowOf);
      && |out.0| <= |items|
      && (out.1 ==> |out.0| == |items|)
      && (forall i | 0 <= i < |out.0| :: rowOf(items[|items| - 1 - i]) == Some(out.0[i]))
      && (out.1 <==> forall x | x in items :: rowOf(x).Some?)
  {
    var rev := Reversed(items);
    var out := RowsUntilFailure(rev, rowOf);
    RowsUntilFailureSpec(rev, rowOf);
    if items == [] {
      assert rev == [];
    } else {
      ReversedIndex(items, 0);
    }
    forall i | 0 <= i < |out.0| ensures rowOf(items[|items| - 1 - i]) == Some(out.0[i]) {
      ReversedIndex(items, i);
    }
    if out.1 {
      forall x | x in items ensures rowOf(x).Some? {
        var j :| 0 <= j < |items| && items[j] == x;
        ReversedIndex(items, |items| - 1 - j);
        assert rowOf(rev[|items| - 1 - j]) == Some(out.0[|items| - 1 - j]);
      }
    } else {
      ReversedIndex(items, |out.0|);
      assert rowOf(rev[|out.0|]).None?;
    }
  }

  /**
   * A player with scores gets exactly one file, `<data_dir>/<slug>.csv`, whose rows are the
   * collected scores oldest first: row i is the row (score and formatted date) of the node
   * i places from the end of the collected list. Every node gets its row, and the run goes
   * on, exactly when every game date parses.
   */
  lemma {:induction false} PlayerFile(dataDir: string, slug: string, fetch: Request -> Response<ScoreNode>, nodes: seq<ScoreNode>)
    requires Terminates(fetch, PageSize) && Collect(fetch, PageSize) == Collected(nodes)
    requires nodes != []
    ensures var step := PlayerStep(dataDir, slug, fetch);
      && |step.files| == 1 && step.files[0].path == CsvPath(dataDir, slug)
      && |step.files[0].rows| <= |nodes|
      && (forall i | 0 <= i < |step.files[0].rows| :: CsvRowFor(nodes[|nodes| - 1 - i]) == Some(step.files[0].rows[i]))
      && (step.running <==> forall n | n in nodes :: CsvRowFor(n).Some?)
      && (step.running ==> |step.files[0].rows| == |nodes|)
  {
    var out := RowsUntilFailure(Reversed(nodes), CsvRowFor);
    RowsOldestFirst(nodes, CsvRowFor);
    ReversedIndex(nodes, 0);
    assert PlayerStep(dataDir, slug, fetch) == RunState([CsvFile(CsvPath(dataDir, slug), out.0)], out.1);
  }

  /** A player whose collected list is empty gets no file, and the run goes on; a player
      whose fetch raised gets no file, and the run stops. */
  lemma NoScoresNoFile(dataDir: string, slug: string, fetch: Request -> Response<ScoreNode>)
    requires Terminates(fetch, PageSize)
    requires Collect(fetch, PageSize) == Collected([]) || Collect(fetch, PageSize) == Aborted
    ensures PlayerStep(dataDir, slug, fetch).files == []
    ensures PlayerStep(dataDir, slug, fetch).running <==> Collect(fetch, PageSize).Collected?
  {
  }

  /** Every player in `slugs` has a terminating score source. */
  ghost predicate AllTerminate(slugs: seq<string>, fetch: string -> Request -> Response<ScoreNode>) {
    forall i | 0 <= i < |slugs| :: Terminates(fetch(slugs[i]), PageSize)
  }

  /** What each player's turn writes, player by player. */
  ghost function Steps(dataDir: string, slugs: seq<string>, fetch: string -> Request -> Response<ScoreNode>): (steps: seq<RunState>)
    requires AllTerminate(slugs, fetch)
    ensures |steps| == |slugs|
  {
    seq(|slugs|, i requires 0 <= i < |slugs| && AllTerminate(slugs, fetch) =>
                   PlayerStep(dataDir, slugs[i], fetch(slugs[i])))
  }

  /** Turns taken one after the other: each turn's files are appended until a turn raises,
      after which nothing more is written. */
  function Combine(steps: seq<RunState>): RunState {
    if steps == [] then RunState([], true)
    else
      var before := Combine(steps[..|steps| - 1]);
      if !before.running then before
      else RunState(before.files + steps[|steps| - 1].files, steps[|steps| - 1].running)
  }

  /** The players of `slugs` handled one after the other until one raises. */
  ghost function Run(dataDir: string, slugs: seq<string>, fetch: string -> Request -> Response<ScoreNode>): RunState
    requires AllTerminate(slugs, fetch)
  {
    Combine(Steps(dataDir, slugs, fetch))
  }

  /**
   * The loop over player slugs in `main`: each player in turn, until one raises. In
   * dl_my_players.py the slugs are those of the user's cards, in the order listed.
   */
  method SavePlayers(dataDir: string, slugs: seq<string>, fetch: string -> Request -> Response<ScoreNode>)
    returns (files: seq<CsvFile>, completed: bool)
    requires AllTerminate(slugs, fetch)
    ensures RunState(files, completed) == Run(dataDir, slugs, fetch)
  {
    ghost var steps := Steps(dataDir, slugs, fetch);
    files := [];
    for i := 0 to |slugs|
      invariant RunState(files, true) == Combine(steps[..i])
    {
      var written, ok := SavePlayer(dataDir, slugs[i], fetch(slugs[i]));
      assert RunState(written, ok) == steps[i];
      CombineNext(steps, i);
      files := files + written;
      if !ok {
        CombineStopped(steps, i + 1);
        return files, false;
      }
    }
    assert steps[..|slugs|] == steps;
    completed := true;
  }

  /** One more turn after turns that did not raise. */
  lemma CombineNext(steps: seq<RunState>, i: nat)
    requires i < |steps| && Combine(steps[..i]).running
    ensures Combine(steps[..i + 1]) ==
              RunState(Combine(steps[..i]).files + steps[i].files, steps[i].running)
  {
    assert steps[..i + 1][..i] == steps[..i];
  }

  /** Once a turn raises, the later turns change nothing. */
  lemma {:induction false} CombineStopped(steps: seq<RunState>, i: nat)
    requires i <= |steps|
    requires !Combine(steps[..i]).running
    ensures Combine(steps) == Combine(steps[..i])
    decreases |steps| - i
  {
    if i < |steps| {
      assert steps[..i + 1][..i] == steps[..i];
      CombineStopped(steps, i + 1);
    } else {
      assert steps[..i] == steps;
    }
  }

  /**
   * Turns are taken strictly one after the other: the turns `a + b` write the files of the
   * turns `a` and then, if those did not raise, the files of the turns `b`.
   */
  lemma {:induction false} CombineAppend(a: seq<RunState>, b: seq<RunState>)
    ensures Combine(a + b) ==
              if Combine(a).running
              then RunState(Combine(a).files + Combine(b).files, Combine(b).running)
              else Combine(a)
    decreases |b|
  {
    if b == [] {
      assert a + b == a;
      assert Combine(a).files + [] == Combine(a).files;
    } else {
      var init, last := b[..|b| - 1], b[|b| - 1];
      assert (a + b)[..|a + b| - 1] == a + init && (a + b)[|a + b| - 1] == last;
      CombineAppend(a, init);
      var ca, ci := Combine(a), Combine(init);
      if ca.running && ci.running {
        assert ca.files + ci.files + last.files == ca.files + (ci.files + last.files);
      }
    }
  }

  /** The turns of `a + b` are the turns of `a` followed by those of `b`. */
  lemma StepsAppend(dataDir: string, a: seq<string>, b: seq<string>, fetch: string -> Request -> Response<ScoreNode>)
    requires AllTerminate(a, fetch) && AllTerminate(b, fetch)
    ensures AllTerminate(a + b, fetch)
    ensures Steps(dataDir, a + b, fetch) == Steps(dataDir, a, fetch) + Steps(dataDir, b, fetch)
  {
    TerminateAppend(a, b, fetch);
    var ab, sa, sb := Steps(dataDir, a + b, fetch), Steps(dataDir, a, fetch), Steps(dataDir, b, fetch);
    forall k | 0 <= k < |ab| ensures ab[k] == (sa + sb)[k] {
      if k < |a| {
        assert (a + b)[k] == a[k];
        assert ab[k] == sa[k];
      } else {
        assert (a + b)[k] == b[k - |a|];
        assert ab[k] == sb[k - |a|];
      }
    }
    assert ab == sa + sb;
  }

  /** The players of `a + b` terminate when those of `a` and of `b` do. */
  lemma TerminateAppend(a: seq<string>, b: seq<string>, fetch: string -> Request -> Response<ScoreNode>)
    requires AllTerminate(a, fetch) && AllTerminate(b, fetch)
    ensures AllTerminate(a + b, fetch)
  {
    forall i | 0 <= i < |a + b| ensures Terminates(fetch((a + b)[i]), PageSize) {
      if i < |a| { assert (a + b)[i] == a[i]; } else { assert (a + b)[i] == b[i - |a|]; }
    }
  }

  /** The turns of the first `k` players are the first `k` turns. */
  lemma StepsPrefix(dataDir: string, slugs: seq<string>, fetch: string -> Request -> Response<ScoreNode>, k: nat)
    requires AllTerminate(slugs, fetch) && k <= |slugs|
    ensures AllTerminate(slugs[..k], fetch)
    ensures Steps(dataDir, slugs, fetch)[..k] == Steps(dataDir, slugs[..k], fetch)
  {
    assert AllTerminate(slugs[..k], fetch) by {
      forall i | 0 <= i < k ensures Terminates(fetch(slugs[..k][i]), PageSize) {
        assert slugs[..k][i] == slugs[i];
      }
    }
  }

  /** A league's clubs with the slugs of their active players (the club queries). */
  datatype Club = Club(slug: string, players: seq<string>)

  /** Every club's players, club after club. */
  function LeaguePlayers(clubs: seq<Club>): seq<string>
    decreases |clubs|
  {
    if clubs == [] then [] else LeaguePlayers(clubs[..|clubs| - 1]) + clubs[|clubs| - 1].players
  }

  /**
   * `main` of dl_so5.py: for each club in turn, each of its active players in turn. The run
   * writes what handling all the league's players as one list would write.
   */
  method SaveLeague(dataDir: string, clubs: seq<Club>, fetch: string -> Request -> Response<ScoreNode>)
    returns (files: seq<CsvFile>, completed: bool)
    requires AllTerminate(LeaguePlayers(clubs), fetch)
    ensures RunState(files, completed) == Run(dataDir, LeaguePlayers(clubs), fetch)
  {
    files := [];
    assert clubs[..0] == [];
    for c := 0 to |clubs|
      invariant AllTerminate(LeaguePlayers(clubs[..c]), fetch)
      invariant RunState(files, true) == Run(dataDir, LeaguePlayers(clubs[..c]), fetch)
    {
      NextClub(clubs, c, fetch);
      var written, ok := SavePlayers(dataDir, clubs[c].players, fetch);
      ghost var done := LeaguePlayers(clubs[..c]);
      StepsAppend(dataDir, done, clubs[c].players, fetch);
      CombineAppend(Steps(dataDir, done, fetch), Steps(dataDir, clubs[c].players, fetch));
      files := files + written;
      if !ok {
        ghost var all, upTo := LeaguePlayers(clubs), LeaguePlayers(clubs[..c + 1]);
        LeaguePlayersPrefix(clubs, c + 1);
        assert all[..|upTo|] == upTo;
        StepsPrefix(dataDir, all, fetch, |upTo|);
        CombineStopped(Steps(dataDir, all, fetch), |upTo|);
        return files, false;
      }
    }
    assert clubs[..|clubs|] == clubs;
    completed := true;
  }

  /** Taking one more club appends its players. */
  lemma NextClub(clubs: seq<Club>, c: nat, fetch: string -> Request -> Response<ScoreNode>)
    requires c < |clubs|
    requires AllTerminate(LeaguePlayers(clubs), fetch)
    ensures LeaguePlayers(clubs[..c + 1]) == LeaguePlayers(clubs[..c]) + clubs[c].players
    ensures AllTerminate(clubs[c].players, fetch) && AllTerminate(LeaguePlayers(clubs[..c + 1]), fetch)
  {
    LeaguePlayersNext(clubs, c);
    LeaguePlayersPrefix(clubs, c + 1);
    TerminateParts(LeaguePlayers(clubs), LeaguePlayers(clubs[..c]), clubs[c].players, fetch);
  }

  lemma LeaguePlayersNext(clubs: seq<Club>, c: nat)
    requires c < |clubs|
    ensures LeaguePlayers(clubs[..c + 1]) == LeaguePlayers(clubs[..c]) + clubs[c].players
  {
    assert clubs[..c + 1][..c] == clubs[..c];
  }

  /** The players of a prefix of a list of terminating players terminate, and so do those
      of its last part. */
  lemma TerminateParts(all: seq<string>, done: seq<string>, players: seq<string>, fetch: string -> Request -> Response<ScoreNode>)
    requires AllTerminate(all, fetch) && done + players <= all
    ensures AllTerminate(players, fetch) && AllTerminate(done + players, fetch)
  {
    var upTo := done + players;
    forall i | 0 <= i < |upTo| ensures Terminates(fetch(upTo[i]), PageSize) {
      assert upTo[i] == all[i];
    }
    forall i | 0 <= i < |players| ensures Terminates(fetch(players[i]), PageSize) {
      assert players[i] == upTo[|done| + i];
    }
  }

  /** The players of the first `c` clubs are a prefix of the league's players. */
  lemma {:induction false} LeaguePlayersPrefix(clubs: seq<Club>, c: nat)
    requires c <= |clubs|
    ensures LeaguePlayers(clubs[..c]) <= LeaguePlayers(clubs)
    decreases |clubs|
  {
    if c < |clubs| {
      assert clubs[..|clubs| - 1][..c] == clubs[..c];
      LeaguePlayersPrefix(clubs[..|clubs| - 1], c);
    } else {
      assert clubs[..c] == clubs;
    }
  }
}
