/**
 * The cursor-paginated GraphQL collection loop that the download scripts repeat.
 *
 * The network is a deterministic, total function from a request (the `after:` cursor and
 * the `first:` page size) to a response. A run of the loop is described by its request log:
 * the exact sequence of requests it issues. `IsRequestLog` says what a complete run looks
 * like; the loops in ScoreDownload and PlayerSearch are proved to produce one.
 */
module Paging {

  type Cursor = string

  /** The pagination arguments of one GraphQL query. */
  datatype Request = Request(after: Cursor, first: nat)

  /** The `nodes` and `pageInfo { hasNextPage endCursor }` of one response. */
  datatype Page<T> = Page(nodes: seq<T>, hasNextPage: bool, endCursor: Cursor)

  /** One request either delivers a page or raises (transport or authentication failure). */
  datatype Response<T> = Delivered(page: Page<T>) | TransportFailed

  /** What a whole collection yields: every node, or nothing once a request has raised. */
  datatype Collection<T> = Collected(nodes: seq<T>) | Aborted

  /** The loop stops after this response: it raised, or its page reports no next page. */
  predicate Final<T>(r: Response<T>) {
    r.TransportFailed? || !r.page.hasNextPage
  }

  /** The request that follows response `r`, which did not stop the loop. */
  function Next<T>(r: Response<T>, first: nat): Request
    requires !Final(r)
  {
    Request(r.page.endCursor, first)
  }

  /** Request `k + 1` of `log` follows from the response to request `k`. */
  ghost predicate Chained<T>(fetch: Request -> Response<T>, first: nat, log: seq<Request>, k: nat)
    requires k + 1 < |log|
  {
    !Final(fetch(log[k])) && log[k + 1] == Next(fetch(log[k]), first)
  }

  /**
   * `log` is the whole sequence of requests the loop issues: it starts with the empty
   * cursor, each later request carries the end cursor of the page before it, and it stops
   * at the first response that is final.
   */
  ghost predicate IsRequestLog<T>(fetch: Request -> Response<T>, first: nat, log: seq<Request>)
  {
    && |log| > 0
    && log[0] == Request("", first)
    && (forall k: nat | k + 1 < |log| :: Chained(fetch, first, log, k))
    && Final(fetch(log[|log| - 1]))
  }

  /** Some page reachable by following the cursors reports that there is no next page
      (or a request raises); the source has no iteration cap, so it needs this to stop. */
  ghost predicate Terminates<T>(fetch: Request -> Response<T>, first: nat) {
    exists log :: IsRequestLog(fetch, first, log)
  }

  /** The nodes a response contributes. */
  function PageNodes<T>(r: Response<T>): seq<T> {
    if r.Delivered? then r.page.nodes else []
  }

  /** The nodes of the responses to `log`, concatenated in arrival order. */
  function Gathered<T>(fetch: Request -> Response<T>, log: seq<Request>): seq<T>
    decreases |log|
  {
    if log == [] then [] else Gathered(fetch, log[..|log| - 1]) + PageNodes(fetch(log[|log| - 1]))
  }

  /** The result of a run with request log `log`. */
  function Outcome<T>(fetch: Request -> Response<T>, log: seq<Request>): Collection<T>
    requires |log| > 0
  {
    if fetch(log[|log| - 1]).TransportFailed? then Aborted else Collected(Gathered(fetch, log))
  }

  /** The result of the collection loop, whichever complete log it follows. */
  ghost function Collect<T>(fetch: Request -> Response<T>, first: nat): Collection<T>
    requires Terminates(fetch, first)
  {
    var log :| IsRequestLog(fetch, first, log); Outcome(fetch, log)
  }

  lemma {:induction false} LogsAgreeUpTo<T>(fetch: Request -> Response<T>, first: nat,
                                            a: seq<Request>, b: seq<Request>, k: nat)
    requires IsRequestLog(fetch, first, a) && IsRequestLog(fetch, first, b)
    requires k < |a| && k < |b|
    ensures a[k] == b[k]
  {
    if k > 0 {
      LogsAgreeUpTo(fetch, first, a, b, k - 1);
      assert Chained(fetch, first, a, k - 1) && Chained(fetch, first, b, k - 1);
    }
  }

  /** A final response ends the log: only the last request of a complete log gets one. */
  lemma FinalIsLast<T>(fetch: Request -> Response<T>, first: nat, log: seq<Request>, k: nat)
    requires IsRequestLog(fetch, first, log)
    requires k < |log| && Final(fetch(log[k]))
    ensures k == |log| - 1
  {
    assert k + 1 < |log| ==> Chained(fetch, first, log, k);
  }

  /** A source has exactly one complete request log. So the loop is deterministic (running
      it twice against the same source issues the same requests and returns the same
      nodes), and every loop proved to follow some log follows this one. */
  lemma LogUnique<T>(fetch: Request -> Response<T>, first: nat, a: seq<Request>, b: seq<Request>)
    requires IsRequestLog(fetch, first, a) && IsRequestLog(fetch, first, b)
    ensures a == b
  {
    var m := if |a| <= |b| then |a| else |b|;
    LogsAgreeUpTo(fetch, first, a, b, m - 1);
    assert Final(fetch(a[m - 1])) && Final(fetch(b[m - 1]));
    FinalIsLast(fetch, first, a, m - 1);
    FinalIsLast(fetch, first, b, m - 1);
    forall k | 0 <= k < |a| ensures a[k] == b[k] {
      LogsAgreeUpTo(fetch, first, a, b, k);
    }
  }

  /** `Collect` is the outcome of the one complete log. */
  lemma CollectIsOutcome<T>(fetch: Request -> Response<T>, first: nat, log: seq<Request>)
    requires IsRequestLog(fetch, first, log)
    ensures Terminates(fetch, first)
    ensures Collect(fetch, first) == Outcome(fetch, log)
  {
    var chosen :| IsRequestLog(fetch, first, chosen) && Collect(fetch, first) == Outcome(fetch, chosen);
    LogUnique(fetch, first, chosen, log);
  }

  /** If the first page is final, exactly one request is issued, and its nodes are the
      whole result. */
  lemma SinglePage<T>(fetch: Request -> Response<T>, first: nat, log: seq<Request>)
    requires Final(fetch(Request("", first)))
    requires IsRequestLog(fetch, first, log)
    ensures log == [Request("", first)]
    ensures Outcome(fetch, log) == if fetch(Request("", first)).TransportFailed? then Aborted
                                   else Collected(fetch(Request("", first)).page.nodes)
  {
    FinalIsLast(fetch, first, log, 0);
    assert log[..0] == [];
    assert Gathered(fetch, log) == PageNodes(fetch(log[0]));
  }

  /** A delivered page with no nodes that still reports a next page does not stop the loop. */
  lemma EmptyPageContinues<T>(fetch: Request -> Response<T>, first: nat, log: seq<Request>)
    requires fetch(Request("", first)) == Delivered(Page([], true, "c1"))
    requires IsRequestLog(fetch, first, log)
    ensures |log| >= 2 && log[1] == Request("c1", first)
  {
    assert !Final(fetch(log[0]));
    assert Chained(fetch, first, log, 0);
  }

  /** Earlier requests' nodes come first: the nodes gathered over a prefix of the log are a
      prefix of the nodes gathered over the whole log. */
  lemma {:induction false} GatheredPrefix<T>(fetch: Request -> Response<T>, log: seq<Request>, k: nat)
    requires k <= |log|
    ensures Gathered(fetch, log[..k]) <= Gathered(fetch, log)
    decreases |log|
  {
    if k < |log| {
      assert log[..|log| - 1][..k] == log[..k];
      GatheredPrefix(fetch, log[..|log| - 1], k);
    } else {
      assert log[..k] == log;
    }
  }

  /** Pagination is transparent: the nodes of request `k` sit, in their page order, right
      after the nodes of the requests before it. */
  lemma {:induction false} GatheredPage<T>(fetch: Request -> Response<T>, log: seq<Request>, k: nat)
    requires k < |log|
    ensures Gathered(fetch, log[..k]) + PageNodes(fetch(log[k])) <= Gathered(fetch, log)
  {
    assert log[..k + 1][..k] == log[..k];
    GatheredPrefix(fetch, log, k + 1);
  }

  /** Three pages of two nodes each, the last one final, give all six nodes in arrival
      order after exactly three requests. */
  lemma ThreePages(log: seq<Request>)
    requires IsRequestLog(ThreePageSource, 2, log)
    ensures log == [Request("", 2), Request("p1", 2), Request("p2", 2)]
    ensures Outcome(ThreePageSource, log) == Collected([1, 2, 3, 4, 5, 6])
  {
    var expected := [Request("", 2), Request("p1", 2), Request("p2", 2)];
    assert Chained(ThreePageSource, 2, expected, 0);
    assert Chained(ThreePageSource, 2, expected, 1);
    assert IsRequestLog(ThreePageSource, 2, expected);
    LogUnique(ThreePageSource, 2, log, expected);
    assert expected[..2][..1] == expected[..1] && expected[..1][..0] == [];
    assert Gathered(ThreePageSource, expected[..1]) == [1, 2];
    assert Gathered(ThreePageSource, expected[..2]) == [1, 2, 3, 4];
  }

  /** A source serving pages [1, 2], [3, 4], [5, 6] behind cursors "", "p1", "p2". */
  function ThreePageSource(r: Request): Response<int> {
    if r.after == "" then Delivered(Page([1, 2], true, "p1"))
    else if r.after == "p1" then Delivered(Page([3, 4], true, "p2"))
    else Delivered(Page([5, 6], false, "p3"))
  }

  /** A failure on the second of three pages aborts the collection with no partial result. */
  lemma FailureOnSecondPage(log: seq<Request>)
    requires IsRequestLog(FailingSource, 2, log)
    ensures log == [Request("", 2), Request("p1", 2)]
    ensures Outcome(FailingSource, log) == Aborted
  {
    var expected := [Request("", 2), Request("p1", 2)];
    assert Chained(FailingSource, 2, expected, 0);
    assert IsRequestLog(FailingSource, 2, expected);
    LogUnique(FailingSource, 2, log, expected);
  }

  /** Like ThreePageSource, but the request for the second page raises. */
  function FailingSource(r: Request): Response<int> {
    if r.after == "" then Delivered(Page([1, 2], true, "p1"))
    else if r.after == "p1" then TransportFailed
    else Delivered(Page([5, 6], false, "p3"))
  }
}
