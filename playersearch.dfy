/**
 * search_player.py: page through every card of `football.allCards`, then keep the slug and
 * display name of each card's player. The writing of the JSON file is not modelled.
 */
module PlayerSearch {
  import opened Options
  import opened Paging

  /** The `slug` and `displayName` selected for a card's player. */
  datatype PlayerRef = PlayerRef(slug: string, displayName: string)

  /** A card's `player` entry: absent from the node, present but null, or a player. */
  datatype PlayerField = Missing | Null | Present(player: PlayerRef)

  /** A node of `allCards`. */
  datatype CardNode = CardNode(player: PlayerField)

  /** The `first:` argument of the `allCards` query. */
  const PageSize: nat := 100

  /**
   * `fetch_all_players`: start from the empty cursor, append each page's cards, and take the
   * page's end cursor after every page, whether or not it reports a next page. The cursor
   * taken from the last page is never sent, so the requests and the result are those of
   * the one complete request log, exactly as for the loop that takes the cursor only when
   * there is a next page.
   */
  method FetchAllPlayers(fetch: Request -> Response<CardNode>)
    returns (players: Collection<CardNode>, requests: seq<Request>)
    requires Terminates(fetch, PageSize)
    ensures IsRequestLog(fetch, PageSize, requests)
    ensures players == Outcome(fetch, requests)
  {
    ghost var log :| IsRequestLog(fetch, PageSize, log);
    var cards: seq<CardNode> := [];
    var hasNextPage := true;
    var cursor := "";
    requests := [];
    while hasNextPage
      invariant |requests| <= |log| && requests == log[..|requests|]
      invariant hasNextPage ==> |requests| < |log| && log[|requests|] == Request(cursor, PageSize)
      invariant !hasNextPage ==> requests == log && fetch(log[|log| - 1]).Delivered?
      invariant cards == Gathered(fetch, requests)
      decreases |log| - |requests|
    {
      var request := Request(cursor, PageSize);
      var result := fetch(request);
      ghost var before := requests;
      requests := requests + [request];
      assert requests == log[..|requests|] && requests[..|before|] == before;
      if result.TransportFailed? {
        FinalIsLast(fetch, PageSize, log, |before|);
        assert requests == log;
        return Aborted, requests;
      }
      cards := cards + result.page.nodes;
      cursor := result.page.endCursor;
      hasNextPage := result.page.hasNextPage;
      if hasNextPage {
        assert Chained(fetch, PageSize, log, |before|);
      } else {
        FinalIsLast(fetch, PageSize, log, |before|);
      }
    }
    players := Collected(cards);
  }

  /**
   * The `player_data` comprehension of `main`: for each card, in order, that has a `player`
   * entry, its player's slug and display name. A present but null player makes the
   * subscript raise, so there is no result.
   */
  function PlayerData(cards: seq<CardNode>): (r: Option<seq<PlayerRef>>)
    ensures r.Some? <==> forall i | 0 <= i < |cards| :: !cards[i].player.Null?
    ensures r.Some? ==> |r.value| <= |cards|
    ensures r.Some? ==> forall p | p in r.value :: CardNode(Present(p)) in cards
  {
    if cards == [] then Some([])
    else
      var rest := PlayerData(cards[1..]);
      assert forall c | c in cards[1..] :: c in cards;
      match cards[0].player
      case Missing => rest
      case Null => None
      case Present(p) => if rest.None? then None else Some([p] + rest.value)
  }

  /** Card order is kept: the data for `a + b` is the data for `a` followed by that for `b`. */
  lemma {:induction false} PlayerDataAppend(a: seq<CardNode>, b: seq<CardNode>)
    ensures PlayerData(a + b) ==
              if PlayerData(a).Some? && PlayerData(b).Some?
              then Some(PlayerData(a).value + PlayerData(b).value)
              else None
  {
    if a == [] {
      assert a + b == b;
      assert PlayerData(a) == Some([]);
      if PlayerData(b).Some? {
        assert [] + PlayerData(b).value == PlayerData(b).value;
      }
    } else {
      assert (a + b)[1..] == a[1..] + b;
      assert (a + b)[0] == a[0];
      PlayerDataAppend(a[1..], b);
      if a[0].player.Present? && PlayerData(a[1..]).Some? && PlayerData(b).Some? {
        var p, x, y := a[0].player.player, PlayerData(a[1..]).value, PlayerData(b).value;
        assert [p] + (x + y) == ([p] + x) + y;
      }
    }
  }

  /** Cards without a `player` entry are dropped; every other card yields exactly one entry,
      so the length is the number of cards that have the entry. */
  lemma {:induction false} PlayerDataLength(cards: seq<CardNode>)
    requires PlayerData(cards).Some?
    ensures |PlayerData(cards).value| == |cards| - MissingCount(cards)
  {
    if cards != [] {
      PlayerDataLength(cards[1..]);
    }
  }

  /** The number of cards with no `player` entry. */
  function MissingCount(cards: seq<CardNode>): nat {
    if cards == [] then 0 else (if cards[0].player.Missing? then 1 else 0) + MissingCount(cards[1..])
  }
}
