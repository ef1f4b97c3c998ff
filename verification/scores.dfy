/** The body of the `/api/scores` handler: normalise the live feed, group it by league, and for
    each league of the fixed table pick its live fixtures or, when it has none, the day's fixtures
    that have not started, ordered by kick-off. */
module Scores {
  import opened PyText
  import opened Seqs
  import opened Fixtures
  import opened KickoffSort
  import opened Season

  /** One row of the fixed `LEAGUES` table. */
  datatype League = League(id: int, slug: string, name: string)

  const Leagues: seq<League> := [
    League(39, "pl", "Premier League"),
    League(40, "ch", "Championship"),
    League(41, "l1", "League One"),
    League(42, "l2", "League Two")
  ]

  const Timezone: string := "Europe/London"

  /** `result[slug]`: one league's entry of the response. */
  datatype Board = Board(leagueId: int, leagueName: string, live: seq<Match>, upcoming: seq<Match>)

  /** The response body, less its `generatedAt` clock reading. */
  datatype Scoreboard = Scoreboard(timezone: string, season: int, leagues: map<string, Board>)

  /** The slugs of the rows of `ls`. */
  function Slugs(ls: seq<League>): (r: set<string>)
    ensures forall i :: 0 <= i < |ls| ==> ls[i].slug in r
    ensures forall x :: x in r <==> exists i :: 0 <= i < |ls| && ls[i].slug == x
  {
    if ls == [] then {} else Slugs(ls[..|ls| - 1]) + {ls[|ls| - 1].slug}
  }

  /** No two table rows share a slug or an id. */
  lemma LeagueTableDistinct()
    ensures forall i, j :: 0 <= i < j < |Leagues| ==> Leagues[i].slug != Leagues[j].slug
    ensures forall i, j :: 0 <= i < j < |Leagues| ==> Leagues[i].id != Leagues[j].id
  {
    assert Leagues[0].slug[0] == 'p' && Leagues[1].slug[0] == 'c';
    assert Leagues[2].slug[1] == '1' && Leagues[3].slug[1] == '2';
  }

  // ---------------------------------------------------------------- the pieces of the merge

  /** `[normalize_fixture(x) for x in items]` */
  function NormalizeAll(items: seq<RawItem>): (ms: seq<Match>)
    ensures |ms| == |items|
  {
    seq(|items|, i requires 0 <= i < |items| => NormalizeFixture(items[i]))
  }

  /** The test `f["leagueId"] == lid`. */
  function InLeague(lid: int): Match -> bool {
    (m: Match) => m.leagueId == lid
  }

  /** The fixtures of league `lid`, in feed order. */
  function LeagueFixtures(s: seq<Match>, lid: int): seq<Match> {
    Filter(s, InLeague(lid))
  }

  /** The test `f["isUpcoming"]`. */
  predicate NotStarted(m: Match) {
    m.isUpcoming
  }

  /** `[f for f in day_norm if f["isUpcoming"]]` */
  function UpcomingOnly(s: seq<Match>): seq<Match> {
    Filter(s, NotStarted)
  }

  /** The entry built for league `lg` from the normalised live fixtures and that league's raw
      fixtures of the day: its live fixtures, and the day's not-started ones sorted by kick-off
      only when it has no live fixture. */
  function BoardFor(lg: League, live: seq<Match>, dayItems: seq<RawItem>): Board {
    var leagueLive := LeagueFixtures(live, lg.id);
    Board(lg.id, lg.name, leagueLive,
          if leagueLive == [] then SortByKickoff(UpcomingOnly(NormalizeAll(dayItems))) else [])
  }

  // ---------------------------------------------------------------- the handler

  /** `byLeague` maps each league id present in `live` to its fixtures in feed order. */
  ghost predicate GroupedByLeague(byLeague: map<int, seq<Match>>, live: seq<Match>) {
    && (forall lid :: lid in byLeague <==> LeagueFixtures(live, lid) != [])
    && (forall lid :: lid in byLeague ==> byLeague[lid] == LeagueFixtures(live, lid))
  }

  /** `live_by_league`: each league id present in the feed, mapped to its fixtures in feed order. */
  method GroupByLeague(live: seq<Match>) returns (byLeague: map<int, seq<Match>>)
    ensures forall lid :: lid in byLeague <==> LeagueFixtures(live, lid) != []
    ensures forall lid :: lid in byLeague ==> byLeague[lid] == LeagueFixtures(live, lid)
  {
    byLeague := map[];
    for i := 0 to |live|
      invariant forall lid :: lid in byLeague <==> LeagueFixtures(live[..i], lid) != []
      invariant forall lid :: lid in byLeague ==> byLeague[lid] == LeagueFixtures(live[..i], lid)
    {
      var f := live[i];
      var bucket := if f.leagueId in byLeague then byLeague[f.leagueId] else [];
      byLeague := byLeague[f.leagueId := bucket + [f]];
      assert live[..i + 1][..i] == live[..i];
      assert forall lid ::
        LeagueFixtures(live[..i + 1], lid) == LeagueFixtures(live[..i], lid) + (if f.leagueId == lid then [f] else []);
    }
    assert live[..|live|] == live;
  }

  /** One pass of the loop over `LEAGUES`: the league's live fixtures from the grouping, or, when
      there are none, its day fixtures normalised, cut to the not-started ones and sorted. */
  method LeagueBoard(lg: League, live: seq<Match>, byLeague: map<int, seq<Match>>, dayItems: seq<RawItem>)
    returns (entry: Board)
    requires GroupedByLeague(byLeague, live)
    ensures entry == BoardFor(lg, live, dayItems)
  {
    var leagueLive := if lg.id in byLeague then byLeague[lg.id] else [];
    var upcoming := [];
    if leagueLive == [] {
      var dayNorm := NormalizeAll(dayItems);
      upcoming := UpcomingOnly(dayNorm);
      upcoming := SortByKickoff(upcoming);
    }
    entry := Board(lg.id, lg.name, leagueLive, upcoming);
  }

  /** The first `n` table leagues have their entries in `result`, each as `BoardFor` builds it. */
  ghost predicate BoardsUpTo(result: map<string, Board>, live: seq<Match>, dayItems: int -> seq<RawItem>, n: nat)
    requires n <= |Leagues|
  {
    forall j :: 0 <= j < n ==>
      Leagues[j].slug in result && result[Leagues[j].slug] == BoardFor(Leagues[j], live, dayItems(Leagues[j].id))
  }

  /** Storing the next league's entry keeps the earlier leagues' entries, the slugs being distinct. */
  lemma StoreNextBoard(result: map<string, Board>, live: seq<Match>, dayItems: int -> seq<RawItem>, i: nat)
    requires i < |Leagues| && BoardsUpTo(result, live, dayItems, i)
    ensures BoardsUpTo(result[Leagues[i].slug := BoardFor(Leagues[i], live, dayItems(Leagues[i].id))], live, dayItems, i + 1)
  {
    LeagueTableDistinct();
  }

  lemma SlugsOfPrefix(i: nat)
    requires i < |Leagues|
    ensures Slugs(Leagues[..i + 1]) == Slugs(Leagues[..i]) + {Leagues[i].slug}
  {
    assert Leagues[..i + 1][..i] == Leagues[..i];
  }

  /** `scores()` on the date `year`/`month` (London time), with the live feed's fixtures and, per
      league id, the fixtures of that league on the day. */
  method Scores(year: int, month: int, liveItems: seq<RawItem>, dayItems: int -> seq<RawItem>)
    returns (board: Scoreboard)
    requires 1 <= month <= 12
    ensures board.timezone == Timezone && board.season == SeasonStartYear(year, month)
    ensures board.leagues.Keys == Slugs(Leagues)
    ensures forall i :: 0 <= i < |Leagues| ==>
      board.leagues[Leagues[i].slug] == BoardFor(Leagues[i], NormalizeAll(liveItems), dayItems(Leagues[i].id))
  {
    var season := SeasonStartYear(year, month);
    var liveNorm := NormalizeAll(liveItems);
    var liveByLeague := GroupByLeague(liveNorm);
    var result: map<string, Board> := map[];
    for i := 0 to |Leagues|
      invariant result.Keys == Slugs(Leagues[..i])
      invariant BoardsUpTo(result, liveNorm, dayItems, i)
    {
      var lg := Leagues[i];
      var entry := LeagueBoard(lg, liveNorm, liveByLeague, dayItems(lg.id));
      StoreNextBoard(result, liveNorm, dayItems, i);
      result := result[lg.slug := entry];
      SlugsOfPrefix(i);
    }
    assert Leagues[..|Leagues|] == Leagues;
    board := Scoreboard(Timezone, season, result);
  }

  // ---------------------------------------------------------------- what the merge promises

  /** A league's live list holds exactly the feed's fixtures of that league, each as often as in
      the feed, and grouping respects feed order: the fixtures of an earlier part of the feed come
      before those of a later part. */
  lemma LeagueFixturesExact(s: seq<Match>, lid: int)
    ensures forall m :: m in LeagueFixtures(s, lid) <==> m in s && m.leagueId == lid
    ensures forall m :: multiset(LeagueFixtures(s, lid))[m] == if m.leagueId == lid then multiset(s)[m] else 0
    ensures forall k :: 0 <= k <= |s| ==> LeagueFixtures(s, lid) == LeagueFixtures(s[..k], lid) + LeagueFixtures(s[k..], lid)
  {
    FilterMembership(s, InLeague(lid));
    FilterMultiset(s, InLeague(lid));
    forall k | 0 <= k <= |s|
      ensures LeagueFixtures(s, lid) == LeagueFixtures(s[..k], lid) + LeagueFixtures(s[k..], lid)
    {
      assert s == s[..k] + s[k..];
      FilterAppend(s[..k], s[k..], InLeague(lid));
    }
  }

  /** The entry for league `lg` carries the table's id and name; its live list is that league's
      live fixtures; its upcoming list is empty whenever the live list is not, and otherwise holds
      exactly the day's not-started fixtures, ordered by kick-off text (a missing one counting as
      ""), fixtures with equal kick-off text in their feed order. */
  lemma BoardForSpec(lg: League, live: seq<Match>, dayItems: seq<RawItem>)
    ensures BoardFor(lg, live, dayItems).leagueId == lg.id
    ensures BoardFor(lg, live, dayItems).leagueName == lg.name
    ensures BoardFor(lg, live, dayItems).live == LeagueFixtures(live, lg.id)
    ensures BoardFor(lg, live, dayItems).live != [] ==> BoardFor(lg, live, dayItems).upcoming == []
    ensures BoardFor(lg, live, dayItems).live == [] ==>
      var up := BoardFor(lg, live, dayItems).upcoming;
      var day := NormalizeAll(dayItems);
      && (forall m :: m in up <==> m in day && m.isUpcoming)
      && multiset(up) == multiset(UpcomingOnly(day))
      && SortedByKickoff(up)
      && (forall k :: SameKickoff(up, k) == SameKickoff(UpcomingOnly(day), k))
  {
    var day := NormalizeAll(dayItems);
    SortByKickoffCorrect(UpcomingOnly(day));
    FilterMembership(day, NotStarted);
    var up := SortByKickoff(UpcomingOnly(day));
    forall m ensures m in up <==> m in UpcomingOnly(day) {
      assert m in up <==> multiset(up)[m] > 0;
      assert m in UpcomingOnly(day) <==> multiset(UpcomingOnly(day))[m] > 0;
    }
  }

  /** Every live fixture of a table league is shown under that league and under no other; live
      fixtures of any other league id (0 for a missing league) are shown nowhere. */
  lemma LiveFixturePlacement(live: seq<Match>, m: Match, i: nat, days: int -> seq<RawItem>)
    requires m in live && i < |Leagues|
    ensures m in BoardFor(Leagues[i], live, days(Leagues[i].id)).live <==> m.leagueId == Leagues[i].id
    ensures forall j :: 0 <= j < |Leagues| && m in BoardFor(Leagues[j], live, days(Leagues[j].id)).live ==> j == i || m.leagueId != Leagues[i].id
  {
    LeagueTableDistinct();
    forall j | 0 <= j < |Leagues| ensures m in LeagueFixtures(live, Leagues[j].id) <==> m.leagueId == Leagues[j].id {
      LeagueFixturesExact(live, Leagues[j].id);
    }
  }

  // ---------------------------------------------------------------- cache keys

  /** `"-".join(str(l["id"]) for l in leagues)` */
  function JoinIds(leagues: seq<League>): string {
    if leagues == [] then ""
    else if |leagues| == 1 then IntToString(leagues[0].id)
    else IntToString(leagues[0].id) + "-" + JoinIds(leagues[1..])
  }

  /** `f"live:{live_param}"`: the cache key of the live feed. */
  function LiveKey(): string {
    "live:" + JoinIds(Leagues)
  }

  /** `f"day:{lid}:{today}:{season}"`: the cache key of one league's fixtures of the day. */
  function DayKey(lid: int, today: string, season: int): string {
    "day:" + IntToString(lid) + ":" + today + ":" + IntToString(season)
  }

  /** A day key is its prefix, the league id, a colon, and a tail; the id holds no colon. */
  lemma DayKeyParts(lid: int, today: string, season: int)
    ensures DayKey(lid, today, season)[..4] == "day:"
    ensures DayKey(lid, today, season)[4..] == IntToString(lid) + [':'] + (today + ":" + IntToString(season))
    ensures ':' !in IntToString(lid)
  {
    var a, b := IntToString(lid), today + ":" + IntToString(season);
    assert DayKey(lid, today, season) == "day:" + (a + [':'] + b);
  }

  /** Different leagues never share a day cache entry, and no day entry is the live entry. */
  lemma DayKeysDistinct(l1: int, t1: string, s1: int, l2: int, t2: string, s2: int)
    ensures DayKey(l1, t1, s1) == DayKey(l2, t2, s2) ==> l1 == l2
    ensures DayKey(l1, t1, s1) != LiveKey()
  {
    DayKeyParts(l1, t1, s1);
    DayKeyParts(l2, t2, s2);
    assert DayKey(l1, t1, s1)[0] == 'd' && LiveKey()[0] == 'l';
    if DayKey(l1, t1, s1) == DayKey(l2, t2, s2) {
      SplitAtSeparator(IntToString(l1), t1 + ":" + IntToString(s1), ':', IntToString(l2), t2 + ":" + IntToString(s2));
      IntToStringInjective(l1, l2);
    }
  }
}
