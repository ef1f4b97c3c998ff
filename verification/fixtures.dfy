/** One raw fixture record of the score feed and its flat normalised form
    (`team_abbr`, `format_minute`, `normalize_fixture`). */
module Fixtures {
  import opened Json
  import opened PyText

  // ---------------------------------------------------------------- raw feed records

  /** `fixture.status`: short code ("NS", "1H", "HT", ...), minutes played, added time. */
  datatype RawStatus = RawStatus(short: Field<string>, elapsed: Option<int>, extra: Option<int>)

  /** `fixture`: id, ISO kick-off time and status. */
  datatype RawFixture = RawFixture(id: Option<int>, date: Option<string>, status: Option<RawStatus>)

  datatype RawLeague = RawLeague(id: Option<int>)

  datatype RawTeam = RawTeam(code: Option<string>, name: Option<string>)

  datatype RawTeams = RawTeams(home: Option<RawTeam>, away: Option<RawTeam>)

  datatype RawGoals = RawGoals(home: Option<int>, away: Option<int>)

  /** One element of the feed's `response` list. A sub-object that is missing, null or empty is
      `None`: the code replaces all three by `{}` (`x.get(k, {}) or {}`). */
  datatype RawItem = RawItem(
    fixture: Option<RawFixture>,
    league: Option<RawLeague>,
    teams: Option<RawTeams>,
    goals: Option<RawGoals>)

  /** The `{}` each sub-object defaults to. */
  const NoStatus := RawStatus(Absent, None, None)
  const NoFixture := RawFixture(None, None, None)
  const NoLeague := RawLeague(None)
  const NoTeam := RawTeam(None, None)
  const NoTeams := RawTeams(None, None)
  const NoGoals := RawGoals(None, None)

  // ---------------------------------------------------------------- normalised match

  /** The flat record `normalize_fixture` returns, keyed as in the JSON it serves. */
  datatype Match = Match(
    id: string,
    leagueId: int,
    statusShort: Option<string>,
    isLive: bool,
    isUpcoming: bool,
    kickoffISO: Option<string>,
    minute: string,
    home: string,
    away: string,
    homeGoals: Option<int>,
    awayGoals: Option<int>)

  /** The status codes counted as in play. */
  const LiveStatuses: set<string> := {"1H", "2H", "HT", "ET", "P", "BT"}

  /** "Not started" and the empty status are not in-play codes, and half time is. */
  lemma NotStartedIsNotLive()
    ensures "NS" !in LiveStatuses && "" !in LiveStatuses && "HT" in LiveStatuses
  {
    assert "NS"[0] == 'N';
  }

  // ---------------------------------------------------------------- team_abbr

  /** `w[:n]` */
  function Prefix(w: string, n: nat): (r: string)
    ensures |r| <= n && |r| <= |w| && r == w[..|r|]
    ensures w != [] && n > 0 ==> r != []
  {
    if |w| <= n then w else w[..n]
  }

  /** `"".join([w[:3] for w in ws if w])`; the `if w` keeps every word `split()` yields. */
  function JoinPrefixes(ws: seq<string>): string {
    if ws == [] then [] else Prefix(ws[0], 3) + JoinPrefixes(ws[1..])
  }

  /** The fallback of `team_abbr` for an already stripped, upper-cased name: the first three
      characters of the joined word prefixes, or of the name itself when those are fewer than three. */
  function NameAbbr(name: string): (r: string)
    ensures |r| <= 3
  {
    var compact := JoinPrefixes(Words(name));
    if |compact| >= 3 then compact[..3] else if |name| >= 3 then name[..3] else name
  }

  /** `team_abbr(team)`: the stripped code upper-cased when there is one, else the name fallback. */
  function TeamAbbr(team: RawTeam): string {
    var code := Strip(team.code.GetOr(""));
    if code != [] then Upper(code) else NameAbbr(Upper(Strip(team.name.GetOr(""))))
  }

  /** Every character of the joined word prefixes comes from the text the words were split from. */
  lemma {:induction false} JoinPrefixesFromText(s: string)
    ensures forall c :: c in JoinPrefixes(Words(s)) ==> c in s
    decreases |s|
  {
    var t := TrimStart(s);
    if t != [] {
      var n := LeadingRun(t);
      var w := t[..n];
      JoinPrefixesFromText(t[n..]);
      assert Words(s) == [w] + Words(t[n..]);
      assert JoinPrefixes(Words(s)) == Prefix(w, 3) + JoinPrefixes(Words(t[n..]));
      forall c | c in JoinPrefixes(Words(s)) ensures c in s {
        if c in Prefix(w, 3) {
          assert c in w;
        } else {
          assert c in t[n..];
        }
        assert c in t;
      }
    }
  }

  /** The name fallback is empty only for an empty name, given that the name does not start
      with whitespace (a stripped name never does). */
  lemma NameAbbrEmptyIff(name: string)
    requires name == [] || !IsSpace(name[0])
    ensures NameAbbr(name) == [] <==> name == []
  {
    var compact := JoinPrefixes(Words(name));
    if name != [] {
      FirstWordGivesPrefix(name);
      if |compact| >= 3 {
        assert compact[..3][0] == compact[0];
      }
    } else {
      assert compact == [] by { WordsEmptyIff(name); }
    }
  }

  /** A text starting with a non-whitespace character has a word, so its joined prefixes are not empty. */
  lemma FirstWordGivesPrefix(name: string)
    requires name != [] && !IsSpace(name[0])
    ensures JoinPrefixes(Words(name)) != []
  {
    WordsEmptyIff(name);
    var ws := Words(name);
    assert ws[0] != [];
    assert JoinPrefixes(ws) == Prefix(ws[0], 3) + JoinPrefixes(ws[1..]);
  }

  /** Every character of the name fallback is a character of the name. */
  lemma NameAbbrFromName(name: string)
    ensures forall c :: c in NameAbbr(name) ==> c in name
  {
    JoinPrefixesFromText(name);
  }

  /** A code that is non-empty once stripped is used as it is, upper-cased. */
  lemma TeamAbbrFromCode(team: RawTeam)
    requires Strip(team.code.GetOr("")) != []
    ensures TeamAbbr(team) == Upper(Strip(team.code.GetOr("")))
  {
  }

  /** Without a usable code the abbreviation is at most three characters long, and empty exactly
      when the name is missing or blank. */
  lemma TeamAbbrFromName(team: RawTeam)
    requires Strip(team.code.GetOr("")) == []
    ensures |TeamAbbr(team)| <= 3
    ensures TeamAbbr(team) == [] <==> Strip(team.name.GetOr("")) == []
  {
    var stripped := Strip(team.name.GetOr(""));
    UpperKeepsSpaces(stripped);
    NameAbbrEmptyIff(Upper(stripped));
  }

  /** The name fallback of an upper-cased name is upper case. */
  lemma NameAbbrIsUpper(stripped: string)
    ensures Upper(NameAbbr(Upper(stripped))) == NameAbbr(Upper(stripped))
  {
    NameAbbrFromName(Upper(stripped));
    UpperOfUpperChars(NameAbbr(Upper(stripped)), stripped);
  }

  /** The abbreviation is always upper case: upper-casing it changes nothing. */
  lemma TeamAbbrIsUpper(team: RawTeam)
    ensures Upper(TeamAbbr(team)) == TeamAbbr(team)
  {
    var code := Strip(team.code.GetOr(""));
    if code != [] {
      UpperIdempotent(code);
    } else {
      NameAbbrIsUpper(Strip(team.name.GetOr("")));
    }
  }

  /** A missing or empty team object abbreviates to the empty string. */
  lemma TeamAbbrOfNoTeam()
    ensures TeamAbbr(NoTeam) == ""
  {
    assert Strip("") == "";
    assert Words("") == [];
  }

  // ---------------------------------------------------------------- format_minute

  /** `format_minute(fixture)`: the clock label shown for a match. */
  function FormatMinute(fixture: RawFixture): string {
    var st := fixture.status.GetOr(NoStatus);
    if st.short.Get() == Some("HT") then "HT"
    else if st.elapsed.None? then ""
    else if st.extra.Some? && st.extra.value != 0 then
      IntToString(st.elapsed.value) + "+" + IntToString(st.extra.value) + "'"
    else IntToString(st.elapsed.value) + "'"
  }

  /** What a minute label says: half time, no clock yet, or minutes played with optional added time. */
  datatype Clock = HalfTime | NoClock | Played(elapsed: int, added: Option<int>)

  /** The clock the feed's status describes: half time wins over everything; no elapsed value
      means no clock; added time counts only when it is non-zero (Python truthiness). */
  function ClockOf(fixture: RawFixture): (c: Clock)
    ensures c.HalfTime? <==> fixture.status.Some? && fixture.status.value.short == Present("HT")
    ensures c.NoClock? <==> !c.HalfTime? && fixture.status.GetOr(NoStatus).elapsed.None?
    ensures c.Played? ==>
      (c.added.Some? <==> fixture.status.GetOr(NoStatus).extra.Some? && fixture.status.GetOr(NoStatus).extra.value != 0)
  {
    var st := fixture.status.GetOr(NoStatus);
    if st.short == Present("HT") then HalfTime
    else if st.elapsed.None? then NoClock
    else Played(st.elapsed.value, if st.extra.Some? && st.extra.value != 0 then st.extra else None)
  }

  /** Reads a minute label back: "HT", "", "<e>'" or "<e>+<x>'". */
  function ParseMinute(s: string): Option<Clock> {
    if s == "HT" then Some(HalfTime)
    else if s == "" then Some(NoClock)
    else if s[|s| - 1] != '\'' then None
    else
      var body := s[..|s| - 1];
      var k := IndexOf(body, '+');
      if k == |body| then
        match ParseInt(body)
        case Some(e) => Some(Played(e, None))
        case None => None
      else
        match (ParseInt(body[..k]), ParseInt(body[k + 1..]))
        case (Some(e), Some(x)) => Some(Played(e, Some(x)))
        case _ => None
  }

  /** The label is unambiguous: it reads back as exactly the clock the status describes, so
      "HT" wins over any elapsed value, a missing elapsed value gives "", and added time shows
      as "+x" exactly when it is non-zero. */
  lemma FormatMinuteRoundTrip(fixture: RawFixture)
    ensures ParseMinute(FormatMinute(fixture)) == Some(ClockOf(fixture))
  {
    var st := fixture.status.GetOr(NoStatus);
    var shown := FormatMinute(fixture);
    if st.short != Present("HT") && st.elapsed.Some? {
      var e := IntToString(st.elapsed.value);
      IntToStringRoundTrip(st.elapsed.value);
      assert '+' !in e;
      if st.extra.Some? && st.extra.value != 0 {
        var x := IntToString(st.extra.value);
        IntToStringRoundTrip(st.extra.value);
        assert shown == e + "+" + x + "'";
        var body := e + "+" + x;
        assert shown[..|shown| - 1] == body;
        IndexOfAfter(e, '+', x);
        assert body[..|e|] == e && body[|e| + 1..] == x;
      } else {
        assert shown == e + "'";
        assert shown[..|shown| - 1] == e;
        assert IndexOf(e, '+') == |e|;
      }
    }
  }

  // ---------------------------------------------------------------- normalize_fixture

  /** `str(fixture.get("id"))`: a missing id prints as "None". */
  function IdText(id: Option<int>): (r: string)
    ensures id.None? ==> r == "None"
  {
    match id
    case Some(v) => IntToString(v)
    case None => "None"
  }

  /** `normalize_fixture(item)`: the flat match record of one feed item. */
  function NormalizeFixture(item: RawItem): (m: Match)
    // a fixture is never both in play and not started
    ensures !(m.isLive && m.isUpcoming)
    ensures m.isLive <==> m.statusShort.Some? && m.statusShort.value in LiveStatuses
    ensures m.isUpcoming <==> m.statusShort == Some("NS")
    // goals pass through untouched, absent ones stay absent (no default of 0)
    ensures m.homeGoals == (if item.goals.Some? then item.goals.value.home else None)
    ensures m.awayGoals == (if item.goals.Some? then item.goals.value.away else None)
  {
    var fixture := item.fixture.GetOr(NoFixture);
    var league := item.league.GetOr(NoLeague);
    var teams := item.teams.GetOr(NoTeams);
    var goals := item.goals.GetOr(NoGoals);
    var home := teams.home.GetOr(NoTeam);
    var away := teams.away.GetOr(NoTeam);
    var status := fixture.status.GetOr(NoStatus).short.GetWithDefault("");
    NotStartedIsNotLive();
    Match(
      id := IdText(fixture.id),
      leagueId := league.id.GetOr(0),
      statusShort := status,
      isLive := status.Some? && status.value in LiveStatuses,
      isUpcoming := status == Some("NS"),
      kickoffISO := fixture.date,
      minute := FormatMinute(fixture),
      home := TeamAbbr(home),
      away := TeamAbbr(away),
      homeGoals := goals.home,
      awayGoals := goals.away)
  }

  /** Half time counts as in play and shows as "HT", whatever the elapsed value. */
  lemma NormalizeHalfTime(item: RawItem)
    requires NormalizeFixture(item).statusShort == Some("HT")
    ensures NormalizeFixture(item).isLive && NormalizeFixture(item).minute == "HT"
  {
    NotStartedIsNotLive();
  }

  /** Missing sub-objects never make normalisation fail; each one defaults to empty: no fixture
      gives id "None", status "", neither flag, no kick-off and no clock; no league gives league 0;
      no teams gives empty abbreviations. */
  lemma NormalizeMissingParts(item: RawItem)
    ensures item.fixture.None? ==>
      var m := NormalizeFixture(item);
      m.id == "None" && m.statusShort == Some("") && !m.isLive && !m.isUpcoming
      && m.kickoffISO.None? && m.minute == ""
    ensures item.league.None? ==> NormalizeFixture(item).leagueId == 0
    ensures item.teams.None? ==> NormalizeFixture(item).home == "" && NormalizeFixture(item).away == ""
  {
    if item.teams.None? {
      TeamAbbrOfNoTeam();
    }
  }

  /** The field-level fallbacks inside objects that are present: a league without an id gives
      league 0; a status without a short code reads as "" and a null short code as no status, and
      in both cases the fixture is neither in play nor upcoming; a short code that is there is
      kept as it is. */
  lemma NormalizeMissingFields(item: RawItem)
    ensures item.league.GetOr(NoLeague).id.None? ==> NormalizeFixture(item).leagueId == 0
    ensures var short := item.fixture.GetOr(NoFixture).status.GetOr(NoStatus).short;
      short.Absent? ==>
        var m := NormalizeFixture(item);
        m.statusShort == Some("") && !m.isLive && !m.isUpcoming
    ensures var short := item.fixture.GetOr(NoFixture).status.GetOr(NoStatus).short;
      short.Null? ==>
        var m := NormalizeFixture(item);
        m.statusShort.None? && !m.isLive && !m.isUpcoming
    ensures var short := item.fixture.GetOr(NoFixture).status.GetOr(NoStatus).short;
      short.Present? ==> NormalizeFixture(item).statusShort == Some(short.value)
  {
    NotStartedIsNotLive();
  }
}
