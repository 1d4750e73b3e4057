/**
  The players route: creating a player (a name and a phone are required; omitted
  dues take the club's defaults) and listing players with an optional search over
  name and phone.
 */
module Players {
  import opened Common
  import opened Records
  import Text
  import Seqs
  import AnnualReport

  /** The dues a new player gets when the request leaves them out. */
  const DefaultAnnual: int := 150000
  const DefaultMonthly: int := 10000
  const DefaultPitch: int := 5000

  /**
    `CreatePlayerRequest` as read from the body: `None` is a field the body leaves
    out (`undefined`).
   */
  datatype CreateRequest = CreateRequest(
    name: Option<string>, phone: Option<string>,
    annual: Option<int>, monthly: Option<int>, pitch: Option<int>, matchDay: Option<int>)

  /** The row handed to the insert. */
  datatype NewPlayer = NewPlayer(
    name: string, phone: string, annual: int, monthly: int, pitch: int, matchDay: Option<int>)

  /** `!s` for a string field: left out or empty. */
  predicate Blank(s: Option<string>)
  {
    s.None? || s == Some("")
  }

  /** A destructuring default: it replaces only a field the body leaves out. */
  function WithDefault(v: Option<int>, d: int): int
  {
    match v
    case None => d
    case Some(x) => x
  }

  /** `matchDay || null`: a zero match-day due is not stored. */
  function ZeroAsNull(v: Option<int>): (r: Option<int>)
    ensures r.Some? <==> v.Some? && v.value != 0
    ensures r.Some? ==> r == v
  {
    if v == Some(0) then None else v
  }

  /** The POST handler up to the insert. */
  function CreatePlayer(req: CreateRequest): (r: Result<NewPlayer>)
    ensures r.Err? <==> Blank(req.name) || Blank(req.phone)
    ensures r.Err? ==> r.failure == BadRequest("Name and phone are required") && StatusCode(r.failure) == 400
    ensures r.Ok? ==> r.value.name == req.name.value != "" && r.value.phone == req.phone.value != ""
    ensures r.Ok? ==> r.value.matchDay == ZeroAsNull(req.matchDay)
    ensures r.Ok? ==> r.value.annual == if req.annual.Some? then req.annual.value else DefaultAnnual
    ensures r.Ok? ==> r.value.monthly == if req.monthly.Some? then req.monthly.value else DefaultMonthly
    ensures r.Ok? ==> r.value.pitch == if req.pitch.Some? then req.pitch.value else DefaultPitch
  {
    if Blank(req.name) || Blank(req.phone) then Err(BadRequest("Name and phone are required"))
    else
      Ok(NewPlayer(req.name.value, req.phone.value,
        WithDefault(req.annual, DefaultAnnual), WithDefault(req.monthly, DefaultMonthly),
        WithDefault(req.pitch, DefaultPitch), ZeroAsNull(req.matchDay)))
  }

  /** Dues left out of the request are 150000, 10000 and 5000. */
  lemma DefaultDues(name: string, phone: string, matchDay: Option<int>)
    requires name != "" && phone != ""
    ensures var r := CreatePlayer(CreateRequest(Some(name), Some(phone), None, None, None, matchDay));
      r.Ok? && r.value.annual == 150000 && r.value.monthly == 10000 && r.value.pitch == 5000
  {
  }

  /** Dues the request gives are stored as given, zero included. */
  lemma GivenDuesKept(req: CreateRequest)
    requires !Blank(req.name) && !Blank(req.phone)
    requires req.annual.Some? && req.monthly.Some? && req.pitch.Some?
    ensures var r := CreatePlayer(req);
      r.Ok? && r.value.annual == req.annual.value && r.value.monthly == req.monthly.value
      && r.value.pitch == req.pitch.value
  {
  }

  /**
    A player created with an annual due of 0 keeps 0, and the annual report then
    bills that player the default of 150000.
   */
  lemma ZeroAnnualBilledDefault(req: CreateRequest, id: string)
    requires !Blank(req.name) && !Blank(req.phone) && req.annual == Some(0)
    ensures var p := CreatePlayer(req).value;
      p.annual == 0
      && AnnualReport.ExpectedAmount(Player(id, p.name, p.phone, p.annual, p.monthly, p.pitch, p.matchDay)) == DefaultAnnual
  {
  }

  // ---------------------------------------------------------------------------
  // Listing

  /** The name holds the query in any letter case, or the phone holds it verbatim. */
  predicate MatchesSearch(p: Player, q: string)
  {
    Text.Contains(Text.Lower(p.name), Text.Lower(q)) || Text.Contains(p.phone, q)
  }

  /** The filter the GET handler applies to the fetched page when `search` is non-empty. */
  function SearchPlayers(players: seq<Player>, search: Option<string>): (r: seq<Player>)
    ensures Seqs.IsSubsequence(r, players)
  {
    if Blank(search) then
      Seqs.SubsequenceOfItself(players);
      players
    else Seqs.Filter(players, (p: Player) => MatchesSearch(p, search.value))
  }

  /** Without a search term the page is returned as fetched. */
  lemma NoSearchUnchanged(players: seq<Player>, search: Option<string>)
    requires Blank(search)
    ensures SearchPlayers(players, search) == players
  {
  }

  /** A player is listed iff fetched and matching the search term. */
  lemma SearchMeaning(players: seq<Player>, q: string, p: Player)
    requires q != ""
    ensures p in SearchPlayers(players, Some(q)) <==> p in players && MatchesSearch(p, q)
  {
    var r := SearchPlayers(players, Some(q));
    if p in players && MatchesSearch(p, q) {
      var k :| 0 <= k < |players| && players[k] == p;
    }
    if p in r {
      var k :| 0 <= k < |r| && r[k] == p;
    }
  }

  /** A player whose name holds the query as typed is listed: lower-casing both sides keeps the hit. */
  lemma NameHitFound(players: seq<Player>, q: string, p: Player)
    requires q != "" && p in players && Text.Contains(p.name, q)
    ensures p in SearchPlayers(players, Some(q))
  {
    Text.ContainsLower(p.name, q);
    SearchMeaning(players, q, p);
  }
}
