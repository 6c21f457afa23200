/** The Hackatime project picker: which of a user's Hackatime projects may be
    linked to a game — those no game has claimed yet, plus those the requested
    game already lists. */
module HackatimeProjects {
  import opened Common
  import opened Airtable

  /** [A-Za-z0-9_-] */
  predicate IdChar(c: char)
  {
    'A' <= c <= 'Z' || 'a' <= c <= 'z' || IsDigit(c) || c == '_' || c == '-'
  }

  /** /^[A-Za-z0-9_-]{1,50}$/ */
  predicate SlackIdOk(s: string)
  {
    1 <= |s| <= 50 && forall i :: 0 <= i < |s| ==> IdChar(s[i])
  }

  /** The names a game lists in "Hackatime Projects": a text split on commas,
      or an array, each entry trimmed and the empty ones dropped */
  function ListedNames(f: ProjectsField): (r: seq<string>)
    ensures forall n :: n in r ==> n != ""
  {
    match f
    case Text(t) => NonEmpty(TrimAll(Split(t, ',')))
    case Names(ns) => NonEmpty(TrimAll(ns))
    case _ => []
  }

  /** A record of the Games table */
  datatype GameRow = GameRow(id: string, projects: ProjectsField)

  /** The names of a list entered in the map with the game's id, one by one */
  function AddNames(m: map<string, string>, names: seq<string>, id: string): (r: map<string, string>)
    ensures forall n :: n in r <==> n in m || n in names
    ensures forall n :: n in names ==> r[n] == id
    ensures forall n :: n in m && n !in names ==> r[n] == m[n]
    decreases |names|
  {
    if names == [] then m else AddNames(m[names[0] := id], names[1..], id)
  }

  /** A game's id with the names it lists */
  datatype Listing = Listing(id: string, names: seq<string>)

  function ListingsOf(rows: seq<GameRow>): (r: seq<Listing>)
    ensures |r| == |rows| && forall i :: 0 <= i < |rows| ==> r[i] == Listing(rows[i].id, ListedNames(rows[i].projects))
  {
    seq(|rows|, i requires 0 <= i < |rows| => Listing(rows[i].id, ListedNames(rows[i].projects)))
  }

  /** assignedProjectsMap after the first games: each name mapped to the id of
      the last game listing it */
  function AssignedOf(ls: seq<Listing>): map<string, string>
    decreases |ls|
  {
    if ls == [] then map[]
    else
      var last := ls[|ls| - 1];
      AddNames(AssignedOf(ls[..|ls| - 1]), last.names, last.id)
  }

  /** allowedForGame: the names of the last game whose id is the requested one */
  function AllowedOf(ls: seq<Listing>, gameId: string): seq<string>
    decreases |ls|
  {
    if ls == [] then []
    else
      var last := ls[|ls| - 1];
      if gameId != "" && last.id == gameId then last.names
      else AllowedOf(ls[..|ls| - 1], gameId)
  }

  /** The forEach that enters one game's names */
  method EnterNames(m: map<string, string>, names: seq<string>, id: string) returns (r: map<string, string>)
    ensures r == AddNames(m, names, id)
  {
    r := m;
    var i := 0;
    while i < |names|
      invariant 0 <= i <= |names|
      invariant AddNames(m, names, id) == AddNames(r, names[i..], id)
    {
      assert names[i..][1..] == names[i + 1..];
      r := r[names[i] := id];
      i := i + 1;
    }
  }

  /** The first i + 1 games: the game at i comes last. */
  lemma ListingStep(ls: seq<Listing>, i: nat, gameId: string)
    requires i < |ls|
    ensures AssignedOf(ls[..i + 1]) == AddNames(AssignedOf(ls[..i]), ls[i].names, ls[i].id)
    ensures AllowedOf(ls[..i + 1], gameId)
      == if gameId != "" && ls[i].id == gameId then ls[i].names else AllowedOf(ls[..i], gameId)
  {
    assert ls[..i + 1][..i] == ls[..i];
  }

  /** The loop over all records of the Games table */
  method CollectAssigned(rows: seq<GameRow>, gameId: string)
    returns (taken: map<string, string>, allowed: seq<string>)
    ensures taken == AssignedOf(ListingsOf(rows))
    ensures allowed == AllowedOf(ListingsOf(rows), gameId)
  {
    ghost var ls := ListingsOf(rows);
    taken := map[];
    allowed := [];
    var i := 0;
    while i < |rows|
      invariant 0 <= i <= |rows|
      invariant taken == AssignedOf(ls[..i])
      invariant allowed == AllowedOf(ls[..i], gameId)
    {
      ListingStep(ls, i, gameId);
      var rec := rows[i];
      var names := ListedNames(rec.projects);
      taken := EnterNames(taken, names, rec.id);
      if gameId != "" && rec.id == gameId {
        allowed := names;
      }
      i := i + 1;
    }
    assert ls[..i] == ls;
  }

  /** A name is taken exactly when some game lists it. */
  lemma {:induction false} TakenIffListed(ls: seq<Listing>, name: string)
    ensures name in AssignedOf(ls) <==> exists k :: 0 <= k < |ls| && name in ls[k].names
    decreases |ls|
  {
    if ls != [] {
      var n := |ls| - 1;
      var prefix := ls[..n];
      assert AssignedOf(ls) == AddNames(AssignedOf(prefix), ls[n].names, ls[n].id);
      TakenIffListed(prefix, name);
      if name in AssignedOf(prefix) {
        var k :| 0 <= k < n && name in prefix[k].names;
        assert prefix[k] == ls[k];
      }
      if exists k :: 0 <= k < |ls| && name in ls[k].names {
        var k :| 0 <= k < |ls| && name in ls[k].names;
        if k < n {
          assert prefix[k] == ls[k];
        }
      }
    }
  }

  /** A taken name belongs to the last game that lists it. */
  lemma {:induction false} TakenByLastLister(ls: seq<Listing>, name: string, k: nat)
    requires k < |ls| && name in ls[k].names
    requires forall j :: k < j < |ls| ==> name !in ls[j].names
    ensures name in AssignedOf(ls) && AssignedOf(ls)[name] == ls[k].id
    decreases |ls|
  {
    var n := |ls| - 1;
    var prefix := ls[..n];
    assert AssignedOf(ls) == AddNames(AssignedOf(prefix), ls[n].names, ls[n].id);
    if k < n {
      assert prefix[k] == ls[k];
      assert forall j :: k < j < n ==> prefix[j] == ls[j];
      TakenByLastLister(prefix, name, k);
    }
  }

  // ---------------------------------------------------------------------------
  // The lookup in the plain object

  /** Names every plain JavaScript object answers with a truthy inherited value */
  predicate InheritedName(name: string)
  {
    name in ["constructor", "toString", "toLocaleString", "valueOf", "hasOwnProperty", "isPrototypeOf",
             "propertyIsEnumerable", "__proto__", "__defineGetter__", "__defineSetter__",
             "__lookupGetter__", "__lookupSetter__"]
  }

  /** `assignedProjectsMap[name]` is truthy, as written: the map is a plain
      object, so inherited members count as taken */
  predicate LooksAssignedAsWritten(taken: map<string, string>, name: string)
  {
    (name in taken && taken[name] != "") || InheritedName(name)
  }

  /** The evidently intended test: some game lists the name */
  predicate LooksAssigned(taken: map<string, string>, name: string)
  {
    name in taken && taken[name] != ""
  }

  /** A Hackatime project named "constructor" that no game lists is hidden as
      written, and offered by the corrected test. */
  lemma InheritedNameHiddenAsWritten()
    ensures LooksAssignedAsWritten(map[], "constructor")
    ensures !LooksAssigned(map[], "constructor")
  {
    assert "constructor" == ["constructor", "toString", "toLocaleString", "valueOf", "hasOwnProperty", "isPrototypeOf",
             "propertyIsEnumerable", "__proto__", "__defineGetter__", "__defineSetter__",
             "__lookupGetter__", "__lookupSetter__"][0];
  }

  /** A project as the Hackatime stats API reports it; "" for a missing name,
      whole seconds with 0 for a missing total */
  datatype Project = Project(name: string, totalSeconds: int)

  /** Whether the picker offers a project */
  predicate Offered(p: Project, taken: map<string, string>, gameId: string, allowed: seq<string>)
  {
    p.name != "" && (!LooksAssigned(taken, p.name) || (gameId != "" && p.name in allowed))
  }

  function FilterOffered(ps: seq<Project>, taken: map<string, string>, gameId: string, allowed: seq<string>): (r: seq<Project>)
    ensures forall p :: p in r <==> p in ps && Offered(p, taken, gameId, allowed)
    ensures |r| <= |ps|
  {
    if ps == [] then []
    else (if Offered(ps[0], taken, gameId, allowed) then [ps[0]] else [])
         + FilterOffered(ps[1..], taken, gameId, allowed)
  }

  /** Math.round(seconds / 60): halves round up */
  function Minutes(seconds: int): (r: int)
    ensures r * 60 - 30 <= seconds < r * 60 + 30
  {
    (seconds + 30) / 60
  }

  datatype Timed = Timed(name: string, time: int)

  function NamesOf(ps: seq<Project>): (r: seq<string>)
    ensures |r| == |ps| && forall i :: 0 <= i < |ps| ==> r[i] == ps[i].name
  {
    if ps == [] then [] else [ps[0].name] + NamesOf(ps[1..])
  }

  function TimedOf(ps: seq<Project>): (r: seq<Timed>)
    ensures |r| == |ps| && forall i :: 0 <= i < |ps| ==> r[i] == Timed(ps[i].name, Minutes(ps[i].totalSeconds))
  {
    if ps == [] then [] else [Timed(ps[0].name, Minutes(ps[0].totalSeconds))] + TimedOf(ps[1..])
  }

  datatype Reply = Reply(status: int, projects: seq<string>, projectsWithTime: seq<Timed>)

  /** handler: 405 for anything but GET; 400 for a blank or malformed slack id;
      the Games table read (`readFailed` when it throws, leaving nothing
      taken); an upstream error status passed through; else the offered
      projects. A project counts as claimed by the corrected test LooksAssigned,
      which only sees names some game lists; InheritedNameHiddenAsWritten shows
      how the plain-object lookup of the original differs. */
  method Handle(httpMethod: string, slackIdQuery: string, gameIdQuery: string, rows: seq<GameRow>, readFailed: bool,
                upstreamStatus: int, projects: seq<Project>)
    returns (reply: Reply)
    ensures httpMethod != "GET" ==> reply.status == 405
    ensures httpMethod == "GET" && !SlackIdOk(Trim(slackIdQuery)) ==> reply.status == 400
    ensures httpMethod == "GET" && SlackIdOk(Trim(slackIdQuery)) && !(200 <= upstreamStatus < 300)
            ==> reply.status == upstreamStatus
    ensures reply.status == 200 <==>
      httpMethod == "GET" && SlackIdOk(Trim(slackIdQuery)) && 200 <= upstreamStatus < 300
    ensures reply.status == 200 ==>
      var taken := if readFailed then map[] else AssignedOf(ListingsOf(rows));
      var allowed := if readFailed then [] else AllowedOf(ListingsOf(rows), Trim(gameIdQuery));
      var offered := FilterOffered(projects, taken, Trim(gameIdQuery), allowed);
      reply.projects == NamesOf(offered) && reply.projectsWithTime == TimedOf(offered)
  {
    if httpMethod != "GET" {
      return Reply(405, [], []);
    }
    var slackId := Trim(slackIdQuery);
    var gameId := Trim(gameIdQuery);
    if slackId == "" || !SlackIdOk(slackId) {
      return Reply(400, [], []);
    }
    var taken, allowed := CollectAssigned(rows, gameId);
    if readFailed {
      taken, allowed := map[], [];
    }
    if !(200 <= upstreamStatus < 300) {
      return Reply(upstreamStatus, [], []);
    }
    var offered := FilterOffered(projects, taken, gameId, allowed);
    reply := Reply(200, NamesOf(offered), TimedOf(offered));
  }

  /** The two lists of the reply name the same projects in the same order. */
  lemma ReplyListsAgree(ps: seq<Project>)
    ensures |NamesOf(ps)| == |TimedOf(ps)|
    ensures forall i :: 0 <= i < |ps| ==> NamesOf(ps)[i] == TimedOf(ps)[i].name
  {
  }

  /** With the Games table unreadable, every named project is offered. */
  lemma {:induction false} UnreadableTableOffersAll(ps: seq<Project>, gameId: string)
    ensures FilterOffered(ps, map[], gameId, []) == FilterNamed(ps)
    decreases |ps|
  {
    if ps != [] {
      UnreadableTableOffersAll(ps[1..], gameId);
    }
  }

  function FilterNamed(ps: seq<Project>): seq<Project>
  {
    if ps == [] then [] else (if ps[0].name != "" then [ps[0]] else []) + FilterNamed(ps[1..])
  }

  /** A project listed by the requested game stays on offer for that game, and
      a project another game lists is never offered for a game that does not
      list it. */
  lemma OfferedForItsGame(ls: seq<Listing>, gameId: string, p: Project)
    requires gameId != "" && p.name != ""
    ensures p.name in AllowedOf(ls, gameId) ==> Offered(p, AssignedOf(ls), gameId, AllowedOf(ls, gameId))
    ensures p.name !in AllowedOf(ls, gameId) && LooksAssigned(AssignedOf(ls), p.name)
            ==> !Offered(p, AssignedOf(ls), gameId, AllowedOf(ls, gameId))
  {
  }
}
