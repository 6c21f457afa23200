/** The Hackatime sync service: for every game it totals the Hackatime seconds
    of the game's projects and writes them back, with each user's projects
    "claimed" by the first of that user's games that names them, so that no
    project's time is counted for two games. */
module HackatimeSync {
  import opened Common
  import opened Airtable

  /** What one claiming pass over a game's project names produced: the seconds
      added and the lower-cased names claimed, in order */
  datatype Claim = Claim(total: nat, counted: seq<string>)

  function Elems(s: seq<string>): set<string>
  {
    set x | x in s
  }

  predicate NoDuplicates(s: seq<string>)
  {
    forall i, j :: 0 <= i < j < |s| ==> s[i] != s[j]
  }

  /** The seconds of the named (lower-cased) projects, each looked up once per
      occurrence */
  function SumSeconds(projects: seq<HackProject>, lowers: seq<string>): nat
  {
    if lowers == [] then 0
    else
      (match FindProject(projects, lowers[0]) case Some(p) => p.seconds case None => 0)
      + SumSeconds(projects, lowers[1..])
  }

  /** The loop of calculateProjectSecondsWithClaiming over the project names */
  function ClaimNames(projects: seq<HackProject>, names: seq<string>, claimed: set<string>): Claim
    decreases |names|
  {
    if names == [] then Claim(0, [])
    else if names[0] == "" || Lower(names[0]) in claimed then ClaimNames(projects, names[1..], claimed)
    else
      match FindProject(projects, Lower(names[0]))
      case None => ClaimNames(projects, names[1..], claimed)
      case Some(p) =>
        var rest := ClaimNames(projects, names[1..], claimed + {Lower(names[0])});
        Claim(p.seconds + rest.total, [Lower(names[0])] + rest.counted)
  }

  /** calculateProjectSecondsWithClaiming, including its early return when the
      field is falsy or the user has no Hackatime projects */
  function ClaimSpec(projects: seq<HackProject>, field: ProjectsField, claimed: set<string>): Claim
  {
    if !FieldTruthy(field) || |projects| == 0 then Claim(0, [])
    else ClaimNames(projects, ProjectNames(field), claimed)
  }

  /** calculateProjectSecondsWithClaiming: the user's claimed set is passed in
      and handed back with the names this game claimed added. */
  method CalculateProjectSecondsWithClaiming(projects: seq<HackProject>, field: ProjectsField, claimed: set<string>)
    returns (total: nat, claimedAfter: set<string>)
    ensures total == ClaimSpec(projects, field, claimed).total
    ensures claimedAfter == claimed + Elems(ClaimSpec(projects, field, claimed).counted)
  {
    if !FieldTruthy(field) || |projects| == 0 {
      return 0, claimed;
    }
    total, claimedAfter := ClaimLoop(projects, ProjectNames(field), claimed);
  }

  /** The for-of loop over the project names */
  method ClaimLoop(projects: seq<HackProject>, names: seq<string>, claimed: set<string>)
    returns (total: nat, claimedAfter: set<string>)
    ensures total == ClaimNames(projects, names, claimed).total
    ensures claimedAfter == claimed + Elems(ClaimNames(projects, names, claimed).counted)
  {
    total, claimedAfter := 0, claimed;
    ghost var counted: seq<string> := [];
    var i := 0;
    while i < |names|
      invariant 0 <= i <= |names|
      invariant claimedAfter == claimed + Elems(counted)
      invariant ClaimNames(projects, names, claimed) == Combine(total, counted, ClaimNames(projects, names[i..], claimedAfter))
    {
      var name := names[i];
      ClaimStep1(projects, names, i, claimedAfter);
      if name != "" {
        var lower := Lower(name);
        if lower !in claimedAfter {
          var matching := FindProject(projects, lower);
          if matching.Some? {
            CombineAssoc(total, counted, matching.value.seconds, lower, ClaimNames(projects, names[i + 1..], claimedAfter + {lower}));
            total := total + matching.value.seconds;
            claimedAfter := claimedAfter + {lower};
            counted := counted + [lower];
          }
        }
      }
      i := i + 1;
    }
    assert names[i..] == [];
  }

  /** The claim of the names already handled followed by the rest */
  function Combine(total: nat, counted: seq<string>, rest: Claim): Claim
  {
    Claim(total + rest.total, counted + rest.counted)
  }

  lemma CombineAssoc(total: nat, counted: seq<string>, seconds: nat, lower: string, rest: Claim)
    ensures Combine(total, counted, Claim(seconds + rest.total, [lower] + rest.counted))
         == Combine(total + seconds, counted + [lower], rest)
    ensures Elems(counted + [lower]) == Elems(counted) + {lower}
  {
    assert (counted + [lower]) + rest.counted == counted + ([lower] + rest.counted);
  }

  /** One step of ClaimNames on a suffix */
  lemma ClaimStep1(projects: seq<HackProject>, names: seq<string>, i: nat, claimed: set<string>)
    requires i < |names|
    ensures var n := names[i];
      ClaimNames(projects, names[i..], claimed) ==
        if n == "" || Lower(n) in claimed || FindProject(projects, Lower(n)).None? then ClaimNames(projects, names[i + 1..], claimed)
        else
          var rest := ClaimNames(projects, names[i + 1..], claimed + {Lower(n)});
          Claim(FindProject(projects, Lower(n)).value.seconds + rest.total, [Lower(n)] + rest.counted)
  {
    assert names[i..][0] == names[i] && names[i..][1..] == names[i + 1..];
  }

  /** What a claiming pass guarantees: it claims only names not claimed before,
      each once; its total is the seconds of exactly those projects; every
      claimed name comes from a non-empty project name of the game; and every
      project name that matches a Hackatime project ends up claimed. */
  lemma {:induction false} ClaimFacts(projects: seq<HackProject>, names: seq<string>, claimed: set<string>)
    ensures var r := ClaimNames(projects, names, claimed);
      && (forall n :: n in r.counted ==> n !in claimed)
      && NoDuplicates(r.counted)
      && r.total == SumSeconds(projects, r.counted)
      && (forall n :: n in r.counted ==> FindProject(projects, n).Some? && exists m :: m in names && m != "" && Lower(m) == n)
      && (forall m :: m in names && m != "" && FindProject(projects, Lower(m)).Some? ==> Lower(m) in claimed || Lower(m) in r.counted)
    decreases |names|
  {
    if names != [] {
      var m := names[0];
      if m == "" || Lower(m) in claimed || FindProject(projects, Lower(m)).None? {
        ClaimFacts(projects, names[1..], claimed);
      } else {
        var low := Lower(m);
        ClaimFacts(projects, names[1..], claimed + {low});
        var rest := ClaimNames(projects, names[1..], claimed + {low});
        var r := ClaimNames(projects, names, claimed);
        assert r.counted == [low] + rest.counted;
        assert r.counted[1..] == rest.counted;
      }
    }
  }

  /** calculateProjectSeconds, the legacy helper: the same loop with a set of
      counted names that starts empty */
  function LegacyProjectSeconds(projects: seq<HackProject>, field: ProjectsField): nat
  {
    if !FieldTruthy(field) || |projects| == 0 then 0
    else LegacyLoop(projects, ProjectNames(field), {})
  }

  function LegacyLoop(projects: seq<HackProject>, names: seq<string>, counted: set<string>): nat
    decreases |names|
  {
    if names == [] then 0
    else if names[0] == "" || Lower(names[0]) in counted then LegacyLoop(projects, names[1..], counted)
    else
      match FindProject(projects, Lower(names[0]))
      case Some(p) => p.seconds + LegacyLoop(projects, names[1..], counted + {Lower(names[0])})
      case None => LegacyLoop(projects, names[1..], counted)
  }

  lemma {:induction false} LegacyLoopIsClaim(projects: seq<HackProject>, names: seq<string>, counted: set<string>)
    ensures LegacyLoop(projects, names, counted) == ClaimNames(projects, names, counted).total
    decreases |names|
  {
    if names != [] {
      var low := Lower(names[0]);
      LegacyLoopIsClaim(projects, names[1..], counted);
      LegacyLoopIsClaim(projects, names[1..], counted + {low});
    }
  }

  /** The legacy helper is the claiming helper run with nothing claimed yet. */
  lemma LegacyIsFreshClaim(projects: seq<HackProject>, field: ProjectsField)
    ensures LegacyProjectSeconds(projects, field) == ClaimSpec(projects, field, {}).total
  {
    if FieldTruthy(field) && |projects| > 0 {
      LegacyLoopIsClaim(projects, ProjectNames(field), {});
    }
  }

  // ---------------------------------------------------------------------------
  // performFullSync

  /** A game record: Name and slack id default to "", HackatimeSeconds to 0 */
  datatype Game = Game(id: string, name: string, slackId: string, projects: ProjectsField, seconds: nat)

  datatype GameResult = GameResult(id: string, name: string, slackId: string, projectsText: string, seconds: nat)

  datatype SyncResult = SyncResult(totalGames: nat, uniqueUsers: nat, successfulUpdates: nat, errors: nat,
                                   games: seq<GameResult>)

  /** The users grouped by slack id: every non-empty slack id of some game */
  function GroupedUsers(games: seq<Game>): set<string>
  {
    set g | g in games && g.slackId != "" :: g.slackId
  }

  /** The users whose Hackatime data is fetched: some game of theirs has projects */
  function UniqueUsers(games: seq<Game>): (r: set<string>)
    ensures r <= GroupedUsers(games)
  {
    set g | g in games && g.slackId != "" && HasProjects(g.projects) :: g.slackId
  }

  /** userHackatimeData[slackId] || { projects: [] }: `fetched` holds what
      fetchHackatimeData returned for each user (its failures already mapped
      to no projects) */
  function UserProjects(games: seq<Game>, fetched: map<string, seq<HackProject>>, user: string): seq<HackProject>
  {
    if user in UniqueUsers(games) && user in fetched then fetched[user] else []
  }

  /** The game is sent to Hackatime accounting: it has a slack id and a truthy
      projects field */
  predicate Processed(g: Game)
  {
    g.slackId != "" && FieldTruthy(g.projects)
  }

  /** The names `user` has claimed after the games in `prefix` were processed */
  function ClaimedBefore(all: seq<Game>, prefix: seq<Game>, fetched: map<string, seq<HackProject>>, user: string): set<string>
    decreases |prefix|
  {
    if prefix == [] then {}
    else
      var prev := ClaimedBefore(all, prefix[..|prefix| - 1], fetched, user);
      var g := prefix[|prefix| - 1];
      if g.slackId == user && Processed(g) then
        prev + Elems(ClaimSpec(UserProjects(all, fetched, user), g.projects, prev).counted)
      else prev
  }

  /** The claim game i makes */
  function ClaimOf(games: seq<Game>, fetched: map<string, seq<HackProject>>, i: nat): Claim
    requires i < |games|
  {
    var u := games[i].slackId;
    ClaimSpec(UserProjects(games, fetched, u), games[i].projects, ClaimedBefore(games, games[..i], fetched, u))
  }

  function ResultOf(g: Game): GameResult
  {
    GameResult(g.id, g.name, g.slackId, ProjectsDisplay(g.projects), g.seconds)
  }

  /** The entry for game i: a processed game carries its claimed seconds (the
      Airtable update's answer is not looked at), any other game its stored ones */
  function ExpectedResult(games: seq<Game>, fetched: map<string, seq<HackProject>>, i: nat): GameResult
    requires i < |games|
  {
    if Processed(games[i]) then ResultOf(games[i]).(seconds := ClaimOf(games, fetched, i).total)
    else ResultOf(games[i])
  }

  /** How the sync went for one game */
  datatype Outcome = Updated | Skipped

  function OutcomeOf(games: seq<Game>, i: nat): Outcome
    requires i < |games|
  {
    if Processed(games[i]) then Updated else Skipped
  }

  /** The number of the first n games with outcome `o` */
  function CountOutcome(games: seq<Game>, n: nat, o: Outcome): nat
    requires n <= |games|
  {
    if n == 0 then 0
    else CountOutcome(games, n - 1, o) + (if OutcomeOf(games, n - 1) == o then 1 else 0)
  }

  /** The object performFullSync returns once the games are listed */
  function FullSyncResult(games: seq<Game>, fetched: map<string, seq<HackProject>>): (r: SyncResult)
    ensures r.totalGames == |r.games| == |games|
    ensures r.successfulUpdates <= r.totalGames && r.errors == 0
    ensures forall i :: 0 <= i < |games| ==> r.games[i].id == games[i].id && r.games[i].name == games[i].name
  {
    OutcomesPartitionGames(games, |games|);
    SyncResult(|games|, |UniqueUsers(games)|, CountOutcome(games, |games|, Updated), 0,
               seq(|games|, i requires 0 <= i < |games| => ExpectedResult(games, fetched, i)))
  }

  /** What a run of performFullSync ends in: the result object, or the message
      of the error it throws */
  datatype SyncRun = Completed(result: SyncResult) | Threw(message: string)

  const MissingKeyMessage := "Server configuration error: Missing Airtable API key"

  /** The set a map of claimed sets holds for a user (none yet: empty) */
  function ClaimedIn(claimedByUser: map<string, set<string>>, u: string): set<string>
  {
    if u in claimedByUser then claimedByUser[u] else {}
  }

  /** The per-user claimed sets are those of the first n games */
  ghost predicate ClaimsTracked(games: seq<Game>, fetched: map<string, seq<HackProject>>,
                                claimedByUser: map<string, set<string>>, n: nat)
    requires n <= |games|
  {
    forall u :: ClaimedIn(claimedByUser, u) == ClaimedBefore(games, games[..n], fetched, u)
  }

  lemma TrackSkipped(games: seq<Game>, fetched: map<string, seq<HackProject>>,
                     claimedByUser: map<string, set<string>>, i: nat)
    requires i < |games| && !Processed(games[i]) && ClaimsTracked(games, fetched, claimedByUser, i)
    ensures ClaimsTracked(games, fetched, claimedByUser, i + 1)
  {
    assert games[..i + 1][..i] == games[..i];
  }

  lemma TrackClaimed(games: seq<Game>, fetched: map<string, seq<HackProject>>,
                     claimedByUser: map<string, set<string>>, i: nat, after: set<string>)
    requires i < |games| && Processed(games[i]) && ClaimsTracked(games, fetched, claimedByUser, i)
    requires after == ClaimedIn(claimedByUser, games[i].slackId) + Elems(ClaimOf(games, fetched, i).counted)
    ensures ClaimsTracked(games, fetched, claimedByUser[games[i].slackId := after], i + 1)
  {
    assert games[..i + 1][..i] == games[..i];
    var next := claimedByUser[games[i].slackId := after];
    forall v
      ensures ClaimedIn(next, v) == ClaimedBefore(games, games[..i + 1], fetched, v)
    {
      assert ClaimedIn(claimedByUser, v) == ClaimedBefore(games, games[..i], fetched, v);
    }
  }

  /** One iteration of the loop over the games: a skipped game's entry as it
      was, or a processed game's entry with the seconds it claims, which are
      added to its user's claimed set. */
  method SyncGame(games: seq<Game>, fetched: map<string, seq<HackProject>>,
                  claimedByUser: map<string, set<string>>, i: nat)
    returns (entry: GameResult, claimedNext: map<string, set<string>>)
    requires i < |games| && ClaimsTracked(games, fetched, claimedByUser, i)
    ensures entry == ExpectedResult(games, fetched, i)
    ensures ClaimsTracked(games, fetched, claimedNext, i + 1)
  {
    var g := games[i];
    entry := ResultOf(g);
    if !Processed(g) {
      TrackSkipped(games, fetched, claimedByUser, i);
      claimedNext := claimedByUser;
    } else {
      var projects := UserProjects(games, fetched, g.slackId);
      var claimed := ClaimedIn(claimedByUser, g.slackId);
      assert claimed == ClaimedBefore(games, games[..i], fetched, g.slackId);
      var total, claimedAfter := CalculateProjectSecondsWithClaiming(projects, g.projects, claimed);
      TrackClaimed(games, fetched, claimedByUser, i, claimedAfter);
      claimedNext := claimedByUser[g.slackId := claimedAfter];
      entry := entry.(seconds := total);
    }
  }

  /** performFullSync. A missing API key throws; `listingError` is the message
      fetchAllGames throws with when an Airtable page request fails, and
      `games` the records it lists otherwise. */
  method PerformFullSync(apiKey: string, listingError: Option<string>, games: seq<Game>,
                         fetched: map<string, seq<HackProject>>)
    returns (r: SyncRun)
    ensures r.Threw? <==> apiKey == "" || listingError.Some?
    ensures apiKey == "" ==> r == Threw(MissingKeyMessage)
    ensures apiKey != "" && listingError.Some? ==> r == Threw(listingError.value)
    ensures r.Completed? ==> r.result == FullSyncResult(games, fetched)
  {
    if apiKey == "" {
      return Threw(MissingKeyMessage);
    }
    if listingError.Some? {
      return Threw(listingError.value);
    }
    var users := UniqueUsers(games);
    var claimedByUser: map<string, set<string>> := map[];
    var successCount, errorCount := 0, 0;
    var updated: seq<GameResult> := [];
    var i := 0;
    while i < |games|
      invariant 0 <= i <= |games| && |updated| == i
      invariant forall k :: 0 <= k < i ==> updated[k] == ExpectedResult(games, fetched, k)
      invariant ClaimsTracked(games, fetched, claimedByUser, i)
      invariant successCount == CountOutcome(games, i, Updated) && errorCount == 0
    {
      var entry, claimedNext := SyncGame(games, fetched, claimedByUser, i);
      if Processed(games[i]) {
        successCount := successCount + 1;
      }
      claimedByUser := claimedNext;
      updated := updated + [entry];
      i := i + 1;
    }
    assert updated == FullSyncResult(games, fetched).games;
    r := Completed(SyncResult(|games|, |users|, successCount, errorCount, updated));
  }

  /** Every game gets exactly one entry, updated or skipped, so the two counts
      add up to the number of games. */
  lemma {:induction false} OutcomesPartitionGames(games: seq<Game>, n: nat)
    requires n <= |games|
    ensures CountOutcome(games, n, Updated) + CountOutcome(games, n, Skipped) == n
  {
    if n > 0 {
      OutcomesPartitionGames(games, n - 1);
    }
  }

  /** A game without a slack id or without a truthy projects field keeps its
      stored seconds, and claims nothing. */
  lemma SkippedGameUnchanged(games: seq<Game>, fetched: map<string, seq<HackProject>>, i: nat)
    requires i < |games|
    requires !Processed(games[i])
    ensures FullSyncResult(games, fetched).games[i].seconds == games[i].seconds
    ensures forall u :: ClaimedBefore(games, games[..i + 1], fetched, u) == ClaimedBefore(games, games[..i], fetched, u)
  {
    assert games[..i + 1][..i] == games[..i];
  }

  /** The claimed set of a user only grows along the games. */
  lemma {:induction false} ClaimedGrows(games: seq<Game>, fetched: map<string, seq<HackProject>>, u: string, i: nat, j: nat)
    requires i <= j <= |games|
    ensures ClaimedBefore(games, games[..i], fetched, u) <= ClaimedBefore(games, games[..j], fetched, u)
    decreases j - i
  {
    if i < j {
      ClaimedGrows(games, fetched, u, i, j - 1);
      ClaimedGrowsStep(games, fetched, u, j - 1);
      SubsetChain(ClaimedBefore(games, games[..i], fetched, u), ClaimedBefore(games, games[..j - 1], fetched, u),
                  ClaimedBefore(games, games[..j], fetched, u));
    }
  }

  lemma SubsetChain(a: set<string>, b: set<string>, c: set<string>)
    requires a <= b && b <= c
    ensures a <= c
  {
  }

  /** One game never takes anything out of a user's claimed set. */
  lemma ClaimedGrowsStep(games: seq<Game>, fetched: map<string, seq<HackProject>>, u: string, i: nat)
    requires i < |games|
    ensures ClaimedBefore(games, games[..i], fetched, u) <= ClaimedBefore(games, games[..i + 1], fetched, u)
  {
    var prefix := games[..i + 1];
    assert prefix[..|prefix| - 1] == games[..i];
  }

  /** Game i's claimed names are exactly what it adds to its user's claimed set. */
  lemma ClaimStep(games: seq<Game>, fetched: map<string, seq<HackProject>>, i: nat)
    requires i < |games| && Processed(games[i])
    ensures ClaimedBefore(games, games[..i + 1], fetched, games[i].slackId)
         == ClaimedBefore(games, games[..i], fetched, games[i].slackId) + Elems(ClaimOf(games, fetched, i).counted)
  {
    assert games[..i + 1][..i] == games[..i];
  }

  /** Each project's seconds count at most once per user: two games of one user
      never claim the same project, and no game claims a project twice. */
  lemma ClaimedOnce(games: seq<Game>, fetched: map<string, seq<HackProject>>, i: nat, j: nat)
    requires i < j < |games| && games[i].slackId == games[j].slackId
    requires Processed(games[i]) && Processed(games[j])
    ensures Elems(ClaimOf(games, fetched, i).counted) !! Elems(ClaimOf(games, fetched, j).counted)
    ensures NoDuplicates(ClaimOf(games, fetched, j).counted)
  {
    var u := games[i].slackId;
    var projects := UserProjects(games, fetched, u);
    ClaimStep(games, fetched, i);
    ClaimedGrows(games, fetched, u, i + 1, j);
    var before := ClaimedBefore(games, games[..j], fetched, u);
    if |projects| > 0 {
      ClaimFacts(projects, ProjectNames(games[j].projects), before);
    }
  }

  /** The earliest game wins: once a processed game names a project the user
      has in Hackatime, that project is claimed by this game or an earlier one,
      and no later game of the user counts it. */
  lemma EarliestGameWins(games: seq<Game>, fetched: map<string, seq<HackProject>>, i: nat, m: string, j: nat)
    requires i < |games| && Processed(games[i])
    requires m in ProjectNames(games[i].projects) && m != ""
    requires FindProject(UserProjects(games, fetched, games[i].slackId), Lower(m)).Some?
    requires i < j < |games| && games[j].slackId == games[i].slackId && Processed(games[j])
    ensures Lower(m) in ClaimedBefore(games, games[..i + 1], fetched, games[i].slackId)
    ensures Lower(m) !in ClaimOf(games, fetched, j).counted
  {
    var u := games[i].slackId;
    var projects := UserProjects(games, fetched, u);
    ClaimStep(games, fetched, i);
    ClaimFacts(projects, ProjectNames(games[i].projects), ClaimedBefore(games, games[..i], fetched, u));
    ClaimedGrows(games, fetched, u, i + 1, j);
    ClaimFacts(projects, ProjectNames(games[j].projects), ClaimedBefore(games, games[..j], fetched, u));
  }

  /** With an empty field or no Hackatime projects the claimed total is 0. */
  lemma EmptyClaimsNothing(projects: seq<HackProject>, field: ProjectsField, claimed: set<string>)
    requires !FieldTruthy(field) || projects == []
    ensures ClaimSpec(projects, field, claimed) == Claim(0, [])
  {
  }

  // ---------------------------------------------------------------------------
  // runBackgroundSync and the sync status

  /** The module-level state of the service */
  class SyncService {
    var isSyncRunning: bool
    var lastSyncResult: Option<SyncResult>
    var lastSyncTime: Option<int>
    var syncError: Option<string>

    constructor()
      ensures !isSyncRunning && lastSyncResult == None && lastSyncTime == None && syncError == None
    {
      isSyncRunning := false;
      lastSyncResult := None;
      lastSyncTime := None;
      syncError := None;
    }

    /** runBackgroundSync: skipped while a sync runs; otherwise the flag is
        raised for the duration and always lowered, a success records the
        sync's result and the time and clears the error, a failure records
        only the error. */
    method RunBackgroundSync(apiKey: string, listingError: Option<string>, games: seq<Game>,
                             fetched: map<string, seq<HackProject>>, now: int)
      modifies this
      ensures old(isSyncRunning) ==> unchanged(this)
      ensures !old(isSyncRunning) ==> !isSyncRunning
      ensures !old(isSyncRunning) && apiKey != "" && listingError.None? ==>
        && lastSyncResult == Some(FullSyncResult(games, fetched))
        && lastSyncTime == Some(now) && syncError == None
      ensures !old(isSyncRunning) && apiKey == "" ==>
        && syncError == Some(MissingKeyMessage)
        && lastSyncResult == old(lastSyncResult) && lastSyncTime == old(lastSyncTime)
      ensures !old(isSyncRunning) && apiKey != "" && listingError.Some? ==>
        && syncError == listingError
        && lastSyncResult == old(lastSyncResult) && lastSyncTime == old(lastSyncTime)
    {
      if isSyncRunning {
        return;
      }
      isSyncRunning := true;
      var run := PerformFullSync(apiKey, listingError, games, fetched);
      match run {
        case Completed(result) =>
          lastSyncResult := Some(result);
          lastSyncTime := Some(now);
          syncError := None;
        case Threw(message) =>
          syncError := Some(message);
      }
      isSyncRunning := false;
    }

    /** The status of GET /api/SyncAllGames: 409 while a background sync runs,
        500 when the sync throws */
    method SyncAllGamesStatus(apiKey: string, listingError: Option<string>, games: seq<Game>,
                              fetched: map<string, seq<HackProject>>)
      returns (status: int)
      ensures status == (if isSyncRunning then 409 else if apiKey == "" || listingError.Some? then 500 else 200)
    {
      if isSyncRunning {
        return 409;
      }
      var run := PerformFullSync(apiKey, listingError, games, fetched);
      status := if run.Completed? then 200 else 500;
    }
  }
}
