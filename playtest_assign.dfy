/** The circular playtester assignment: every eligible game owner puts one
    game entry and one player entry into the pools per ticket needed, the pools
    are shuffled, and each game entry is handed to the next suitable player
    around the circle. */
module PlaytestAssign {
  import opened Common

  /** A YSWS record: its first linked user and game, and the tickets it needs */
  datatype Record = Record(userId: Option<string>, gameId: Option<string>, ticketsNeeded: int)

  /** An entry of the games pool */
  datatype PoolGame = PoolGame(gameId: Option<string>, owner: Option<string>)

  /** An assignment: the game, its owner and the player who tests it */
  datatype Assignment = Assignment(gameId: Option<string>, owner: Option<string>, playerId: string)

  // ---------------------------------------------------------------------------
  // Pools

  function Repeat<T>(x: T, n: nat): (r: seq<T>)
    ensures |r| == n && forall k :: 0 <= k < n ==> r[k] == x
  {
    if n == 0 then [] else [x] + Repeat(x, n - 1)
  }

  function GamePool(records: seq<Record>): (r: seq<PoolGame>)
  {
    if records == [] then []
    else
      var rec := records[0];
      (if rec.ticketsNeeded > 0 then Repeat(PoolGame(rec.gameId, rec.userId), rec.ticketsNeeded) else [])
      + GamePool(records[1..])
  }

  function PlayerPool(records: seq<Record>): (r: seq<Option<string>>)
  {
    if records == [] then []
    else
      var rec := records[0];
      (if rec.ticketsNeeded > 0 then Repeat(rec.userId, rec.ticketsNeeded) else [])
      + PlayerPool(records[1..])
  }

  /** The tickets needed by the eligible records */
  function TicketTotal(records: seq<Record>): nat
  {
    if records == [] then 0
    else (if records[0].ticketsNeeded > 0 then records[0].ticketsNeeded else 0) + TicketTotal(records[1..])
  }

  /** Both pools hold one entry per ticket needed, and before shuffling the k-th
      player is the owner of the k-th game. */
  lemma {:induction false} PoolsMatch(records: seq<Record>)
    ensures |GamePool(records)| == |PlayerPool(records)| == TicketTotal(records)
    ensures forall k :: 0 <= k < |GamePool(records)| ==> GamePool(records)[k].owner == PlayerPool(records)[k]
    decreases |records|
  {
    if records != [] {
      PoolsMatch(records[1..]);
    }
  }

  /** Records needing no ticket add nothing to the pools. */
  lemma IneligibleRecordsAddNothing(records: seq<Record>, rec: Record)
    requires rec.ticketsNeeded <= 0
    ensures GamePool([rec] + records) == GamePool(records)
    ensures PlayerPool([rec] + records) == PlayerPool(records)
  {
    assert ([rec] + records)[1..] == records;
  }

  lemma RepeatGrows<T>(x: T, n: nat)
    ensures Repeat(x, n + 1) == Repeat(x, n) + [x]
  {
    assert forall k :: 0 <= k < n + 1 ==> Repeat(x, n + 1)[k] == (Repeat(x, n) + [x])[k];
  }

  /** `for _ in range(n): pool.append(x)` */
  method AppendCopies<T>(pool: seq<T>, x: T, n: int) returns (r: seq<T>)
    requires n > 0
    ensures r == pool + Repeat(x, n)
  {
    r := pool;
    var k := 0;
    while k < n
      invariant 0 <= k <= n
      invariant r == pool + Repeat(x, k)
    {
      RepeatGrows(x, k);
      r := r + [x];
      k := k + 1;
    }
  }

  /** The pools of records[i..] are those of records[i] followed by those of the rest */
  lemma PoolsUnfold(records: seq<Record>, i: nat)
    requires i < |records|
    ensures var rec := records[i];
      && GamePool(records[i..])
         == (if rec.ticketsNeeded > 0 then Repeat(PoolGame(rec.gameId, rec.userId), rec.ticketsNeeded) else [])
            + GamePool(records[i + 1..])
      && PlayerPool(records[i..])
         == (if rec.ticketsNeeded > 0 then Repeat(rec.userId, rec.ticketsNeeded) else []) + PlayerPool(records[i + 1..])
  {
    assert records[i..][1..] == records[i + 1..];
  }

  /** One record of the loop keeps its invariant. */
  lemma PoolStep(records: seq<Record>, i: nat, games: seq<PoolGame>, players: seq<Option<string>>,
                 games': seq<PoolGame>, players': seq<Option<string>>)
    requires i < |records|
    requires GamePool(records) == games + GamePool(records[i..])
    requires PlayerPool(records) == players + PlayerPool(records[i..])
    requires var rec := records[i];
      && (rec.ticketsNeeded > 0 ==>
            games' == games + Repeat(PoolGame(rec.gameId, rec.userId), rec.ticketsNeeded)
            && players' == players + Repeat(rec.userId, rec.ticketsNeeded))
      && (rec.ticketsNeeded <= 0 ==> games' == games && players' == players)
    ensures GamePool(records) == games' + GamePool(records[i + 1..])
    ensures PlayerPool(records) == players' + PlayerPool(records[i + 1..])
  {
    PoolsUnfold(records, i);
    var rec := records[i];
    var gameChunk := if rec.ticketsNeeded > 0 then Repeat(PoolGame(rec.gameId, rec.userId), rec.ticketsNeeded) else [];
    var playerChunk := if rec.ticketsNeeded > 0 then Repeat(rec.userId, rec.ticketsNeeded) else [];
    assert games' == games + gameChunk;
    assert players' == players + playerChunk;
    Advance(GamePool(records), games, GamePool(records[i..]), gameChunk, GamePool(records[i + 1..]), games');
    Advance(PlayerPool(records), players, PlayerPool(records[i..]), playerChunk, PlayerPool(records[i + 1..]), players');
  }

  /** Moving a chunk from what is left to the accumulated part */
  lemma Advance<T>(whole: seq<T>, acc: seq<T>, here: seq<T>, chunk: seq<T>, rest: seq<T>, acc': seq<T>)
    requires whole == acc + here && here == chunk + rest && acc' == acc + chunk
    ensures whole == acc' + rest
  {
    assert acc + (chunk + rest) == (acc + chunk) + rest;
  }

  /** The eligibility filter and the pool-filling loops */
  method BuildPools(records: seq<Record>) returns (games: seq<PoolGame>, players: seq<Option<string>>)
    ensures games == GamePool(records) && players == PlayerPool(records)
  {
    games, players := [], [];
    var i := 0;
    while i < |records|
      invariant 0 <= i <= |records|
      invariant GamePool(records) == games + GamePool(records[i..])
      invariant PlayerPool(records) == players + PlayerPool(records[i..])
    {
      var rec := records[i];
      ghost var games0, players0 := games, players;
      if rec.ticketsNeeded > 0 {
        games := AppendCopies(games, PoolGame(rec.gameId, rec.userId), rec.ticketsNeeded);
        players := AppendCopies(players, rec.userId, rec.ticketsNeeded);
      }
      PoolStep(records, i, games0, players0, games, players);
      i := i + 1;
    }
    assert records[i..] == [];
  }

  // ---------------------------------------------------------------------------
  // The circular assignment

  /** `any(a.player == player and a.game == game for a in assignments)` */
  predicate AlreadyAssigned(given: seq<Assignment>, playerId: string, gameId: Option<string>)
  {
    exists a :: a in given && a.playerId == playerId && a.gameId == gameId
  }

  /** A player with a user id, not the owner, not yet given this game */
  predicate Suitable(player: Option<string>, g: PoolGame, given: seq<Assignment>)
  {
    player.Some? && player != g.owner && !AlreadyAssigned(given, player.value, g.gameId)
  }

  /** The first suitable player at an index in [from, to) */
  function FirstSuitable(players: seq<Option<string>>, g: PoolGame, given: seq<Assignment>, from: nat, to: nat): (r: Option<nat>)
    requires to <= |players|
    ensures r.Some? ==> from <= r.value < to && Suitable(players[r.value], g, given)
    ensures r.Some? ==> (forall k :: from <= k < r.value ==> !Suitable(players[k], g, given))
    ensures r.None? ==> (forall k :: from <= k < to ==> !Suitable(players[k], g, given))
    decreases if from <= to then to - from else 0
  {
    if from >= to then None
    else if Suitable(players[from], g, given) then Some(from)
    else FirstSuitable(players, g, given, from + 1, to)
  }

  /** The loop variables of the assignment */
  datatype State = State(gameIndex: nat, playerIndex: nat, attempts: nat, assignments: seq<Assignment>)

  datatype Outcome = Running(state: State) | Crashed(at: State)

  /** The script as written scans the wrap-around up to the player index the
      game started from, which can lie past the end of the pool; the corrected
      scan stops at the end of the pool. */
  datatype Variant = AsWritten | Corrected

  function Assign(s: State, g: PoolGame, playerId: string, k: nat): State
  {
    State(s.gameIndex + 1, k + 1, s.attempts + 1, s.assignments + [Assignment(g.gameId, g.owner, playerId)])
  }

  /** One iteration of the outer loop: the forward scan from the player index,
      then the wrap-around scan from the start of the pool */
  function Step(games: seq<PoolGame>, players: seq<Option<string>>, s: State, v: Variant): (r: Outcome)
    requires s.gameIndex < |games|
    ensures r.Running? ==> r.state.gameIndex == s.gameIndex + 1 && r.state.attempts == s.attempts + 1
  {
    var g := games[s.gameIndex];
    match FirstSuitable(players, g, s.assignments, s.playerIndex, |players|)
    case Some(k) => Running(Assign(s, g, players[k].value, k))
    case None =>
      match FirstSuitable(players, g, s.assignments, 0, Min(s.playerIndex, |players|))
      case Some(k) => Running(Assign(s, g, players[k].value, k))
      case None =>
        if v == AsWritten && s.playerIndex > |players| then Crashed(s)
        else Running(State(s.gameIndex + 1, s.playerIndex + 1, s.attempts + 1, s.assignments))
  }

  /** The outer loop, run while games remain and attempts are below the cap */
  function Run(games: seq<PoolGame>, players: seq<Option<string>>, s: State, v: Variant, maxAttempts: nat): (r: Outcome)
    decreases |games| - s.gameIndex
  {
    if s.gameIndex >= |games| || s.attempts >= maxAttempts then Running(s)
    else
      match Step(games, players, s, v)
      case Crashed(t) => Crashed(t)
      case Running(t) => Run(games, players, t, v, maxAttempts)
  }

  const Start := State(0, 0, 0, [])

  /** visualize_circular_assignment from the shuffled pools: the assignments,
      the tickets created (none in simulation mode), and the final loop state */
  function Assignments(games: seq<PoolGame>, players: seq<Option<string>>, v: Variant): Outcome
  {
    Run(games, players, Start, v, |players| * 2)
  }

  /** One game of the outer loop, as the script runs it: the forward scan, and
      when it finds nobody the wrap-around scan from the start of the pool,
      bounded here by the end of the pool */
  method PlaceGame(games: seq<PoolGame>, players: seq<Option<string>>, s: State) returns (t: State)
    requires s.gameIndex < |games|
    ensures Step(games, players, s, Corrected) == Running(t)
  {
    var g := games[s.gameIndex];
    var given := s.assignments;
    var gameIndex, playerIndex, attempts := s.gameIndex, s.playerIndex, s.attempts + 1;
    var originalPlayerIndex := playerIndex;
    var found := false;
    while playerIndex < |players| && !found
      invariant originalPlayerIndex <= playerIndex
      invariant originalPlayerIndex <= |players| ==> playerIndex <= |players|
      invariant !found ==> forall k :: originalPlayerIndex <= k < playerIndex && k < |players| ==> !Suitable(players[k], g, given)
      invariant found ==> FirstSuitable(players, g, given, originalPlayerIndex, |players|) == Some(playerIndex - 1)
                          && players[playerIndex - 1].Some?
      decreases |players| - playerIndex, if found then 0 else 1
    {
      var player := players[playerIndex];
      if player.Some? && player != g.owner && !AlreadyAssigned(given, player.value, g.gameId) {
        found := true;
      }
      playerIndex := playerIndex + 1;
    }
    if found {
      return Assign(s, g, players[playerIndex - 1].value, playerIndex - 1);
    }
    // the forward scan only stops unsuccessfully at the end of the pool
    playerIndex := 0;
    var bound := Min(originalPlayerIndex, |players|);
    while playerIndex < bound && !found
      invariant playerIndex <= bound
      invariant !found ==> forall k :: 0 <= k < playerIndex ==> !Suitable(players[k], g, given)
      invariant found ==> FirstSuitable(players, g, given, 0, bound) == Some(playerIndex - 1)
                          && players[playerIndex - 1].Some?
      decreases bound - playerIndex, if found then 0 else 1
    {
      var player := players[playerIndex];
      if player.Some? && player != g.owner && !AlreadyAssigned(given, player.value, g.gameId) {
        found := true;
      }
      playerIndex := playerIndex + 1;
    }
    if found {
      return Assign(s, g, players[playerIndex - 1].value, playerIndex - 1);
    }
    t := State(gameIndex + 1, originalPlayerIndex + 1, attempts, given);
  }

  /** The tickets createPlaytest is asked for: one per assignment, in order */
  function Tickets(assignments: seq<Assignment>): (r: seq<(Option<string>, string)>)
    ensures |r| == |assignments|
    ensures forall k :: 0 <= k < |r| ==> r[k] == (assignments[k].gameId, assignments[k].playerId)
  {
    if assignments == [] then []
    else Tickets(assignments[..|assignments| - 1])
         + [(assignments[|assignments| - 1].gameId, assignments[|assignments| - 1].playerId)]
  }

  /** visualize_circular_assignment over the shuffled pools (with the wrap-around
      scan bounded by the pool): the final loop state, and the tickets created,
      none in simulation mode */
  method CircularAssignment(games: seq<PoolGame>, players: seq<Option<string>>, simulation: bool)
    returns (final: State, created: seq<(Option<string>, string)>)
    ensures Assignments(games, players, Corrected) == Running(final)
    ensures created == if simulation then [] else Tickets(final.assignments)
  {
    var maxAttempts := |players| * 2;
    var s := Start;
    created := [];
    while s.gameIndex < |games| && s.attempts < maxAttempts
      invariant Run(games, players, s, Corrected, maxAttempts) == Assignments(games, players, Corrected)
      invariant created == if simulation then [] else Tickets(s.assignments)
      decreases |games| - s.gameIndex
    {
      var t := PlaceGame(games, players, s);
      if |t.assignments| > |s.assignments| && !simulation {
        var a := t.assignments[|t.assignments| - 1];
        assert t.assignments[..|t.assignments| - 1] == s.assignments;
        created := created + [(a.gameId, a.playerId)];
      }
      s := t;
    }
    final := s;
  }

  // ---------------------------------------------------------------------------
  // What the assignment guarantees

  /** Nobody tests their own game, no player gets the same game twice, at most
      one assignment is made per game entry, and every iteration advances the
      game index by exactly one */
  predicate Good(s: State)
  {
    && (forall a :: a in s.assignments ==> Some(a.playerId) != a.owner)
    && (forall i, j :: 0 <= i < j < |s.assignments| ==>
          s.assignments[i].playerId != s.assignments[j].playerId || s.assignments[i].gameId != s.assignments[j].gameId)
    && |s.assignments| <= s.gameIndex
    && s.attempts == s.gameIndex
  }

  lemma StepKeepsGood(games: seq<PoolGame>, players: seq<Option<string>>, s: State, v: Variant)
    requires s.gameIndex < |games| && Good(s)
    ensures Step(games, players, s, v).Running? ==> Good(Step(games, players, s, v).state)
    ensures Step(games, players, s, v).Crashed? ==> Step(games, players, s, v).at == s
  {
    var r := Step(games, players, s, v);
    if r.Running? && |r.state.assignments| > |s.assignments| {
      var t := r.state;
      var a := t.assignments[|t.assignments| - 1];
      assert t.assignments == s.assignments + [a];
      assert !AlreadyAssigned(s.assignments, a.playerId, a.gameId);
      forall i | 0 <= i < |s.assignments|
        ensures t.assignments[i].playerId != a.playerId || t.assignments[i].gameId != a.gameId
      {
        assert t.assignments[i] in s.assignments;
      }
    }
  }

  lemma {:induction false} RunKeepsGood(games: seq<PoolGame>, players: seq<Option<string>>, s: State, v: Variant, maxAttempts: nat)
    requires Good(s) && s.gameIndex <= |games|
    ensures var r := Run(games, players, s, v, maxAttempts);
      && (r.Running? ==> Good(r.state) && r.state.gameIndex <= |games|)
      && (r.Crashed? ==> Good(r.at) && r.at.gameIndex < |games|)
    decreases |games| - s.gameIndex
  {
    if s.gameIndex < |games| && s.attempts < maxAttempts {
      StepKeepsGood(games, players, s, v);
      var r := Step(games, players, s, v);
      if r.Running? {
        RunKeepsGood(games, players, r.state, v, maxAttempts);
      }
    }
  }

  /** Every assignment is valid and no (player, game) pair repeats, whichever
      scan the script uses. */
  lemma AssignmentsAreValid(games: seq<PoolGame>, players: seq<Option<string>>, v: Variant)
    ensures var r := Assignments(games, players, v);
      Good(if r.Running? then r.state else r.at)
  {
    RunKeepsGood(games, players, Start, v, |players| * 2);
  }

  /** A game is skipped only when no player anywhere in the pool may take it,
      as long as the player index has not run past the end of the pool. */
  lemma SkippedOnlyWhenNobodyFits(games: seq<PoolGame>, players: seq<Option<string>>, s: State, v: Variant)
    requires s.gameIndex < |games|
    requires v == Corrected || s.playerIndex <= |players|
    requires Step(games, players, s, v).Running?
    requires |Step(games, players, s, v).state.assignments| == |s.assignments|
    ensures Step(games, players, s, v).state.playerIndex == s.playerIndex + 1
    ensures forall k :: 0 <= k < |players| ==> !Suitable(players[k], games[s.gameIndex], s.assignments)
  {
    var g := games[s.gameIndex];
    assert FirstSuitable(players, g, s.assignments, s.playerIndex, |players|).None?;
    assert FirstSuitable(players, g, s.assignments, 0, Min(s.playerIndex, |players|)).None?;
  }

  /** With the scan bounded by the pool the loop never indexes past it. */
  lemma {:induction false} CorrectedRunNeverCrashes(games: seq<PoolGame>, players: seq<Option<string>>, s: State, maxAttempts: nat)
    ensures Run(games, players, s, Corrected, maxAttempts).Running?
    decreases |games| - s.gameIndex
  {
    if s.gameIndex < |games| && s.attempts < maxAttempts {
      CorrectedRunNeverCrashes(games, players, Step(games, players, s, Corrected).state, maxAttempts);
    }
  }

  /** With the attempt cap of twice the player pool, every game entry is visited
      when the pools are the same size, as the pools built from the records are. */
  lemma {:induction false} RunVisitsAllGames(games: seq<PoolGame>, players: seq<Option<string>>, s: State, maxAttempts: nat)
    requires Good(s) && s.gameIndex <= |games| <= maxAttempts
    requires Run(games, players, s, Corrected, maxAttempts).Running?
    ensures Run(games, players, s, Corrected, maxAttempts).state.gameIndex == |games|
    decreases |games| - s.gameIndex
  {
    if s.gameIndex < |games| {
      StepKeepsGood(games, players, s, Corrected);
      RunVisitsAllGames(games, players, Step(games, players, s, Corrected).state, maxAttempts);
    }
  }

  lemma AllGamesVisited(games: seq<PoolGame>, players: seq<Option<string>>)
    requires |games| == |players|
    ensures Assignments(games, players, Corrected).Running?
    ensures Assignments(games, players, Corrected).state.gameIndex == |games|
    ensures |Assignments(games, players, Corrected).state.assignments| <= |games|
  {
    CorrectedRunNeverCrashes(games, players, Start, |players| * 2);
    RunVisitsAllGames(games, players, Start, |players| * 2);
    AssignmentsAreValid(games, players, Corrected);
  }

  // ---------------------------------------------------------------------------
  // The wrap-around scan as written

  /** Owner a needs three tickets for game ga, owner b one for game gb; the
      shuffles put b last in the player pool. Game 1 gives ga to b, which moves
      the player index to the end of the pool; game 2 finds nobody (the a's own
      ga, b has it) and sets the index one past the end; game 3 then scans the
      wrap-around up to that index and reads the pool one past its end. */
  lemma AsWrittenWrapScanOverruns(ga: string, gb: string, a: string, b: string)
    requires a != b && ga != gb
    ensures var games := [PoolGame(Some(ga), Some(a)), PoolGame(Some(ga), Some(a)), PoolGame(Some(ga), Some(a)), PoolGame(Some(gb), Some(b))];
      var players := [Some(a), Some(a), Some(a), Some(b)];
      && Assignments(games, players, AsWritten) == Crashed(State(2, 5, 2, [Assignment(Some(ga), Some(a), b)]))
      && Assignments(games, players, Corrected).Running?
  {
    var games := [PoolGame(Some(ga), Some(a)), PoolGame(Some(ga), Some(a)), PoolGame(Some(ga), Some(a)), PoolGame(Some(gb), Some(b))];
    var players := [Some(a), Some(a), Some(a), Some(b)];
    var s1 := State(1, 4, 1, [Assignment(Some(ga), Some(a), b)]);
    var s2 := State(2, 5, 2, [Assignment(Some(ga), Some(a), b)]);
    assert AlreadyAssigned(s1.assignments, b, Some(ga)) by {
      assert s1.assignments[0] in s1.assignments;
    }
    assert FirstSuitable(players, games[0], [], 0, 4) == Some(3);
    assert Step(games, players, Start, AsWritten) == Running(s1);
    assert FirstSuitable(players, games[1], s1.assignments, 0, 4).None?;
    assert Step(games, players, s1, AsWritten) == Running(s2);
    assert FirstSuitable(players, games[2], s2.assignments, 0, 4).None?;
    assert Step(games, players, s2, AsWritten) == Crashed(s2);
    assert Run(games, players, s2, AsWritten, 8) == Crashed(s2);
    assert Run(games, players, s1, AsWritten, 8) == Crashed(s2);
    assert Run(games, players, Start, AsWritten, 8) == Crashed(s2);
    CorrectedRunNeverCrashes(games, players, Start, 8);
  }
}
