/** The public game-lookup endpoint: a per-IP sliding-window rate limiter held
    in memory, validation of the slack id and game name, and the game view with
    its Hackatime projects as one text. */
module GetGame {
  import opened Common
  import opened Airtable

  const RateLimitWindow := 60000
  const RateLimitMaxRequests := 10

  /** requests.filter(t => t > windowStart), in order */
  function Recent(history: seq<int>, windowStart: int): (r: seq<int>)
    ensures |r| <= |history|
    ensures forall t :: t in r <==> t in history && t > windowStart
  {
    if history == [] then []
    else (if history[0] > windowStart then [history[0]] else []) + Recent(history[1..], windowStart)
  }

  /** The module-level map from client IP to the times of its accepted requests */
  class RateLimiter {
    var requests: map<string, seq<int>>

    constructor()
      ensures requests == map[]
    {
      requests := map[];
    }

    /** rateLimitMap.get(ip), an unseen IP having none */
    function History(ip: string): seq<int>
      reads this
    {
      if ip in requests then requests[ip] else []
    }

    /** No IP has more than the allowed number of requests on record */
    predicate Bounded()
      reads this
    {
      forall ip :: ip in requests ==> |requests[ip]| <= RateLimitMaxRequests
    }

    /** The rate-limit step of the handler: 429 (false) when the IP already has
        the maximum number of requests strictly inside the last minute, and then
        nothing is recorded; otherwise the stale times are dropped and `now`
        appended. */
    method Admit(ip: string, now: int) returns (allowed: bool)
      modifies this
      ensures allowed <==> |Recent(old(History(ip)), now - RateLimitWindow)| < RateLimitMaxRequests
      ensures allowed ==> requests == old(requests)[ip := Recent(old(History(ip)), now - RateLimitWindow) + [now]]
      ensures !allowed ==> requests == old(requests)
      ensures old(Bounded()) ==> Bounded()
    {
      var windowStart := now - RateLimitWindow;
      if ip !in requests {
        requests := requests[ip := []];
      }
      var recentRequests := Recent(requests[ip], windowStart);
      if |recentRequests| >= RateLimitMaxRequests {
        return false;
      }
      requests := requests[ip := recentRequests + [now]];
      allowed := true;
    }
  }

  /** A request is accepted once a minute has passed since every recorded one. */
  lemma {:induction false} QuietMinuteAdmits(history: seq<int>, now: int)
    requires forall t :: t in history ==> t <= now - RateLimitWindow
    ensures Recent(history, now - RateLimitWindow) == []
    decreases |history|
  {
    if history != [] {
      assert history[0] in history;
      forall t | t in history[1..]
        ensures t <= now - RateLimitWindow
      {
        assert t in history;
      }
      QuietMinuteAdmits(history[1..], now);
    }
  }

  /** Filtering by an older window and then a newer one is filtering by the newer one. */
  lemma {:induction false} RecentOfRecent(history: seq<int>, w1: int, w2: int)
    requires w1 <= w2
    ensures Recent(Recent(history, w1), w2) == Recent(history, w2)
    decreases |history|
  {
    if history != [] {
      RecentOfRecent(history[1..], w1, w2);
      var head := if history[0] > w1 then [history[0]] else [];
      assert Recent(history, w1) == head + Recent(history[1..], w1);
      RecentAppend(head, Recent(history[1..], w1), w2);
    }
  }

  /** Filtering distributes over concatenation. */
  lemma {:induction false} RecentAppend(a: seq<int>, b: seq<int>, w: int)
    ensures Recent(a + b, w) == Recent(a, w) + Recent(b, w)
    decreases |a|
  {
    if a == [] {
      assert a + b == b;
    } else {
      assert (a + b)[1..] == a[1..] + b;
      RecentAppend(a[1..], b, w);
    }
  }

  /** With time moving forward, re-filtering what an accepted request stored
      gives the same recent requests as filtering the whole history: pruning
      loses nothing a later window would count. */
  lemma PruningLosesNothing(history: seq<int>, now: int, later: int)
    requires now <= later
    ensures Recent(Recent(history, now - RateLimitWindow) + [now], later - RateLimitWindow)
         == Recent(history + [now], later - RateLimitWindow)
  {
    RecentAppend(Recent(history, now - RateLimitWindow), [now], later - RateLimitWindow);
    RecentAppend(history, [now], later - RateLimitWindow);
    RecentOfRecent(history, now - RateLimitWindow, later - RateLimitWindow);
  }

  // ---------------------------------------------------------------------------
  // Input validation

  /** /^[A-Z0-9]+$/ */
  predicate SlackIdFormat(s: string)
  {
    |s| > 0 && forall i :: 0 <= i < |s| ==> ('A' <= s[i] <= 'Z' || IsDigit(s[i]))
  }

  /** What the checks demand of the trimmed slack id and game name */
  predicate Acceptable(id: string, name: string)
  {
    SlackIdFormat(id) && |id| <= 20 && 0 < |name| <= 200
  }

  datatype Rejection = MissingFields | InvalidTypes | EmptyValues | BadSlackId | TooLong

  datatype Validated = Invalid(reason: Rejection) | Valid(slackId: string, gameName: string)

  /** The checks on the body, in the handler's order */
  function Validate(slackId: JsValue, gameName: JsValue): (r: Validated)
    ensures r.Valid? <==> slackId.Str? && gameName.Str? && Acceptable(Trim(slackId.s), Trim(gameName.s))
    ensures r.Valid? ==> r.slackId == Trim(slackId.s) && r.gameName == Trim(gameName.s)
    ensures !Truthy(slackId) || !Truthy(gameName) ==> r == Invalid(MissingFields)
  {
    if !Truthy(slackId) || !Truthy(gameName) then
      MissingNotAcceptable(slackId, gameName);
      Invalid(MissingFields)
    else if slackId.Str? && gameName.Str? then CheckTrimmed(Trim(slackId.s), Trim(gameName.s))
    else Invalid(InvalidTypes)
  }

  /** A missing, empty or falsy field never passes the checks. */
  lemma MissingNotAcceptable(slackId: JsValue, gameName: JsValue)
    requires !Truthy(slackId) || !Truthy(gameName)
    ensures !(slackId.Str? && gameName.Str? && Acceptable(Trim(slackId.s), Trim(gameName.s)))
  {
    if slackId.Str? && gameName.Str? {
      assert slackId.s == "" || gameName.s == "";
      assert |Trim(slackId.s)| <= |slackId.s| && |Trim(gameName.s)| <= |gameName.s|;
    }
  }

  /** The checks on the trimmed values */
  function CheckTrimmed(id: string, name: string): (r: Validated)
    ensures r.Valid? <==> Acceptable(id, name)
    ensures r.Valid? ==> r.slackId == id && r.gameName == name
  {
    if |id| == 0 || |name| == 0 then Invalid(EmptyValues)
    else if !SlackIdFormat(id) then Invalid(BadSlackId)
    else if |id| > 20 || |name| > 200 then Invalid(TooLong)
    else Valid(id, name)
  }

  /** Surrounding white space never makes a valid request invalid. */
  lemma ValidationIgnoresPadding(slack: string, name: string)
    requires Trim(slack) != [] && Trim(name) != []
    ensures Validate(Str(slack), Str(name)) == Validate(Str(Trim(slack)), Str(Trim(name)))
  {
    TrimIdempotent(slack);
    TrimIdempotent(name);
    assert |Trim(slack)| <= |slack| && |Trim(name)| <= |name|;
    assert Truthy(Str(slack)) && Truthy(Str(name));
    assert Truthy(Str(Trim(slack))) && Truthy(Str(Trim(name)));
    assert Validate(Str(slack), Str(name)) == CheckTrimmed(Trim(slack), Trim(name));
    assert Validate(Str(Trim(slack)), Str(Trim(name))) == CheckTrimmed(Trim(Trim(slack)), Trim(Trim(name)));
  }

  // ---------------------------------------------------------------------------
  // The handler

  /** The game as found in the Games table, with the fields the view uses */
  datatype GameRecord = GameRecord(id: string, name: string, projects: ProjectsField)

  /** The exposed view of the game */
  datatype GameView = GameView(id: string, name: string, hackatimeProjects: string)

  function View(g: GameRecord): (v: GameView)
    ensures v.id == g.id && v.name == g.name
    ensures g.projects.Text? ==> v.hackatimeProjects == g.projects.text
    ensures g.projects.NoProjects? || g.projects.OtherValue? ==> v.hackatimeProjects == ""
  {
    GameView(g.id, g.name, ProjectsDisplay(g.projects))
  }

  datatype Reply = Reply(status: int, game: Option<GameView>)

  /** handler: 405 for anything but POST, 500 without an API key, then the
      rate limit, then validation; `found` is what the Games lookup returns
      for the validated slack id and name. */
  method Handle(limiter: RateLimiter, httpMethod: string, apiKey: string, ip: string, now: int,
                slackId: JsValue, gameName: JsValue, found: Option<GameRecord>)
    returns (reply: Reply)
    modifies limiter
    ensures httpMethod != "POST" ==> reply.status == 405 && unchanged(limiter)
    ensures httpMethod == "POST" && apiKey == "" ==> reply.status == 500 && unchanged(limiter)
    ensures httpMethod == "POST" && apiKey != "" ==>
      (reply.status == 429 <==> |Recent(old(limiter.History(ip)), now - RateLimitWindow)| >= RateLimitMaxRequests)
    ensures reply.status == 429 ==> limiter.requests == old(limiter.requests)
    ensures reply.status !in {405, 500, 429} ==>
      limiter.requests == old(limiter.requests)[ip := Recent(old(limiter.History(ip)), now - RateLimitWindow) + [now]]
    ensures reply.status == 400 <==>
      httpMethod == "POST" && apiKey != "" && reply.status != 429 && Validate(slackId, gameName).Invalid?
    ensures reply.status == 200 <==>
      httpMethod == "POST" && apiKey != "" && |Recent(old(limiter.History(ip)), now - RateLimitWindow)| < RateLimitMaxRequests
      && Validate(slackId, gameName).Valid? && found.Some?
    ensures reply.status == 200 ==> reply.game == Some(View(found.value))
    ensures reply.status != 200 ==> reply.game == None
  {
    if httpMethod != "POST" {
      return Reply(405, None);
    }
    if apiKey == "" {
      return Reply(500, None);
    }
    var allowed := limiter.Admit(ip, now);
    if !allowed {
      return Reply(429, None);
    }
    var input := Validate(slackId, gameName);
    if input.Invalid? {
      return Reply(400, None);
    }
    if found.None? {
      return Reply(404, None);
    }
    reply := Reply(200, Some(View(found.value)));
  }
}
