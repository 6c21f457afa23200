/** The post-hours script: the legacy seconds total of a game, and the hours a
    post stands for, measured as the overlap of the user's Hackatime spans with
    the window between the previous post and this one. Times are whole seconds. */
module HackatimeSpans {
  import opened Common
  import opened Airtable
  import HackatimeSync

  // ---------------------------------------------------------------------------
  // calculateProjectSeconds (the script's copy, without claiming)

  /** The seconds of every matched name, a repeated name counted each time */
  function SumMatched(projects: seq<HackProject>, names: seq<string>): nat
  {
    if names == [] then 0 else Matched(projects, names[0]) + SumMatched(projects, names[1..])
  }

  /** The seconds one listed name adds: none for "" or a name no project has */
  function Matched(projects: seq<HackProject>, name: string): nat
  {
    if name == "" then 0
    else match FindProject(projects, Lower(name)) case Some(p) => p.seconds case None => 0
  }

  lemma SumMatchedAt(projects: seq<HackProject>, names: seq<string>, i: nat)
    requires i < |names|
    ensures SumMatched(projects, names[i..]) == Matched(projects, names[i]) + SumMatched(projects, names[i + 1..])
  {
    assert names[i..][1..] == names[i + 1..];
  }

  method CalculateProjectSeconds(projects: seq<HackProject>, field: ProjectsField) returns (total: nat)
    ensures total == if !FieldTruthy(field) || |projects| == 0 then 0 else SumMatched(projects, ProjectNames(field))
  {
    total := 0;
    if !FieldTruthy(field) || |projects| == 0 {
      return;
    }
    var names := ProjectNames(field);
    var i := 0;
    while i < |names|
      invariant 0 <= i <= |names|
      invariant SumMatched(projects, names) == total + SumMatched(projects, names[i..])
    {
      SumMatchedAt(projects, names, i);
      var name := names[i];
      if name != "" {
        var matching := FindProject(projects, Lower(name));
        if matching.Some? {
          total := total + matching.value.seconds;
        }
      }
      i := i + 1;
    }
    assert names[i..] == [];
  }

  /** The total over a concatenation is the sum of the totals: a name listed
      twice is counted twice. */
  lemma {:induction false} SumMatchedAppend(projects: seq<HackProject>, a: seq<string>, b: seq<string>)
    ensures SumMatched(projects, a + b) == SumMatched(projects, a) + SumMatched(projects, b)
    decreases |a|
  {
    if a == [] {
      assert a + b == b;
    } else {
      assert (a + b)[1..] == a[1..] + b;
      SumMatchedAppend(projects, a[1..], b);
    }
  }

  /** The claiming total never exceeds this one: claiming only drops repeats. */
  lemma {:induction false} ClaimingCountsNoMore(projects: seq<HackProject>, names: seq<string>, claimed: set<string>)
    ensures HackatimeSync.ClaimNames(projects, names, claimed).total <= SumMatched(projects, names)
    decreases |names|
  {
    if names != [] {
      ClaimingCountsNoMore(projects, names[1..], claimed);
      ClaimingCountsNoMore(projects, names[1..], claimed + {Lower(names[0])});
    }
  }

  /** Without any repeated name (case-insensitively) the two totals agree. */
  lemma {:induction false} DistinctNamesCountAlike(projects: seq<HackProject>, names: seq<string>)
    requires forall i, j :: 0 <= i < j < |names| ==> Lower(names[i]) != Lower(names[j])
    ensures HackatimeSync.ClaimNames(projects, names, {}).total == SumMatched(projects, names)
  {
    DistinctFrom(projects, names, {});
  }

  lemma {:induction false} DistinctFrom(projects: seq<HackProject>, names: seq<string>, claimed: set<string>)
    requires forall i, j :: 0 <= i < j < |names| ==> Lower(names[i]) != Lower(names[j])
    requires forall i :: 0 <= i < |names| ==> Lower(names[i]) !in claimed
    ensures HackatimeSync.ClaimNames(projects, names, claimed).total == SumMatched(projects, names)
    decreases |names|
  {
    if names != [] {
      var low := Lower(names[0]);
      assert forall i :: 0 <= i < |names[1..]| ==> names[1..][i] == names[i + 1];
      DistinctFrom(projects, names[1..], claimed);
      DistinctFrom(projects, names[1..], claimed + {low});
    }
  }

  // ---------------------------------------------------------------------------
  // calculateHoursFromSpans

  /** One Hackatime span, in seconds */
  datatype Span = Span(start: int, end: int)

  /** The overlap of a span with the window [a, b], counted only when positive */
  function Overlap(s: Span, a: int, b: int): (r: nat)
    ensures r <= if b - a < 0 then 0 else b - a
  {
    if s.start < b && s.end > a then
      var d := Min(s.end, b) - Max(s.start, a);
      if d > 0 then d else 0
    else 0
  }

  function SpansOverlap(spans: seq<Span>, a: int, b: int): nat
  {
    if spans == [] then 0 else Overlap(spans[0], a, b) + SpansOverlap(spans[1..], a, b)
  }

  /** spansData[name] || [] */
  function SpansOf(spansData: map<string, seq<Span>>, name: string): seq<Span>
  {
    if name in spansData then spansData[name] else []
  }

  /** The overlap, in seconds, of all spans of the named projects with [a, b] */
  function TotalOverlap(spansData: map<string, seq<Span>>, names: seq<string>, a: int, b: int): nat
  {
    if names == [] then 0
    else SpansOverlap(SpansOf(spansData, names[0]), a, b) + TotalOverlap(spansData, names[1..], a, b)
  }

  method CalculateHoursFromSpans(spansData: map<string, seq<Span>>, names: seq<string>, startTime: int, endTime: int)
    returns (hours: real)
    ensures hours == TotalOverlap(spansData, names, startTime, endTime) as real / 3600.0
    ensures hours >= 0.0
  {
    var totalSeconds: nat := 0;
    var i := 0;
    while i < |names|
      invariant 0 <= i <= |names|
      invariant TotalOverlap(spansData, names, startTime, endTime)
             == totalSeconds + TotalOverlap(spansData, names[i..], startTime, endTime)
    {
      assert names[i..][1..] == names[i + 1..];
      var projectSpans := SpansOf(spansData, names[i]);
      var j := 0;
      ghost var before := totalSeconds;
      while j < |projectSpans|
        invariant 0 <= j <= |projectSpans| && before <= totalSeconds
        invariant SpansOverlap(projectSpans, startTime, endTime)
               == (totalSeconds - before) + SpansOverlap(projectSpans[j..], startTime, endTime)
      {
        assert projectSpans[j..][1..] == projectSpans[j + 1..];
        var span := projectSpans[j];
        if span.start < endTime && span.end > startTime {
          var overlapStart := Max(span.start, startTime);
          var overlapEnd := Min(span.end, endTime);
          var overlapDuration := overlapEnd - overlapStart;
          if overlapDuration > 0 {
            totalSeconds := totalSeconds + overlapDuration;
          }
        }
        j := j + 1;
      }
      assert projectSpans[j..] == [];
      i := i + 1;
    }
    assert names[i..] == [];
    hours := totalSeconds as real / 3600.0;
  }

  /** A window with start >= end yields nothing. */
  lemma {:induction false} EmptyWindowGivesZero(spansData: map<string, seq<Span>>, names: seq<string>, a: int, b: int)
    requires a >= b
    ensures TotalOverlap(spansData, names, a, b) == 0
    decreases |names|
  {
    if names != [] {
      SpansEmptyWindow(SpansOf(spansData, names[0]), a, b);
      EmptyWindowGivesZero(spansData, names[1..], a, b);
    }
  }

  lemma {:induction false} SpansEmptyWindow(spans: seq<Span>, a: int, b: int)
    requires a >= b
    ensures SpansOverlap(spans, a, b) == 0
    decreases |spans|
  {
    if spans != [] {
      SpansEmptyWindow(spans[1..], a, b);
    }
  }

  /** Projects without a spans entry contribute nothing. */
  lemma {:induction false} UntrackedProjectsAddNothing(spansData: map<string, seq<Span>>, names: seq<string>, a: int, b: int)
    requires forall n :: n in names ==> n !in spansData
    ensures TotalOverlap(spansData, names, a, b) == 0
    decreases |names|
  {
    if names != [] {
      assert names[0] in names;
      assert forall n :: n in names[1..] ==> n in names;
      UntrackedProjectsAddNothing(spansData, names[1..], a, b);
    }
  }

  /** Splitting a window at a point inside it splits each overlap. */
  lemma OverlapSplits(s: Span, a: int, m: int, b: int)
    requires a <= m <= b
    ensures Overlap(s, a, m) + Overlap(s, m, b) == Overlap(s, a, b)
  {
  }

  lemma {:induction false} SpansOverlapSplits(spans: seq<Span>, a: int, m: int, b: int)
    requires a <= m <= b
    ensures SpansOverlap(spans, a, m) + SpansOverlap(spans, m, b) == SpansOverlap(spans, a, b)
    decreases |spans|
  {
    if spans != [] {
      OverlapSplits(spans[0], a, m, b);
      SpansOverlapSplits(spans[1..], a, m, b);
    }
  }

  /** The total overlap is additive over adjacent windows. */
  lemma {:induction false} TotalOverlapSplits(spansData: map<string, seq<Span>>, names: seq<string>, a: int, m: int, b: int)
    requires a <= m <= b
    ensures TotalOverlap(spansData, names, a, m) + TotalOverlap(spansData, names, m, b)
         == TotalOverlap(spansData, names, a, b)
    decreases |names|
  {
    if names != [] {
      SpansOverlapSplits(SpansOf(spansData, names[0]), a, m, b);
      TotalOverlapSplits(spansData, names[1..], a, m, b);
    }
  }

  // ---------------------------------------------------------------------------
  // processGamePosts

  /** A post of the game with its creation time in seconds */
  datatype Post = Post(id: string, createdAt: int)

  predicate SortedByTime(posts: seq<Post>)
  {
    forall i, j :: 0 <= i < j < |posts| ==> posts[i].createdAt <= posts[j].createdAt
  }

  /** Insert a post before the first post not earlier than it; the post
      inserted came first, so equal times keep their order (a stable sort) */
  function Insert(p: Post, sorted: seq<Post>): (r: seq<Post>)
    ensures multiset(r) == multiset(sorted) + multiset{p} && |r| == |sorted| + 1
  {
    if sorted == [] then [p]
    else if p.createdAt <= sorted[0].createdAt then [p] + sorted
    else
      assert sorted == [sorted[0]] + sorted[1..];
      [sorted[0]] + Insert(p, sorted[1..])
  }

  lemma {:induction false} InsertKeepsOrder(p: Post, sorted: seq<Post>)
    requires SortedByTime(sorted)
    ensures SortedByTime(Insert(p, sorted))
    decreases |sorted|
  {
    if sorted != [] && p.createdAt > sorted[0].createdAt {
      var rest := Insert(p, sorted[1..]);
      InsertKeepsOrder(p, sorted[1..]);
      forall q | q in rest
        ensures sorted[0].createdAt <= q.createdAt
      {
        assert q in multiset(rest);
        if q != p {
          assert q in multiset(sorted[1..]);
          var k :| 0 <= k < |sorted[1..]| && sorted[1..][k] == q;
          assert sorted[k + 1] == q;
        }
      }
      var r := [sorted[0]] + rest;
      assert forall j :: 0 < j < |r| ==> r[j] == rest[j - 1];
    }
  }

  /** posts.sort by creation time, oldest first */
  function SortByTime(posts: seq<Post>): (r: seq<Post>)
    ensures SortedByTime(r) && multiset(r) == multiset(posts) && |r| == |posts|
  {
    if posts == [] then []
    else
      assert posts == [posts[0]] + posts[1..];
      var rest := SortByTime(posts[1..]);
      InsertKeepsOrder(posts[0], rest);
      Insert(posts[0], rest)
  }

  /** The window of the i-th sorted post: from the tracking start for the
      first, from the previous post for the others */
  function WindowStart(sorted: seq<Post>, startDate: int, i: nat): int
    requires i < |sorted|
  {
    if i == 0 then startDate else sorted[i - 1].createdAt
  }

  /** What is written to the i-th sorted post: its id and its window's hours */
  function PostHours(spansData: map<string, seq<Span>>, names: seq<string>, sorted: seq<Post>, startDate: int, i: nat): (string, real)
    requires i < |sorted|
  {
    (sorted[i].id, TotalOverlap(spansData, names, WindowStart(sorted, startDate, i), sorted[i].createdAt) as real / 3600.0)
  }

  /** processGamePosts: None when the game names no project (no posts are
      fetched); otherwise the hours written to each post, oldest first.
      `fetchedPosts` is what fetchPostsForGame returned. */
  method ProcessGamePosts(field: ProjectsField, spansData: map<string, seq<Span>>, startDate: int,
                          fetchedPosts: seq<Post>)
    returns (updates: Option<seq<(string, real)>>)
    ensures |ProjectNames(field)| == 0 <==> updates.None?
    ensures updates.Some? ==>
      && |updates.value| == |fetchedPosts|
      && forall i :: 0 <= i < |fetchedPosts| ==>
           updates.value[i] == PostHours(spansData, ProjectNames(field), SortByTime(fetchedPosts), startDate, i)
  {
    var names := ProjectNames(field);
    if |names| == 0 {
      return None;
    }
    var posts := SortByTime(fetchedPosts);
    var result: seq<(string, real)> := [];
    var i := 0;
    while i < |posts|
      invariant 0 <= i <= |posts| && |result| == i
      invariant forall k :: 0 <= k < i ==> result[k] == PostHours(spansData, names, posts, startDate, k)
    {
      var hours := CalculateHoursFromSpans(spansData, names, WindowStart(posts, startDate, i), posts[i].createdAt);
      result := result + [(posts[i].id, hours)];
      i := i + 1;
    }
    updates := Some(result);
  }

  /** The seconds of the first n windows */
  function WindowSeconds(spansData: map<string, seq<Span>>, names: seq<string>, sorted: seq<Post>, startDate: int, n: nat): nat
    requires n <= |sorted|
  {
    if n == 0 then 0
    else WindowSeconds(spansData, names, sorted, startDate, n - 1)
         + TotalOverlap(spansData, names, WindowStart(sorted, startDate, n - 1), sorted[n - 1].createdAt)
  }

  /** The windows tile the tracked period: when tracking starts no later than
      the first post, the windows together cover exactly the overlap from the
      start date to the latest post, with nothing counted twice. */
  lemma {:induction false} WindowsTile(spansData: map<string, seq<Span>>, names: seq<string>, sorted: seq<Post>,
                                       startDate: int, n: nat)
    requires SortedByTime(sorted) && 0 < n <= |sorted|
    requires startDate <= sorted[0].createdAt
    ensures WindowSeconds(spansData, names, sorted, startDate, n)
         == TotalOverlap(spansData, names, startDate, sorted[n - 1].createdAt)
  {
    if n > 1 {
      WindowsTile(spansData, names, sorted, startDate, n - 1);
      TotalOverlapSplits(spansData, names, startDate, sorted[n - 2].createdAt, sorted[n - 1].createdAt);
    }
  }
}
