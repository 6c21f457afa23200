/** The analytics funnel: how many users signed up, onboarded, connected
    Slack and Hackatime, and reached each ten-hour milestone, counted over
    every record of the Users table. */
module FunnelData {
  import opened Common
  import opened Airtable

  /** hasOnboarded === true */
  predicate Onboarded(user: JsValue)
  {
    FieldOf(user, "hasOnboarded") == Bool(true)
  }

  /** 'Hours Spent' is a number above zero: the user has Hackatime time */
  predicate ConnectedHackatime(user: JsValue)
  {
    FieldOf(user, "Hours Spent").Num? && FieldOf(user, "Hours Spent").n > 0.0
  }

  /** 'slack id' is a string that is not blank */
  predicate OnSlack(user: JsValue)
  {
    FieldOf(user, "slack id").Str? && Trim(FieldOf(user, "slack id").s) != ""
  }

  /** 'Hours Spent' is a number of at least `hours` */
  function HoursAtLeast(hours: real): JsValue -> bool
  {
    user => FieldOf(user, "Hours Spent").Num? && FieldOf(user, "Hours Spent").n >= hours
  }

  /** The counts of the response, in its field order */
  datatype Funnel = Funnel(
    signedUp: nat, onboarded: nat, slack: nat, connectedHackatime: nat,
    logged10Hours: nat, logged20Hours: nat, logged30Hours: nat, logged40Hours: nat, logged50Hours: nat,
    logged60Hours: nat, logged70Hours: nat, logged80Hours: nat, logged90Hours: nat, logged100Hours: nat)

  function FunnelOf(users: seq<JsValue>): Funnel
  {
    Funnel(
      |users|,
      Count(users, Onboarded),
      Count(users, OnSlack),
      Count(users, ConnectedHackatime),
      Count(users, HoursAtLeast(10.0)), Count(users, HoursAtLeast(20.0)), Count(users, HoursAtLeast(30.0)),
      Count(users, HoursAtLeast(40.0)), Count(users, HoursAtLeast(50.0)), Count(users, HoursAtLeast(60.0)),
      Count(users, HoursAtLeast(70.0)), Count(users, HoursAtLeast(80.0)), Count(users, HoursAtLeast(90.0)),
      Count(users, HoursAtLeast(100.0)))
  }

  /** The funnel narrows: every stage counts no more users than the one before it. */
  predicate Narrowing(f: Funnel)
  {
    && f.logged100Hours <= f.logged90Hours <= f.logged80Hours <= f.logged70Hours <= f.logged60Hours
    && f.logged60Hours <= f.logged50Hours <= f.logged40Hours <= f.logged30Hours <= f.logged20Hours
    && f.logged20Hours <= f.logged10Hours <= f.connectedHackatime <= f.signedUp
    && f.onboarded <= f.signedUp && f.slack <= f.signedUp
  }

  /** A user past a milestone is past every lower one. */
  lemma MilestoneBelow(users: seq<JsValue>, lower: real, higher: real)
    requires lower <= higher
    ensures Count(users, HoursAtLeast(higher)) <= Count(users, HoursAtLeast(lower))
  {
    CountMonotone(users, HoursAtLeast(higher), HoursAtLeast(lower));
  }

  /** The counts of any set of users form a narrowing funnel. */
  lemma FunnelNarrows(users: seq<JsValue>)
    ensures Narrowing(FunnelOf(users))
  {
    MilestoneBelow(users, 90.0, 100.0);
    MilestoneBelow(users, 80.0, 90.0);
    MilestoneBelow(users, 70.0, 80.0);
    MilestoneBelow(users, 60.0, 70.0);
    MilestoneBelow(users, 50.0, 60.0);
    MilestoneBelow(users, 40.0, 50.0);
    MilestoneBelow(users, 30.0, 40.0);
    MilestoneBelow(users, 20.0, 30.0);
    MilestoneBelow(users, 10.0, 20.0);
    CountMonotone(users, HoursAtLeast(10.0), ConnectedHackatime);
  }

  datatype Reply = MethodNotAllowed | ConfigurationError | Failed | Counts(funnel: Funnel)

  /** handler: 405 for anything but GET, 500 without an API key or when a page
      request fails (`failed`), otherwise the funnel over every page of Users. */
  method Handle(httpMethod: string, apiKey: string, pages: seq<Page<JsValue>>, failed: bool)
    returns (reply: Reply)
    requires pages != [] && pages[|pages| - 1].offset == ""
    ensures httpMethod != "GET" <==> reply == MethodNotAllowed
    ensures httpMethod == "GET" && (apiKey == "" || failed) <==> reply.ConfigurationError? || reply.Failed?
    ensures reply.Counts? ==> reply.funnel == FunnelOf(RecordsUntilEnd(pages)) && Narrowing(reply.funnel)
  {
    if httpMethod != "GET" {
      return MethodNotAllowed;
    }
    if apiKey == "" {
      return ConfigurationError;
    }
    if failed {
      return Failed;
    }
    var users := FetchAllRecords(pages);
    FunnelNarrows(users);
    reply := Counts(FunnelOf(users));
  }
}
