/** Where the signups came from: users without a referrer count towards the
    Hack Club community, the others towards referrals. */
module SignupData {
  import opened Common
  import opened Airtable

  /** The test of the forEach callback, with its redundant disjuncts:
      !referredBy || referredBy === '' || referredBy === null || referredBy === undefined */
  function CommunityAsWritten(referredBy: JsValue): (r: bool)
    ensures r <==> !Truthy(referredBy)
  {
    !Truthy(referredBy) || referredBy == Str("") || referredBy.Null? || referredBy.Undefined?
  }

  predicate FromCommunity(user: JsValue)
  {
    CommunityAsWritten(FieldOf(user, "ReferredBy"))
  }

  predicate Referred(user: JsValue)
  {
    !CommunityAsWritten(FieldOf(user, "ReferredBy"))
  }

  /** The forEach that bumps one of two counters per user */
  method CountSources(users: seq<JsValue>) returns (hackClubCommunity: nat, referrals: nat)
    ensures hackClubCommunity == Count(users, FromCommunity)
    ensures referrals == Count(users, Referred)
    ensures hackClubCommunity + referrals == |users|
  {
    hackClubCommunity, referrals := 0, 0;
    var i := 0;
    while i < |users|
      invariant 0 <= i <= |users|
      invariant Count(users, FromCommunity) == hackClubCommunity + Count(users[i..], FromCommunity)
      invariant Count(users, Referred) == referrals + Count(users[i..], Referred)
      invariant hackClubCommunity + referrals == i
    {
      assert users[i..][1..] == users[i + 1..];
      if CommunityAsWritten(FieldOf(users[i], "ReferredBy")) {
        hackClubCommunity := hackClubCommunity + 1;
      } else {
        referrals := referrals + 1;
      }
      i := i + 1;
    }
  }

  /** Every user is counted exactly once: the two sources partition the signups. */
  lemma SourcesPartition(users: seq<JsValue>)
    ensures Count(users, FromCommunity) + Count(users, Referred) == |users|
  {
    CountComplement(users, FromCommunity, Referred);
  }

  datatype Reply =
    | MethodNotAllowed
    | ConfigurationError
    | Failed
    | Signups(totalSignups: nat, hackClubCommunity: nat, referrals: nat)

  /** handler: 405 for anything but GET, 500 without an API key or when a page
      request fails (`failed`), otherwise the counts over every page of Users. */
  method Handle(httpMethod: string, apiKey: string, pages: seq<Page<JsValue>>, failed: bool)
    returns (reply: Reply)
    requires pages != [] && pages[|pages| - 1].offset == ""
    ensures httpMethod != "GET" <==> reply == MethodNotAllowed
    ensures httpMethod == "GET" && (apiKey == "" || failed) <==> reply.ConfigurationError? || reply.Failed?
    ensures reply.Signups? ==>
      && reply.totalSignups == |RecordsUntilEnd(pages)|
      && reply.hackClubCommunity == Count(RecordsUntilEnd(pages), FromCommunity)
      && reply.hackClubCommunity + reply.referrals == reply.totalSignups
  {
    if httpMethod != "GET" {
      return MethodNotAllowed;
    }
    if apiKey == "" {
      return ConfigurationError;
    }
    if failed {
      return Failed;
    }
    var users := FetchAllRecords(pages);
    var community, referrals := CountSources(users);
    reply := Signups(|users|, community, referrals);
  }
}
