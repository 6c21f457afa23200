/** Submitting a playtest: finding the ticket through three fallbacks, and
    building the update that fills in only the fields still empty and always
    marks the ticket complete. */
module SubmitPlaytest {
  import opened Common
  import opened Airtable

  /** The ticket fields the submission may write */
  datatype Field =
    | FunScore | ArtScore | CreativityScore | AudioScore | MoodScore
    | Feedback | PlaytimeSeconds | Status

  /** The fields that take a submitted value, in the order they are considered */
  const Scored: seq<Field> := [FunScore, ArtScore, CreativityScore, AudioScore, MoodScore, Feedback, PlaytimeSeconds]

  lemma ScoredHoldsAllButStatus(f: Field)
    ensures f in Scored <==> f != Status
  {
    match f
    case FunScore => assert Scored[0] == f;
    case ArtScore => assert Scored[1] == f;
    case CreativityScore => assert Scored[2] == f;
    case AudioScore => assert Scored[3] == f;
    case MoodScore => assert Scored[4] == f;
    case Feedback => assert Scored[5] == f;
    case PlaytimeSeconds => assert Scored[6] == f;
    case Status =>
  }

  /** A field of a record, undefined when absent */
  function Get(m: map<Field, JsValue>, f: Field): JsValue
  {
    if f in m then m[f] else Undefined
  }

  /** `!currentFields[f] && value !== undefined` */
  predicate Writable(current: map<Field, JsValue>, submitted: map<Field, JsValue>, f: Field)
  {
    !Truthy(Get(current, f)) && !Get(submitted, f).Undefined?
  }

  /** The writable fields of a list with their submitted values */
  function FieldsUpdate(fields: seq<Field>, current: map<Field, JsValue>, submitted: map<Field, JsValue>): map<Field, JsValue>
  {
    map f | f in fields && Writable(current, submitted, f) :: Get(submitted, f)
  }

  function ScoredUpdate(current: map<Field, JsValue>, submitted: map<Field, JsValue>): map<Field, JsValue>
  {
    FieldsUpdate(Scored, current, submitted)
  }

  /** Considering one more field adds it when it is writable. */
  lemma FieldsUpdateStep(fields: seq<Field>, f: Field, current: map<Field, JsValue>, submitted: map<Field, JsValue>)
    ensures FieldsUpdate(fields + [f], current, submitted)
         == if Writable(current, submitted, f) then FieldsUpdate(fields, current, submitted)[f := Get(submitted, f)]
            else FieldsUpdate(fields, current, submitted)
  {
  }

  /** The update the handler sends: the scored update with the status set to Complete */
  function UpdateFor(current: map<Field, JsValue>, submitted: map<Field, JsValue>): map<Field, JsValue>
  {
    ScoredUpdate(current, submitted)[Status := Str("Complete")]
  }

  /** The scored fields written, in order: Object.keys(updateFields) before status */
  function WrittenKeys(fields: seq<Field>, current: map<Field, JsValue>, submitted: map<Field, JsValue>): seq<Field>
  {
    if fields == [] then []
    else (if Writable(current, submitted, fields[0]) then [fields[0]] else [])
         + WrittenKeys(fields[1..], current, submitted)
  }

  /** The written keys are the writable fields of the list, in order. */
  lemma {:induction false} WrittenKeysMembers(fields: seq<Field>, current: map<Field, JsValue>, submitted: map<Field, JsValue>)
    ensures forall f :: f in WrittenKeys(fields, current, submitted) <==> f in fields && Writable(current, submitted, f)
    decreases |fields|
  {
    if fields != [] {
      WrittenKeysMembers(fields[1..], current, submitted);
      assert fields == [fields[0]] + fields[1..];
    }
  }

  /** The ticket after the update */
  function Merge(current: map<Field, JsValue>, update: map<Field, JsValue>): map<Field, JsValue>
  {
    current + update
  }

  /** The loop over the scored fields, for any list of them */
  method FillFields(fields: seq<Field>, current: map<Field, JsValue>, submitted: map<Field, JsValue>)
    returns (update: map<Field, JsValue>, keys: seq<Field>)
    ensures update == FieldsUpdate(fields, current, submitted)
    ensures keys == WrittenKeys(fields, current, submitted)
  {
    update := map[];
    keys := [];
    var i := 0;
    while i < |fields|
      invariant 0 <= i <= |fields|
      invariant update == FieldsUpdate(fields[..i], current, submitted)
      invariant WrittenKeys(fields, current, submitted) == keys + WrittenKeys(fields[i..], current, submitted)
    {
      var f := fields[i];
      ghost var update0, keys0 := update, keys;
      if Writable(current, submitted, f) {
        update := update[f := Get(submitted, f)];
        keys := keys + [f];
      }
      FillStep(fields, i, current, submitted, update0, keys0, update, keys);
      i := i + 1;
    }
    assert fields[..i] == fields;
  }

  /** One iteration of the loop keeps its invariant. */
  lemma FillStep(fields: seq<Field>, i: nat, current: map<Field, JsValue>, submitted: map<Field, JsValue>,
                 update: map<Field, JsValue>, keys: seq<Field>, update': map<Field, JsValue>, keys': seq<Field>)
    requires i < |fields|
    requires update == FieldsUpdate(fields[..i], current, submitted)
    requires WrittenKeys(fields, current, submitted) == keys + WrittenKeys(fields[i..], current, submitted)
    requires Writable(current, submitted, fields[i]) ==> update' == update[fields[i] := Get(submitted, fields[i])] && keys' == keys + [fields[i]]
    requires !Writable(current, submitted, fields[i]) ==> update' == update && keys' == keys
    ensures update' == FieldsUpdate(fields[..i + 1], current, submitted)
    ensures WrittenKeys(fields, current, submitted) == keys' + WrittenKeys(fields[i + 1..], current, submitted)
  {
    WrittenKeysStep(fields, i, current, submitted);
    assert fields[..i + 1] == fields[..i] + [fields[i]];
    FieldsUpdateStep(fields[..i], fields[i], current, submitted);
  }

  lemma WrittenKeysStep(fields: seq<Field>, i: nat, current: map<Field, JsValue>, submitted: map<Field, JsValue>)
    requires i < |fields|
    ensures WrittenKeys(fields[i..], current, submitted)
         == (if Writable(current, submitted, fields[i]) then [fields[i]] else [])
            + WrittenKeys(fields[i + 1..], current, submitted)
  {
    assert fields[i..][1..] == fields[i + 1..];
  }

  /** updateFields built by successive conditional assignments */
  method BuildUpdateFields(current: map<Field, JsValue>, submitted: map<Field, JsValue>)
    returns (update: map<Field, JsValue>, keys: seq<Field>)
    ensures update == UpdateFor(current, submitted)
    ensures keys == WrittenKeys(Scored, current, submitted) + [Status]
    ensures forall f :: f in keys <==> f in update
  {
    update, keys := FillFields(Scored, current, submitted);
    WrittenKeysMembers(Scored, current, submitted);
    update := update[Status := Str("Complete")];
    keys := keys + [Status];
  }

  /** The update is never empty: the "all fields filled" reply cannot happen. */
  lemma UpdateNeverEmpty(current: map<Field, JsValue>, submitted: map<Field, JsValue>)
    ensures Status in UpdateFor(current, submitted)
    ensures UpdateFor(current, submitted)[Status] == Str("Complete")
  {
  }

  /** A field that already holds a truthy value keeps it. */
  lemma FilledFieldsKept(current: map<Field, JsValue>, submitted: map<Field, JsValue>, f: Field)
    requires f != Status && Truthy(Get(current, f))
    ensures Get(Merge(current, UpdateFor(current, submitted)), f) == Get(current, f)
  {
  }

  /** A field is written exactly when it was empty and a value was submitted. */
  lemma WrittenIff(current: map<Field, JsValue>, submitted: map<Field, JsValue>, f: Field)
    requires f != Status
    ensures f in UpdateFor(current, submitted) <==> Writable(current, submitted, f)
    ensures Get(Merge(current, UpdateFor(current, submitted)), f)
         == (if Writable(current, submitted, f) then Get(submitted, f) else Get(current, f))
  {
    ScoredHoldsAllButStatus(f);
  }

  /** Submitting the same values a second time leaves the ticket as the first
      submission left it. */
  lemma ResubmitChangesNothing(current: map<Field, JsValue>, submitted: map<Field, JsValue>)
    ensures var once := Merge(current, UpdateFor(current, submitted));
            Merge(once, UpdateFor(once, submitted)) == once
  {
    var once := Merge(current, UpdateFor(current, submitted));
    var twice := Merge(once, UpdateFor(once, submitted));
    forall f | f in twice
      ensures f in once && twice[f] == once[f]
    {
      if f == Status {
        UpdateNeverEmpty(current, submitted);
        UpdateNeverEmpty(once, submitted);
      } else {
        WrittenIff(current, submitted, f);
        WrittenIff(once, submitted, f);
      }
    }
    assert twice.Keys == once.Keys;
  }

  // ---------------------------------------------------------------------------
  // Finding the ticket

  /** A PlaytestTickets record, with both spellings of its id field */
  datatype Ticket = Ticket(id: string, playtestId: JsValue, playtestID: JsValue, fields: map<Field, JsValue>)

  datatype Query = ByPlaytestId | ByPlaytestID | ByEither

  /** The three ways the handler matches a ticket; the last one reads
      `PlaytestId || PlaytestID` */
  predicate Matches(t: Ticket, playtestId: string, q: Query)
  {
    match q
    case ByPlaytestId => t.playtestId == Str(playtestId)
    case ByPlaytestID => t.playtestID == Str(playtestId)
    case ByEither => (if Truthy(t.playtestId) then t.playtestId else t.playtestID) == Str(playtestId)
  }

  function MatchesOf(tickets: seq<Ticket>, playtestId: string, q: Query): (r: seq<Ticket>)
    ensures forall t :: t in r <==> t in tickets && Matches(t, playtestId, q)
    ensures |r| <= |tickets|
  {
    if tickets == [] then []
    else (if Matches(tickets[0], playtestId, q) then [tickets[0]] else [])
         + MatchesOf(tickets[1..], playtestId, q)
  }

  /** The first element of a list matching a query is the first match. */
  lemma {:induction false} FirstMatch(tickets: seq<Ticket>, playtestId: string, q: Query, k: nat)
    requires k < |tickets| && Matches(tickets[k], playtestId, q)
    requires forall j :: 0 <= j < k ==> !Matches(tickets[j], playtestId, q)
    ensures MatchesOf(tickets, playtestId, q) != [] && MatchesOf(tickets, playtestId, q)[0] == tickets[k]
    decreases k
  {
    if k > 0 {
      FirstMatch(tickets[1..], playtestId, q, k - 1);
    }
  }

  const PageSize := 100

  /** firstPage(): at most one page of records */
  function FirstPage<T>(s: seq<T>): (r: seq<T>)
    ensures |r| <= |s| && |r| <= PageSize && r == s[..|r|]
    ensures |s| <= PageSize ==> r == s
  {
    if |s| <= PageSize then s else s[..PageSize]
  }

  /** Every query of the lookup throws or matches nothing */
  predicate NoTicketFound(tickets: seq<Ticket>, playtestId: string, fails: seq<bool>)
    requires |fails| == 3
  {
    && (fails[0] || MatchesOf(tickets, playtestId, ByPlaytestId) == [])
    && (fails[1] || MatchesOf(tickets, playtestId, ByPlaytestID) == [])
    && (fails[2] || MatchesOf(FirstPage(tickets), playtestId, ByEither) == [])
  }

  /** A ticket on the first page is a ticket. */
  lemma FirstPageMembers(tickets: seq<Ticket>)
    ensures forall t :: t in FirstPage(tickets) ==> t in tickets
  {
    forall t | t in FirstPage(tickets)
      ensures t in tickets
    {
      var i :| 0 <= i < |FirstPage(tickets)| && FirstPage(tickets)[i] == t;
      assert tickets[i] == t;
    }
  }

  /** The tickets the lookup finds: the first query's page, else the second
      query's page, else the in-memory filter of the first page of all
      tickets; a query that throws (`fails[q]`) is passed over. */
  function Found(tickets: seq<Ticket>, playtestId: string, fails: seq<bool>): (r: seq<Ticket>)
    requires |fails| == 3
    ensures forall t :: t in r ==> t in tickets
    ensures forall t :: t in r ==> Matches(t, playtestId, ByPlaytestId) || Matches(t, playtestId, ByPlaytestID)
    ensures !fails[0] && MatchesOf(tickets, playtestId, ByPlaytestId) != [] ==>
      r != [] && r[0] == MatchesOf(tickets, playtestId, ByPlaytestId)[0]
    ensures !fails[0] && MatchesOf(tickets, playtestId, ByPlaytestId) == [] && !fails[1]
            && MatchesOf(tickets, playtestId, ByPlaytestID) != [] ==>
      r != [] && r[0] == MatchesOf(tickets, playtestId, ByPlaytestID)[0]
    ensures r == [] <==> NoTicketFound(tickets, playtestId, fails)
  {
    FirstPageMembers(tickets);
    var first := if fails[0] then [] else FirstPage(MatchesOf(tickets, playtestId, ByPlaytestId));
    var second := if |first| == 0 && !fails[1] then FirstPage(MatchesOf(tickets, playtestId, ByPlaytestID)) else first;
    if |second| == 0 && !fails[2] then MatchesOf(FirstPage(tickets), playtestId, ByEither) else second
  }

  /** The lookup: by PlaytestId, then by PlaytestID, then filtering the first
      page of all tickets in memory; a query that throws (`fails[q]`) leaves
      the list as it was. */
  method FindTicket(tickets: seq<Ticket>, playtestId: string, fails: seq<bool>) returns (found: seq<Ticket>)
    requires |fails| == 3
    ensures found == Found(tickets, playtestId, fails)
    ensures forall t :: t in found ==> t in tickets
    ensures forall t :: t in found ==> Matches(t, playtestId, ByPlaytestId) || Matches(t, playtestId, ByPlaytestID)
    ensures !fails[0] && MatchesOf(tickets, playtestId, ByPlaytestId) != [] ==>
      found != [] && found[0] == MatchesOf(tickets, playtestId, ByPlaytestId)[0]
    ensures !fails[0] && MatchesOf(tickets, playtestId, ByPlaytestId) == [] && !fails[1]
            && MatchesOf(tickets, playtestId, ByPlaytestID) != [] ==>
      found != [] && found[0] == MatchesOf(tickets, playtestId, ByPlaytestID)[0]
    ensures found == [] <==> NoTicketFound(tickets, playtestId, fails)
  {
    found := [];
    if !fails[0] {
      found := FirstPage(MatchesOf(tickets, playtestId, ByPlaytestId));
    }
    if |found| == 0 && !fails[1] {
      found := FirstPage(MatchesOf(tickets, playtestId, ByPlaytestID));
    }
    if |found| == 0 && !fails[2] {
      found := MatchesOf(FirstPage(tickets), playtestId, ByEither);
    }
  }

  /** A ticket carrying the id under PlaytestId is among the first query's matches,
      so with that query working the lookup succeeds. */
  lemma TicketFoundWhenIdPresent(tickets: seq<Ticket>, playtestId: string, k: nat)
    requires k < |tickets| && tickets[k].playtestId == Str(playtestId)
    ensures MatchesOf(tickets, playtestId, ByPlaytestId) != []
  {
    assert tickets[k] in MatchesOf(tickets, playtestId, ByPlaytestId);
  }

  // ---------------------------------------------------------------------------
  // The handler

  datatype Reply = Reply(status: int, ticketId: Option<string>, update: map<Field, JsValue>, updatedFields: seq<Field>)

  /** handler: 405, 400 without token or playtest id, 401 for an unknown token
      (`userFound`), 404 when no ticket is found, else the first ticket found
      receives the update. */
  method Submit(httpMethod: string, token: string, playtestId: string, userFound: bool,
                tickets: seq<Ticket>, fails: seq<bool>, submitted: map<Field, JsValue>)
    returns (reply: Reply)
    requires |fails| == 3
    ensures reply.status == 405 <==> httpMethod != "POST"
    ensures reply.status == 400 <==> httpMethod == "POST" && (token == "" || playtestId == "")
    ensures reply.status == 401 <==> httpMethod == "POST" && token != "" && playtestId != "" && !userFound
    ensures reply.status == 200 ==>
      var found := Found(tickets, playtestId, fails);
      found != [] && reply.ticketId == Some(found[0].id) && reply.update == UpdateFor(found[0].fields, submitted)
    ensures reply.status == 404 <==>
      httpMethod == "POST" && token != "" && playtestId != "" && userFound && NoTicketFound(tickets, playtestId, fails)
    ensures reply.status == 200 ==> Status in reply.update
    ensures reply.status == 200 ==> forall f :: f in reply.updatedFields <==> f in reply.update
    ensures reply.status != 200 ==> reply.ticketId == None && reply.update == map[]
    ensures reply.status in {200, 400, 401, 404, 405}
  {
    if httpMethod != "POST" {
      return Reply(405, None, map[], []);
    }
    if token == "" || playtestId == "" {
      return Reply(400, None, map[], []);
    }
    if !userFound {
      return Reply(401, None, map[], []);
    }
    var found := FindTicket(tickets, playtestId, fails);
    if |found| == 0 {
      return Reply(404, None, map[], []);
    }
    var ticket := found[0];
    var update, keys := BuildUpdateFields(ticket.fields, submitted);
    UpdateNeverEmpty(ticket.fields, submitted);
    reply := Reply(200, Some(ticket.id), update, keys);
  }
}
