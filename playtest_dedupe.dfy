/** The duplicate-ticket cleanup: playtest tickets are grouped by player and
    game, a group of more than one ticket is a duplicate, and in each duplicate
    group the oldest ticket is kept and the others are deleted. */
module PlaytestDedupe {
  import opened Common

  /** A playtest ticket: its record id, first linked player and game, and its
      creation time as the ISO text Airtable gives */
  datatype Ticket = Ticket(recordId: string, player: Option<string>, game: Option<string>, createdTime: string)

  /** Both links are present and non-empty */
  predicate Linked(t: Ticket)
  {
    t.player.Some? && t.player.value != "" && t.game.Some? && t.game.value != ""
  }

  /** f"{player}_{game}" */
  function Key(t: Ticket): string
    requires Linked(t)
  {
    t.player.value + "_" + t.game.value
  }

  // ---------------------------------------------------------------------------
  // analyze_duplicates

  /** The groups after the tickets of `records` were appended to their keys */
  function Grouped(records: seq<Ticket>): map<string, seq<Ticket>>
  {
    if records == [] then map[]
    else
      var m := Grouped(records[..|records| - 1]);
      var t := records[|records| - 1];
      if Linked(t) then m[Key(t) := (if Key(t) in m then m[Key(t)] else []) + [t]] else m
  }

  /** The keys in the order of their first ticket (the dict's insertion order) */
  function KeyOrder(records: seq<Ticket>): (r: seq<string>)
  {
    if records == [] then []
    else
      var ks := KeyOrder(records[..|records| - 1]);
      var t := records[|records| - 1];
      if Linked(t) && Key(t) !in ks then ks + [Key(t)] else ks
  }

  /** Each group holds exactly the linked tickets with its key, in order, and
      the key order lists every key once. */
  lemma {:induction false} GroupsAreExact(records: seq<Ticket>)
    ensures forall k :: k in Grouped(records) <==> k in KeyOrder(records)
    ensures forall k :: k in Grouped(records) ==> |Grouped(records)[k]| > 0
    ensures forall k, t :: k in Grouped(records) ==>
      (t in Grouped(records)[k] <==> t in records && Linked(t) && Key(t) == k)
    ensures forall t :: t in records && Linked(t) ==> Key(t) in Grouped(records)
    ensures forall i, j :: 0 <= i < j < |KeyOrder(records)| ==> KeyOrder(records)[i] != KeyOrder(records)[j]
    decreases |records|
  {
    if records != [] {
      var init := records[..|records| - 1];
      GroupsAreExact(init);
      assert records == init + [records[|records| - 1]];
    }
  }

  datatype DuplicateGroup = DuplicateGroup(key: string, tickets: seq<Ticket>)

  /** The groups of more than one ticket, in key order */
  function Duplicates(groups: map<string, seq<Ticket>>, order: seq<string>): (r: seq<DuplicateGroup>)
    ensures forall d :: d in r ==> d.key in order && d.key in groups && d.tickets == groups[d.key] && |d.tickets| > 1
    ensures forall k :: k in order && k in groups && |groups[k]| > 1 ==> exists d :: d in r && d.key == k
  {
    if order == [] then []
    else
      var rest := Duplicates(groups, order[1..]);
      if order[0] in groups && |groups[order[0]]| > 1 then [DuplicateGroup(order[0], groups[order[0]])] + rest else rest
  }

  /** analyze_duplicates: the grouping loop over the fetched tickets */
  method AnalyzeDuplicates(records: seq<Ticket>) returns (duplicates: seq<DuplicateGroup>)
    ensures duplicates == Duplicates(Grouped(records), KeyOrder(records))
  {
    var assignments: map<string, seq<Ticket>> := map[];
    var order: seq<string> := [];
    var i := 0;
    while i < |records|
      invariant 0 <= i <= |records|
      invariant assignments == Grouped(records[..i]) && order == KeyOrder(records[..i])
    {
      assert records[..i + 1][..i] == records[..i];
      var t := records[i];
      if Linked(t) {
        var key := Key(t);
        if key !in order {
          order := order + [key];
        }
        var group := if key in assignments then assignments[key] else [];
        assignments := assignments[key := group + [t]];
      }
      i := i + 1;
    }
    assert records[..i] == records;
    GroupsAreExact(records);
    duplicates := Duplicates(assignments, order);
  }

  // ---------------------------------------------------------------------------
  // remove_duplicates

  /** Python's string order (by code point) */
  predicate Before(a: string, b: string)
    decreases |a|
  {
    if a == [] then b != []
    else if b == [] then false
    else if a[0] != b[0] then a[0] < b[0]
    else Before(a[1..], b[1..])
  }

  lemma {:induction false} BeforeTransitive(a: string, b: string, c: string)
    requires Before(a, b) && Before(b, c)
    ensures Before(a, c)
    decreases |a|
  {
    if a != [] && b != [] && c != [] && a[0] == b[0] && b[0] == c[0] {
      BeforeTransitive(a[1..], b[1..], c[1..]);
    }
  }

  lemma {:induction false} BeforeIrreflexive(a: string)
    ensures !Before(a, a)
    decreases |a|
  {
    if a != [] {
      BeforeIrreflexive(a[1..]);
    }
  }

  /** Ticket k is the one a stable sort by creation time puts first: it is
      strictly older than every earlier ticket, and no later ticket is strictly
      older than it */
  predicate IsKept(group: seq<Ticket>, k: nat)
  {
    && k < |group|
    && (forall j :: 0 <= j < k ==> Before(group[k].createdTime, group[j].createdTime))
    && (forall j :: k < j < |group| ==> !Before(group[j].createdTime, group[k].createdTime))
  }

  /** The oldest ticket of a group, the first of them among equal times, as a
      stable sort by creation time puts it first */
  method OldestIndex(group: seq<Ticket>) returns (k: nat)
    requires |group| > 0
    ensures IsKept(group, k)
  {
    k := 0;
    var j := 1;
    while j < |group|
      invariant 1 <= j <= |group| && k < j
      invariant forall i :: 0 <= i < k ==> Before(group[k].createdTime, group[i].createdTime)
      invariant forall i :: k < i < j ==> !Before(group[i].createdTime, group[k].createdTime)
    {
      if Before(group[j].createdTime, group[k].createdTime) {
        forall i | 0 <= i < j
          ensures Before(group[j].createdTime, group[i].createdTime)
        {
          if i < k {
            BeforeTransitive(group[j].createdTime, group[k].createdTime, group[i].createdTime);
          } else if i > k {
            KeptStaysFirst(group[j].createdTime, group[k].createdTime, group[i].createdTime);
          }
        }
        k := j;
      }
      j := j + 1;
    }
  }

  /** a before b, and c not before b: then a is before c */
  lemma {:induction false} KeptStaysFirst(a: string, b: string, c: string)
    requires Before(a, b) && !Before(c, b)
    ensures Before(a, c)
    decreases |a|
  {
    if a != [] && b != [] && c != [] && a[0] == b[0] && b[0] == c[0] {
      KeptStaysFirst(a[1..], b[1..], c[1..]);
    }
  }

  /** The group without the kept ticket */
  function Without(group: seq<Ticket>, k: nat): (r: seq<Ticket>)
    requires k < |group|
    ensures |r| == |group| - 1
    ensures multiset(r) + multiset{group[k]} == multiset(group)
  {
    assert group == group[..k] + [group[k]] + group[k + 1..];
    group[..k] + group[k + 1..]
  }

  /** The loop over the duplicate groups: the index kept in each group, and
      every other ticket scheduled for deletion, group by group */
  method PlanDeletions(duplicates: seq<DuplicateGroup>) returns (kept: seq<nat>, toDelete: seq<Ticket>)
    requires forall d :: d in duplicates ==> |d.tickets| > 1
    ensures |kept| == |duplicates|
    ensures forall g :: 0 <= g < |duplicates| ==> IsKept(duplicates[g].tickets, kept[g])
    ensures forall g :: 0 <= g < |duplicates| ==> kept[g] < |duplicates[g].tickets|
    ensures toDelete == DeletedFrom(duplicates, kept)
    ensures |toDelete| == Excess(duplicates)
  {
    kept, toDelete := [], [];
    var g := 0;
    while g < |duplicates|
      invariant 0 <= g <= |duplicates| && |kept| == g
      invariant forall h :: 0 <= h < g ==> IsKept(duplicates[h].tickets, kept[h])
      invariant forall h :: 0 <= h < g ==> kept[h] < |duplicates[h].tickets|
      invariant toDelete == DeletedFrom(duplicates[..g], kept)
      invariant |toDelete| == Excess(duplicates[..g])
    {
      var group := duplicates[g].tickets;
      assert duplicates[g] in duplicates;
      var k := OldestIndex(group);
      ghost var kept0, toDelete0 := kept, toDelete;
      toDelete := toDelete + Without(group, k);
      kept := kept + [k];
      PlanStep(duplicates, g, kept0, toDelete0, k, kept, toDelete);
      g := g + 1;
    }
    assert duplicates[..g] == duplicates;
  }

  /** One iteration of the loop keeps its invariant. */
  lemma PlanStep(duplicates: seq<DuplicateGroup>, g: nat, kept: seq<nat>, toDelete: seq<Ticket>, k: nat,
                 kept': seq<nat>, toDelete': seq<Ticket>)
    requires g < |duplicates| && |kept| == g && IsKept(duplicates[g].tickets, k)
    requires forall h :: 0 <= h < g ==> IsKept(duplicates[h].tickets, kept[h])
    requires forall h :: 0 <= h < g ==> kept[h] < |duplicates[h].tickets|
    requires toDelete == DeletedFrom(duplicates[..g], kept)
    requires |toDelete| == Excess(duplicates[..g])
    requires kept' == kept + [k] && toDelete' == toDelete + Without(duplicates[g].tickets, k)
    ensures forall h :: 0 <= h < g + 1 ==> IsKept(duplicates[h].tickets, kept'[h])
    ensures forall h :: 0 <= h < g + 1 ==> kept'[h] < |duplicates[h].tickets|
    ensures toDelete' == DeletedFrom(duplicates[..g + 1], kept')
    ensures |toDelete'| == Excess(duplicates[..g + 1])
  {
    KeptStep(duplicates, g, kept, k, kept');
    DeleteStep(duplicates, g, kept, toDelete, k, kept', toDelete');
  }

  lemma KeptStep(duplicates: seq<DuplicateGroup>, g: nat, kept: seq<nat>, k: nat, kept': seq<nat>)
    requires g < |duplicates| && |kept| == g && IsKept(duplicates[g].tickets, k)
    requires forall h :: 0 <= h < g ==> IsKept(duplicates[h].tickets, kept[h])
    requires kept' == kept + [k]
    ensures forall h :: 0 <= h < g + 1 ==> IsKept(duplicates[h].tickets, kept'[h])
    ensures forall h :: 0 <= h < g + 1 ==> kept'[h] < |duplicates[h].tickets|
  {
    forall h | 0 <= h < g + 1
      ensures IsKept(duplicates[h].tickets, kept'[h])
    {
      if h < g {
        assert kept'[h] == kept[h];
      }
    }
  }

  lemma DeleteStep(duplicates: seq<DuplicateGroup>, g: nat, kept: seq<nat>, toDelete: seq<Ticket>, k: nat,
                   kept': seq<nat>, toDelete': seq<Ticket>)
    requires g < |duplicates| && |kept| == g && k < |duplicates[g].tickets|
    requires forall h :: 0 <= h < g ==> kept[h] < |duplicates[h].tickets|
    requires toDelete == DeletedFrom(duplicates[..g], kept)
    requires |toDelete| == Excess(duplicates[..g])
    requires kept' == kept + [k] && toDelete' == toDelete + Without(duplicates[g].tickets, k)
    ensures forall h :: 0 <= h < g + 1 ==> kept'[h] < |duplicates[h].tickets|
    ensures toDelete' == DeletedFrom(duplicates[..g + 1], kept')
    ensures |toDelete'| == Excess(duplicates[..g + 1])
  {
    ExcessGrows(duplicates, g);
    DeletedFromGrows(duplicates, kept, g, k);
  }

  lemma DeletedFromGrows(duplicates: seq<DuplicateGroup>, kept: seq<nat>, g: nat, k: nat)
    requires g < |duplicates| && |kept| == g && k < |duplicates[g].tickets|
    requires forall h :: 0 <= h < g ==> kept[h] < |duplicates[h].tickets|
    ensures DeletedFrom(duplicates[..g + 1], kept + [k]) == DeletedFrom(duplicates[..g], kept) + Without(duplicates[g].tickets, k)
  {
    assert duplicates[..g + 1][..g] == duplicates[..g];
    assert (kept + [k])[..g] == kept;
  }

  /** remove_duplicates: without duplicate groups, or live when the typed
      answer is not "yes" (in any case), it returns nothing at all (a bare
      `return`, so None); otherwise every ticket but the oldest of each group
      is scheduled and returned, and only a live run deletes them. */
  method RemoveDuplicates(duplicates: seq<DuplicateGroup>, simulation: bool, answer: string)
    returns (kept: seq<nat>, toDelete: Option<seq<Ticket>>, deleted: seq<string>)
    requires forall d :: d in duplicates ==> |d.tickets| > 1
    ensures toDelete.None? <==> duplicates == [] || (!simulation && Lower(answer) != "yes")
    ensures toDelete.None? ==> deleted == []
    ensures simulation ==> deleted == []
    ensures toDelete.Some? ==>
      && |kept| == |duplicates|
      && (forall g :: 0 <= g < |duplicates| ==> IsKept(duplicates[g].tickets, kept[g]))
      && (forall g :: 0 <= g < |duplicates| ==> kept[g] < |duplicates[g].tickets|)
      && toDelete.value == DeletedFrom(duplicates, kept)
      && |toDelete.value| == Excess(duplicates)
    ensures !simulation && toDelete.Some? ==>
      |deleted| == |toDelete.value| && forall i :: 0 <= i < |toDelete.value| ==> deleted[i] == toDelete.value[i].recordId
  {
    kept, toDelete, deleted := [], None, [];
    if duplicates == [] {
      return;
    }
    if !simulation && Lower(answer) != "yes" {
      return;
    }
    var scheduled;
    kept, scheduled := PlanDeletions(duplicates);
    if !simulation {
      var i := 0;
      while i < |scheduled|
        invariant 0 <= i <= |scheduled| && |deleted| == i
        invariant forall j :: 0 <= j < i ==> deleted[j] == scheduled[j].recordId
      {
        deleted := deleted + [scheduled[i].recordId];
        i := i + 1;
      }
    }
    toDelete := Some(scheduled);
  }

  /** count - 1 per duplicate group */
  function Excess(duplicates: seq<DuplicateGroup>): nat
  {
    if duplicates == [] then 0
    else
      var n := |duplicates[|duplicates| - 1].tickets|;
      Excess(duplicates[..|duplicates| - 1]) + (if n > 0 then n - 1 else 0)
  }

  lemma ExcessGrows(duplicates: seq<DuplicateGroup>, g: nat)
    requires g < |duplicates| && |duplicates[g].tickets| > 0
    ensures Excess(duplicates[..g + 1]) == Excess(duplicates[..g]) + |duplicates[g].tickets| - 1
  {
    assert duplicates[..g + 1][..g] == duplicates[..g];
  }

  /** The tickets deleted when group h keeps its ticket kept[h] */
  function DeletedFrom(duplicates: seq<DuplicateGroup>, kept: seq<nat>): seq<Ticket>
    requires |kept| == |duplicates|
    requires forall h :: 0 <= h < |kept| ==> kept[h] < |duplicates[h].tickets|
  {
    if duplicates == [] then []
    else
      var n := |duplicates| - 1;
      DeletedFrom(duplicates[..n], kept[..n]) + Without(duplicates[n].tickets, kept[n])
  }
}
