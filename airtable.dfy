/** Values as they arrive from Airtable records in the JavaScript services:
    JSON values with JavaScript truthiness, linked-record fields, and the
    "Hackatime Projects" field that several services read. */
module Airtable {
  import opened Common

  /** A JSON value; numbers are reals (NaN and the infinities are not values here) */
  datatype JsValue =
    | Undefined
    | Null
    | Bool(b: bool)
    | Num(n: real)
    | Str(s: string)
    | Arr(items: seq<JsValue>)
    | Obj(props: map<string, JsValue>)

  /** Boolean(v) */
  predicate Truthy(v: JsValue)
  {
    match v
    case Undefined => false
    case Null => false
    case Bool(b) => b
    case Num(n) => n != 0.0
    case Str(s) => s != ""
    case Arr(_) => true
    case Obj(_) => true
  }

  /** v.name for a value that is not null or undefined */
  function Prop(v: JsValue, name: string): JsValue
  {
    if v.Obj? && name in v.props then v.props[name] else Undefined
  }

  /** record.fields?.[name] (also record.get(name)) for a record of a table */
  function FieldOf(record: JsValue, name: string): JsValue
  {
    Prop(Prop(record, "fields"), name)
  }

  /** normalizeLinkedIds: an array whose first element is a string is returned
      as is; an array whose first element is an object with a string id is
      mapped to the ids; anything else gives []. Mapping an array that also
      holds null or undefined throws (None). */
  function NormalizeLinkedIds(value: JsValue): (r: Option<seq<JsValue>>)
    ensures value.Arr? && |value.items| > 0 && value.items[0].Str? ==> r == Some(value.items)
    ensures !value.Arr? || |value.items| == 0 ==> r == Some([])
    ensures r.Some? && r.value != [] ==> value.Arr? && |r.value| == |value.items|
  {
    if !value.Arr? || |value.items| == 0 then Some([])
    else if value.items[0].Str? then Some(value.items)
    else if value.items[0].Obj? && Prop(value.items[0], "id").Str? then
      if exists i :: 0 <= i < |value.items| && (value.items[i].Null? || value.items[i].Undefined?) then None
      else Some(seq(|value.items|, i requires 0 <= i < |value.items| => Prop(value.items[i], "id")))
    else Some([])
  }

  /** An array of linked-record objects becomes the list of their ids, in order. */
  lemma LinkedObjectsGiveTheirIds(ids: seq<string>)
    requires |ids| > 0
    ensures var value := Arr(seq(|ids|, i requires 0 <= i < |ids| => Obj(map["id" := Str(ids[i])])));
      NormalizeLinkedIds(value) == Some(seq(|ids|, i requires 0 <= i < |ids| => Str(ids[i])))
  {
    var value := Arr(seq(|ids|, i requires 0 <= i < |ids| => Obj(map["id" := Str(ids[i])])));
    assert Prop(value.items[0], "id") == Str(ids[0]);
    assert forall i :: 0 <= i < |ids| ==> value.items[i].Obj? && Prop(value.items[i], "id") == Str(ids[i]);
    assert !exists i :: 0 <= i < |value.items| && (value.items[i].Null? || value.items[i].Undefined?);
    var got := seq(|value.items|, i requires 0 <= i < |value.items| => Prop(value.items[i], "id"));
    assert NormalizeLinkedIds(value) == Some(got);
    assert got == seq(|ids|, i requires 0 <= i < |ids| => Str(ids[i]));
  }

  /** Array.prototype.includes on a normalised id list */
  predicate IncludesId(ids: Option<seq<JsValue>>, id: string)
  {
    ids.Some? && Str(id) in ids.value
  }

  /** The record is linked to `id` exactly when the field names it, either as a
      string element (string arrays) or as an object's id (object arrays). */
  lemma LinkedIdMembership(value: JsValue, id: string)
    requires value.Arr? && |value.items| > 0
    requires forall i :: 0 <= i < |value.items| ==> value.items[i].Str?
    ensures IncludesId(NormalizeLinkedIds(value), id) <==> Str(id) in value.items
  {
  }

  // ---------------------------------------------------------------------------
  // The "Hackatime Projects" field

  /** The shapes Airtable gives the field: absent, a list of names (a lookup or
      multiple-select), a comma-separated text, or some other value of which
      only the truthiness matters */
  datatype ProjectsField = NoProjects | Names(names: seq<string>) | Text(text: string) | OtherValue(truthy: bool)

  /** `!field` is false */
  predicate FieldTruthy(f: ProjectsField)
  {
    match f
    case NoProjects => false
    case Names(_) => true
    case Text(t) => t != ""
    case OtherValue(t) => t
  }

  /** Array ? filter(Boolean) : string ? split(',').map(trim) : [] */
  function ProjectNames(f: ProjectsField): (r: seq<string>)
    ensures f.Names? ==> forall i :: 0 <= i < |r| ==> r[i] != ""
    ensures f.Names? ==> forall n :: n in r <==> n in f.names && n != ""
    ensures f.Text? ==> |r| == |Split(f.text, ',')|
    ensures f.NoProjects? || f.OtherValue? ==> r == []
  {
    match f
    case Names(ns) =>
      var r := Filter(ns, (n: string) => n != "");
      assert forall i :: 0 <= i < |r| ==> r[i] in r;
      r
    case Text(t) => var parts := Split(t, ','); seq(|parts|, i requires 0 <= i < |parts| => Trim(parts[i]))
    case _ => []
  }

  /** The user filter of the full sync: an array with a truthy element, or a
      string that is not blank */
  predicate HasProjects(f: ProjectsField)
  {
    match f
    case Names(ns) => exists n :: n in ns && n != ""
    case Text(t) => |Trim(t)| > 0
    case _ => false
  }

  /** The text shown for the field: an array's truthy names joined with ", ",
      a string as it is, anything else "" */
  function ProjectsDisplay(f: ProjectsField): (r: string)
    ensures f.Text? ==> r == f.text
    ensures f.NoProjects? || f.OtherValue? ==> r == ""
  {
    match f
    case Names(ns) => Join(Filter(ns, (n: string) => n != ""), ", ")
    case Text(t) => t
    case _ => ""
  }

  /** One project of a user's Hackatime stats; an absent name is "" and an
      absent total 0 */
  datatype HackProject = HackProject(name: string, seconds: nat)

  /** projects.find(p => p.name && p.name.toLowerCase() === lower) */
  function FindProject(projects: seq<HackProject>, lower: string): (r: Option<HackProject>)
    ensures r.Some? ==> r.value in projects && r.value.name != "" && Lower(r.value.name) == lower
    ensures r.None? <==> forall p :: p in projects ==> p.name == "" || Lower(p.name) != lower
  {
    if projects == [] then None
    else if projects[0].name != "" && Lower(projects[0].name) == lower then Some(projects[0])
    else FindProject(projects[1..], lower)
  }

  /** A project name that survives being written into the comma-separated text:
      non-empty, without ',' and without surrounding white space */
  predicate PlainName(n: string)
  {
    n != [] && ',' !in n && !IsSpace(n[0]) && !IsSpace(n[|n| - 1])
  }

  /** A piece of the text: the name, after the space that follows a comma
      for every name but the first */
  predicate Lead(pre: string)
  {
    |pre| <= 1 && (pre == [] || pre[0] == ' ')
  }

  lemma TrimPlain(pre: string, n: string)
    requires Lead(pre) && PlainName(n)
    ensures Trim(pre + n) == n
  {
    assert pre != [] ==> (pre + n)[1..] == n;
    assert TrimStart(pre + n) == n;
  }

  lemma JoinedUnfolds(pre: string, ns: seq<string>, sep: string)
    requires |ns| > 1 && |sep| == 2 && sep[0] == ',' && sep[1] == ' '
    ensures pre + Join(ns, sep) == (pre + ns[0]) + [','] + ([' '] + Join(ns[1..], sep))
  {
    assert sep == [','] + [' '];
  }

  lemma {:induction false} SplitJoined(pre: string, ns: seq<string>, sep: string)
    requires Lead(pre) && |sep| == 2 && sep[0] == ',' && sep[1] == ' '
    requires |ns| >= 1 && forall n :: n in ns ==> PlainName(n)
    ensures var pieces := Split(pre + Join(ns, sep), ',');
      |pieces| == |ns| && forall i :: 0 <= i < |ns| ==> Trim(pieces[i]) == ns[i]
    decreases |ns|
  {
    assert ns[0] in ns;
    NoCommaInPiece(pre, ns[0]);
    TrimPlain(pre, ns[0]);
    if |ns| == 1 {
      SplitNoSeparator(pre + ns[0], ',');
    } else {
      var rest := ns[1..];
      assert forall n :: n in rest ==> n in ns;
      SplitJoined([' '], rest, sep);
      SplitJoinedStep(pre, ns, sep);
    }
  }

  lemma NoCommaInPiece(pre: string, n: string)
    requires Lead(pre) && PlainName(n)
    ensures ',' !in pre + n
  {
    forall i | 0 <= i < |pre + n|
      ensures (pre + n)[i] != ','
    {
      if i >= |pre| {
        assert (pre + n)[i] == n[i - |pre|];
      }
    }
  }

  /** The first piece, then the pieces of the rest */
  lemma SplitJoinedStep(pre: string, ns: seq<string>, sep: string)
    requires |sep| == 2 && sep[0] == ',' && sep[1] == ' ' && |ns| > 1
    requires ',' !in pre + ns[0] && Trim(pre + ns[0]) == ns[0]
    requires var pieces := Split([' '] + Join(ns[1..], sep), ',');
      |pieces| == |ns[1..]| && forall i :: 0 <= i < |ns[1..]| ==> Trim(pieces[i]) == ns[1..][i]
    ensures var pieces := Split(pre + Join(ns, sep), ',');
      |pieces| == |ns| && forall i :: 0 <= i < |ns| ==> Trim(pieces[i]) == ns[i]
  {
    var rest := ns[1..];
    var tail := Split([' '] + Join(rest, sep), ',');
    JoinedUnfolds(pre, ns, sep);
    SplitAfterPiece(pre + ns[0], [' '] + Join(rest, sep), ',');
    var pieces := [pre + ns[0]] + tail;
    forall i | 0 <= i < |ns|
      ensures Trim(pieces[i]) == ns[i]
    {
      if i > 0 {
        assert pieces[i] == tail[i - 1] && ns[i] == rest[i - 1];
      }
    }
  }

  /** The text getGame shows for a list of names reads back, in the
      comma-separated form, as the same names. */
  lemma DisplayParsesBack(ns: seq<string>)
    requires |ns| >= 1 && forall n :: n in ns ==> PlainName(n)
    ensures ProjectNames(Text(ProjectsDisplay(Names(ns)))) == ns
  {
    FilterAll(ns, (n: string) => n != "");
    SplitJoined([], ns, ", ");
    assert [] + Join(ns, ", ") == Join(ns, ", ");
  }

  // ---------------------------------------------------------------------------
  // Paging through a table

  /** One page of a list request: its records and the offset of the next page
      ("" on the last page) */
  datatype Page<T> = Page(records: seq<T>, offset: string)

  /** The records of the pages up to and including the first one without an offset */
  function RecordsUntilEnd<T>(pages: seq<Page<T>>): seq<T>
  {
    if pages == [] then []
    else pages[0].records + (if pages[0].offset == "" then [] else RecordsUntilEnd(pages[1..]))
  }

  /** fetchAllAirtableRecords: the do-while that requests pages and
      concatenates their records while a page names a next offset; `pages`
      are the server's answers, the last of them without an offset. */
  method FetchAllRecords<T>(pages: seq<Page<T>>) returns (all: seq<T>)
    requires pages != [] && pages[|pages| - 1].offset == ""
    ensures all == RecordsUntilEnd(pages)
  {
    all := [];
    var i := 0;
    var more := true;
    while more
      invariant 0 <= i <= |pages|
      invariant more ==> i < |pages|
      invariant RecordsUntilEnd(pages) == all + (if more then RecordsUntilEnd(pages[i..]) else [])
      decreases |pages| - i
    {
      PageStep(pages, i);
      all := all + pages[i].records;
      more := pages[i].offset != "";
      i := i + 1;
    }
  }

  lemma PageStep<T>(pages: seq<Page<T>>, i: nat)
    requires i < |pages|
    ensures RecordsUntilEnd(pages[i..]) ==
      pages[i].records + (if pages[i].offset == "" then [] else RecordsUntilEnd(pages[i + 1..]))
  {
    assert pages[i..][1..] == pages[i + 1..];
  }

  /** With every page but the last naming an offset, all records of all pages are read. */
  lemma {:induction false} AllPagesRead<T>(pages: seq<Page<T>>)
    requires forall k :: 0 <= k < |pages| - 1 ==> pages[k].offset != ""
    ensures |RecordsUntilEnd(pages)| == SumRecords(pages)
    decreases |pages|
  {
    if |pages| > 1 {
      AllPagesRead(pages[1..]);
    }
  }

  function SumRecords<T>(pages: seq<Page<T>>): nat
  {
    if pages == [] then 0 else |pages[0].records| + SumRecords(pages[1..])
  }
}
