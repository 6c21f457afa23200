/** The review backlog chart: how many records of the Active YSWS Record
    table need a review, need a re-review, or are reviewed. */
module ReviewBacklog {
  import opened Common
  import opened Airtable

  /** The status names the chart counts, and the order of its bars */
  const NeedsReview := "Needs Review"
  const NeedsRereview := "Needs Rereview"
  const Reviewed := "Reviewed"

  /** record.get('ReviewStatus') when it is a string, "" otherwise (both
      skipped by the count unless they name a status) */
  function StatusOf(record: JsValue): string
  {
    var v := FieldOf(record, "ReviewStatus");
    if v.Str? then v.s else ""
  }

  /** record.get('ReviewStatus') is the status `name` */
  function HasStatus(name: string): JsValue -> bool
  {
    record => StatusOf(record) == name
  }

  /** The as-written fetch loop. Each iteration asks for the first page and
      reads `offset` from the array of records that `firstPage()` resolves
      to; an array has no such property, so the loop ends after one request
      and only the first page's records are read. */
  method FetchFirstPageOnlyAsWritten<T>(pages: seq<Page<T>>) returns (all: seq<T>)
    requires pages != []
    ensures all == pages[0].records
  {
    all := [];
    var i := 0;
    var more := true;
    while more
      invariant i == 0 <==> more
      invariant i <= 1
      invariant more ==> all == []
      invariant !more ==> all == pages[0].records
      decreases 1 - i
    {
      all := all + pages[i].records;
      var offsetOfArray := "";
      more := offsetOfArray != "";
      i := i + 1;
    }
  }

  /** When the table spans a second, non-empty page, the as-written loop
      reads fewer records than the table holds. */
  lemma FirstPageOnlyUndercounts<T>(pages: seq<Page<T>>)
    requires |pages| >= 2 && pages[0].offset != "" && pages[1].records != []
    ensures |pages[0].records| < |RecordsUntilEnd(pages)|
  {
    assert pages[1..][0] == pages[1];
    assert RecordsUntilEnd(pages) == pages[0].records + RecordsUntilEnd(pages[1..]);
    assert |RecordsUntilEnd(pages[1..])| >= |pages[1].records|;
  }

  /** The three counters of reviewStatuses, bumped by the forEach over the
      records, for the distinct status names `a`, `b` and `c`; a status that
      is missing or names none of them is skipped. */
  method CountStatuses(records: seq<JsValue>, a: string, b: string, c: string)
    returns (countA: nat, countB: nat, countC: nat)
    requires a != b && b != c && a != c
    ensures countA == Count(records, HasStatus(a))
    ensures countB == Count(records, HasStatus(b))
    ensures countC == Count(records, HasStatus(c))
    ensures countA + countB + countC <= |records|
  {
    countA, countB, countC := 0, 0, 0;
    var i := 0;
    while i < |records|
      invariant 0 <= i <= |records|
      invariant Count(records, HasStatus(a)) == countA + Count(records[i..], HasStatus(a))
      invariant Count(records, HasStatus(b)) == countB + Count(records[i..], HasStatus(b))
      invariant Count(records, HasStatus(c)) == countC + Count(records[i..], HasStatus(c))
      invariant countA + countB + countC <= i
    {
      CountFrom(records, i, HasStatus(a));
      CountFrom(records, i, HasStatus(b));
      CountFrom(records, i, HasStatus(c));
      var status := StatusOf(records[i]);
      if status == a {
        countA := countA + 1;
      } else if status == b {
        countB := countB + 1;
      } else if status == c {
        countC := countC + 1;
      }
      i := i + 1;
    }
  }

  /** One bar of the chart; `title` is its label */
  datatype Bar = Bar(title: string, value: nat, color: string)

  datatype Reply = MethodNotAllowed | Failed | Chart(data: seq<Bar>, total: nat)

  /** chartData: three bars in a fixed order, whatever the counts */
  function Bars(needsReview: nat, needsRereview: nat, reviewed: nat): seq<Bar>
  {
    [Bar(NeedsReview, needsReview, "#ff6b6b"),
     Bar(NeedsRereview, needsRereview, "#ffa726"),
     Bar(Reviewed, reviewed, "#66bb6a")]
  }

  /** The chart over `records` */
  predicate ChartOf(data: seq<Bar>, total: nat, records: seq<JsValue>)
  {
    && total == |records|
    && data == Bars(Count(records, HasStatus(NeedsReview)), Count(records, HasStatus(NeedsRereview)),
                    Count(records, HasStatus(Reviewed)))
  }

  /** A record has at most one of the statuses, so the bars add up to no more
      than the total. */
  lemma {:induction false} StatusCountsFitTotal(records: seq<JsValue>, a: string, b: string, c: string)
    requires a != b && b != c && a != c
    ensures Count(records, HasStatus(a)) + Count(records, HasStatus(b)) + Count(records, HasStatus(c)) <= |records|
    decreases |records|
  {
    if records != [] {
      StatusCountsFitTotal(records[1..], a, b, c);
    }
  }

  /** handler, with the fetch reading every page: 405 for anything but GET,
      500 when a request fails (`failed`; a missing API key only shows there),
      otherwise the chart over all records of the table. */
  method Handle(httpMethod: string, pages: seq<Page<JsValue>>, failed: bool) returns (reply: Reply)
    requires pages != [] && pages[|pages| - 1].offset == ""
    ensures httpMethod != "GET" <==> reply == MethodNotAllowed
    ensures httpMethod == "GET" && failed <==> reply.Failed?
    ensures reply.Chart? ==> ChartOf(reply.data, reply.total, RecordsUntilEnd(pages))
  {
    if httpMethod != "GET" {
      return MethodNotAllowed;
    }
    if failed {
      return Failed;
    }
    var records := FetchAllRecords(pages);
    var needsReview, needsRereview, reviewed := CountStatuses(records, NeedsReview, NeedsRereview, Reviewed);
    reply := Chart(Bars(needsReview, needsRereview, reviewed), |records|);
  }
}
