/** The crawl of the detail pages: every queued URL becomes one task, a task
    that completes pushes exactly one record onto the shared
    `publicationDetailsArray`, and a task that throws pushes nothing and is
    only logged. The pool's concurrency is modelled by its outcome: the
    tasks run one after another in some order of the queue. */
module Crawl {
  import opened Wrappers
  import opened Details

  /** What the detail page of one queued URL gives its task: a failure
      anywhere before the push (navigation, the wait for the title, any
      evaluation), or the title element's text and link and the blocks. */
  datatype DetailPage = TaskFailed | Rendered(publicationTitle: string, href: Option<string>, blocks: seq<Block>)

  /** What one task adds to the array. */
  function TaskOutput(page: DetailPage): (out: seq<Record>)
    ensures |out| <= 1
    ensures |out| == 1 <==> page.Rendered?
  {
    match page
    case TaskFailed => []
    case Rendered(t, h, bs) => [DetailRecord(t, h, bs)]
  }

  /** The array that the tasks share and push onto. */
  class DetailsArray {
    var items: seq<Record>

    constructor ()
      ensures items == []
    {
      items := [];
    }

    method Push(r: Record)
      modifies this
      ensures items == old(items) + [r]
    {
      items := items + [r];
    }
  }

  /** The task body: build the record of a rendered page and push it; a
      failed page is caught, logged, and leaves the array as it was. */
  method RunTask(page: DetailPage, publicationDetailsArray: DetailsArray)
    modifies publicationDetailsArray
    ensures publicationDetailsArray.items == old(publicationDetailsArray.items) + TaskOutput(page)
  {
    match page
    case TaskFailed =>
    case Rendered(publicationTitle, href, blocks) =>
      var publicationDetails := BuildPublicationDetails(publicationTitle, href, blocks);
      publicationDetailsArray.Push(publicationDetails);
  }

  /** The queue positions 0, 1, ..., n - 1. */
  function Range(n: nat): (r: seq<nat>)
    ensures |r| == n
    ensures forall i :: 0 <= i < n ==> r[i] == i
  {
    if n == 0 then [] else Range(n - 1) + [n - 1]
  }

  /** `order` runs each of the n queued tasks exactly once. */
  predicate IsSchedule(order: seq<nat>, n: nat) {
    multiset(order) == multiset(Range(n))
  }

  /** What the task at queue position `i` adds. */
  function Output(pages: seq<DetailPage>, i: nat): seq<Record> {
    if i < |pages| then TaskOutput(pages[i]) else []
  }

  /** The array after the tasks have run in the order `order`. */
  function Produced(pages: seq<DetailPage>, order: seq<nat>): seq<Record> {
    if order == [] then []
    else Produced(pages, order[..|order| - 1]) + Output(pages, order[|order| - 1])
  }

  /** The records in queue order, as one worker would produce them. */
  function InQueueOrder(pages: seq<DetailPage>): seq<Record> {
    if pages == [] then []
    else InQueueOrder(pages[..|pages| - 1]) + TaskOutput(pages[|pages| - 1])
  }

  /** The number of tasks that fail. */
  function FailedCount(pages: seq<DetailPage>): nat {
    if pages == [] then 0
    else FailedCount(pages[..|pages| - 1]) + (if pages[|pages| - 1].TaskFailed? then 1 else 0)
  }

  /** Every position a schedule runs is a position of the queue. */
  lemma ScheduledInRange(order: seq<nat>, n: nat, k: nat)
    requires IsSchedule(order, n) && k < |order|
    ensures order[k] < n
  {
    assert order[k] in multiset(order);
    assert order[k] in multiset(Range(n));
    var i :| 0 <= i < n && Range(n)[i] == order[k];
  }

  /** The queue processed in the order given by `order`, task by task. */
  method RunQueue(pages: seq<DetailPage>, order: seq<nat>, publicationDetailsArray: DetailsArray)
    requires IsSchedule(order, |pages|)
    modifies publicationDetailsArray
    ensures publicationDetailsArray.items == old(publicationDetailsArray.items) + Produced(pages, order)
  {
    for k := 0 to |order|
      invariant publicationDetailsArray.items == old(publicationDetailsArray.items) + Produced(pages, order[..k])
    {
      var i := order[k];
      ScheduledInRange(order, |pages|, k);
      RunTask(pages[i], publicationDetailsArray);
      assert order[..k + 1][..k] == order[..k];
    }
    assert order[..|order|] == order;
  }

  lemma {:induction false} ProducedConcat(pages: seq<DetailPage>, a: seq<nat>, b: seq<nat>)
    ensures Produced(pages, a + b) == Produced(pages, a) + Produced(pages, b)
  {
    if b == [] {
      assert a + b == a;
    } else {
      var b', x := b[..|b| - 1], b[|b| - 1];
      assert (a + b)[|a + b| - 1] == x;
      assert (a + b)[..|a + b| - 1] == a + b';
      ProducedConcat(pages, a, b');
      assert Produced(pages, a + b) == Produced(pages, a + b') + Output(pages, x);
      assert Produced(pages, b) == Produced(pages, b') + Output(pages, x);
    }
  }

  /** Taking the task at position `j` out of an order takes out its record. */
  lemma ProducedWithout(pages: seq<DetailPage>, t: seq<nat>, j: nat)
    requires j < |t|
    ensures multiset(t) == multiset(t[..j] + t[j + 1..]) + multiset{t[j]}
    ensures multiset(Produced(pages, t)) ==
              multiset(Produced(pages, t[..j] + t[j + 1..])) + multiset(Output(pages, t[j]))
  {
    assert t == t[..j] + [t[j]] + t[j + 1..];
    ProducedConcat(pages, t[..j], [t[j]]);
    ProducedConcat(pages, t[..j] + [t[j]], t[j + 1..]);
    ProducedConcat(pages, t[..j], t[j + 1..]);
    assert [t[j]][..0] == [];
  }

  lemma MultisetCancel(a: multiset<nat>, b: multiset<nat>, x: nat)
    requires a + multiset{x} == b + multiset{x}
    ensures a == b
  {
    forall y ensures a[y] == b[y] {
      assert (a + multiset{x})[y] == (b + multiset{x})[y];
    }
  }

  /** The records produced depend on which tasks run, not on their order:
      two orders running the same tasks give the same multiset of records. */
  lemma {:induction false} OrderIrrelevant(pages: seq<DetailPage>, s: seq<nat>, t: seq<nat>)
    requires multiset(s) == multiset(t)
    ensures multiset(Produced(pages, s)) == multiset(Produced(pages, t))
    decreases |s|
  {
    if s == [] {
      assert |t| == |multiset(t)| == 0;
    } else {
      var x := s[|s| - 1];
      var s' := s[..|s| - 1];
      assert s == s' + [x];
      assert multiset(s) == multiset(s') + multiset{x};
      assert x in multiset(t);
      var j :| 0 <= j < |t| && t[j] == x;
      var t' := t[..j] + t[j + 1..];
      ProducedWithout(pages, t, j);
      MultisetCancel(multiset(s'), multiset(t'), x);
      OrderIrrelevant(pages, s', t');
    }
  }

  /** Running the queue front to back gives the records in queue order. */
  lemma {:induction false} QueueOrderProduced(pages: seq<DetailPage>, k: nat)
    requires k <= |pages|
    ensures Produced(pages, Range(k)) == InQueueOrder(pages[..k])
  {
    if k > 0 {
      QueueOrderProduced(pages, k - 1);
      assert Range(k)[..k - 1] == Range(k - 1);
      assert pages[..k][..k - 1] == pages[..k - 1];
    }
  }

  /** One record per task that does not fail. */
  lemma {:induction false} InQueueOrderLength(pages: seq<DetailPage>)
    ensures |InQueueOrder(pages)| + FailedCount(pages) == |pages|
  {
    if pages != [] {
      InQueueOrderLength(pages[..|pages| - 1]);
    }
  }

  /** Whatever the order the pool runs the tasks in, the array ends up
      holding the records of exactly the tasks that did not fail, one each:
      at most one record per queued URL, and a failed task costs only its
      own record. */
  lemma CrawlOutcome(pages: seq<DetailPage>, order: seq<nat>)
    requires IsSchedule(order, |pages|)
    ensures multiset(Produced(pages, order)) == multiset(InQueueOrder(pages))
    ensures |Produced(pages, order)| == |pages| - FailedCount(pages)
    ensures |Produced(pages, order)| <= |pages|
  {
    OrderIrrelevant(pages, order, Range(|pages|));
    QueueOrderProduced(pages, |pages|);
    assert pages[..|pages|] == pages;
    InQueueOrderLength(pages);
    assert |Produced(pages, order)| == |multiset(Produced(pages, order))|;
  }

  /** The record of every page that renders is in the array, whatever the
      other tasks do. */
  lemma RenderedPageKept(pages: seq<DetailPage>, order: seq<nat>, i: nat)
    requires IsSchedule(order, |pages|)
    requires i < |pages| && pages[i].Rendered?
    ensures DetailRecord(pages[i].publicationTitle, pages[i].href, pages[i].blocks) in Produced(pages, order)
  {
    assert Range(|pages|)[i] == i;
    assert i in multiset(order);
    var k :| 0 <= k < |order| && order[k] == i;
    assert order == order[..k] + [i] + order[k + 1..];
    ProducedConcat(pages, order[..k], [i]);
    ProducedConcat(pages, order[..k] + [i], order[k + 1..]);
    assert [i][..0] == [];
  }
}
