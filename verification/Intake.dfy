/** Request intake: logs with the same request become one attestation, whatever the order of arrival. */
module Intake {
  import opened Sorting
  import opened Sums

  datatype IndexLog = IndexLog(blockNumber: nat, logIndex: nat)

  predicate EarlierLog(a: IndexLog, b: IndexLog)
  {
    a.blockNumber < b.blockNumber || (a.blockNumber == b.blockNumber && a.logIndex < b.logIndex)
  }

  /** Position in the chain, on the numbers themselves: an earlier block, or the same block and no later log. */
  predicate NotLater(a: IndexLog, b: IndexLog)
  {
    a.blockNumber <= b.blockNumber && (a.blockNumber == b.blockNumber ==> a.logIndex <= b.logIndex)
  }

  /** The bytes of a request; their hash is taken to identify them. */
  type Request = seq<nat>

  datatype Log = Log(request: Request, index: IndexLog, fee: nat)

  type IndexLogs = s: seq<IndexLog> | |s| > 0 witness [IndexLog(0, 0)]

  /** What intake keeps of an attestation: its logs with the earliest first, and the sum of their fees. */
  datatype Entry = Entry(request: Request, indexes: IndexLogs, fee: nat)

  /** Puts `x` first and moves the element it replaces to the end. */
  function Prepend<T>(s: seq<T>, x: T): (r: seq<T>)
    ensures multiset(r) == multiset(s) + multiset{x}
    ensures |r| == |s| + 1 && r[0] == x
  {
    if s == [] then [x]
    else
      assert s == [s[0]] + s[1..];
      [x] + s[1..] + [s[0]]
  }

  function Merge(e: Entry, l: Log): Entry
  {
    Entry(e.request,
          if EarlierLog(l.index, e.indexes[0]) then Prepend(e.indexes, l.index) else e.indexes + [l.index],
          e.fee + l.fee)
  }

  /** The position of the entry with request `r`, or the length of the list. */
  function Find(s: seq<Entry>, r: Request): (k: nat)
    ensures k <= |s|
    ensures k < |s| ==> s[k].request == r
    ensures k == |s| ==> forall i :: 0 <= i < |s| ==> s[i].request != r
  {
    if s == [] then 0 else if s[0].request == r then 0 else 1 + Find(s[1..], r)
  }

  function Add(s: seq<Entry>, l: Log): seq<Entry>
  {
    var k := Find(s, l.request);
    if k < |s| then s[k := Merge(s[k], l)] else s + [Entry(l.request, [l.index], l.fee)]
  }

  /** A log arrives, or the list is rearranged: sorting may happen at any time, also between arrivals. */
  datatype Step = Arrive(log: Log) | Rearrange

  /** The steps may lead from the empty list to `s`. */
  ghost predicate Arises(steps: seq<Step>, s: seq<Entry>)
  {
    if steps == [] then s == []
    else
      var earlier, step := steps[..|steps| - 1], steps[|steps| - 1];
      exists before :: Arises(earlier, before) && Follows(before, step, s)
  }

  ghost predicate Follows(before: seq<Entry>, step: Step, s: seq<Entry>)
  {
    match step
    case Arrive(l) => s == Add(before, l)
    case Rearrange => multiset(s) == multiset(before)
  }

  /** The logs that arrived, in order of arrival. */
  function Arrived(steps: seq<Step>): seq<Log>
  {
    if steps == [] then []
    else
      var before := Arrived(steps[..|steps| - 1]);
      match steps[|steps| - 1]
      case Arrive(l) => before + [l]
      case Rearrange => before
  }

  // ---------------------------------------------------------------- what a set of logs amounts to

  function LogFee(): Log -> nat { (l: Log) => l.fee }

  function LogsOf(logs: set<Log>, r: Request): set<Log> { set l | l in logs && l.request == r }

  function IndexesOf(logs: set<Log>): set<IndexLog> { set l | l in logs :: l.index }

  /** The entry sums the fees of exactly its request's logs, lists each of them once, and has the earliest first. */
  ghost predicate Summarizes(e: Entry, logs: set<Log>)
  {
    var mine := LogsOf(logs, e.request);
    && Elements(e.indexes) == IndexesOf(mine) && Distinct(e.indexes)
    && e.fee == Sum(mine, LogFee())
    && forall x :: x in e.indexes ==> NotLater(e.indexes[0], x)
  }

  /** One entry for each distinct request of `logs`. */
  ghost predicate Collects(s: seq<Entry>, logs: set<Log>)
  {
    && (forall i, j :: 0 <= i < j < |s| ==> s[i].request != s[j].request)
    && (forall k :: 0 <= k < |s| ==> Summarizes(s[k], logs))
    && (forall l :: l in logs ==> exists k :: 0 <= k < |s| && s[k].request == l.request)
  }

  ghost predicate DistinctLogs(logs: set<Log>)
  {
    forall l, m :: l in logs && m in logs && l.index == m.index ==> l == m
  }

  ghost predicate DifferentLogs(logs: seq<Log>)
  {
    forall i, j :: 0 <= i < j < |logs| ==> logs[i].index != logs[j].index
  }

  lemma EarlierTotal(a: IndexLog, b: IndexLog)
    ensures a == b || EarlierLog(a, b) || EarlierLog(b, a)
  {
  }

  lemma LogsOfAdd(logs: set<Log>, l: Log, r: Request)
    ensures LogsOf(logs + {l}, r) == if l.request == r then LogsOf(logs, r) + {l} else LogsOf(logs, r)
  {
  }

  /** A log of another request changes nothing. */
  lemma SummarizesFrame(e: Entry, logs: set<Log>, l: Log)
    requires Summarizes(e, logs) && l.request != e.request
    ensures Summarizes(e, logs + {l})
  {
    LogsOfAdd(logs, l, e.request);
  }

  lemma FirstSummary(logs: set<Log>, l: Log)
    requires l !in logs && LogsOf(logs, l.request) == {}
    ensures Summarizes(Entry(l.request, [l.index], l.fee), logs + {l})
  {
    LogsOfAdd(logs, l, l.request);
    assert {} + {l} == {l};
    SumAdd({}, LogFee(), l);
    assert IndexesOf({l}) == {l.index};
  }

  lemma MergedIndexes(s: seq<IndexLog>, x: IndexLog)
    requires Distinct(s) && x !in s
    ensures Elements(Prepend(s, x)) == Elements(s) + {x} && Distinct(Prepend(s, x))
    ensures Elements(s + [x]) == Elements(s) + {x} && Distinct(s + [x])
  {
    assert multiset(Prepend(s, x)) == multiset(s + [x]);
    MultisetElements(Prepend(s, x), s + [x]);
    MultisetDistinct(s + [x], Prepend(s, x));
  }

  /** Merging a further log of the same request keeps the summary right. */
  lemma MergeSummarizes(e: Entry, logs: set<Log>, l: Log)
    requires Summarizes(e, logs) && l.request == e.request && l.index !in IndexesOf(logs)
    ensures Summarizes(Merge(e, l), logs + {l})
  {
    var mine := LogsOf(logs, e.request);
    LogsOfAdd(logs, l, e.request);
    assert l !in mine && l.index !in IndexesOf(mine);
    assert l.index !in Elements(e.indexes);
    SumAdd(mine, LogFee(), l);
    assert IndexesOf(mine + {l}) == IndexesOf(mine) + {l.index};
    MergedIndexes(e.indexes, l.index);
    MergeEarliest(e, l);
  }

  lemma MergeEarliest(e: Entry, l: Log)
    requires forall x :: x in e.indexes ==> NotLater(e.indexes[0], x)
    requires l.index !in e.indexes
    ensures var m := Merge(e, l).indexes;
            forall x :: x in m ==> NotLater(m[0], x)
  {
    var m := Merge(e, l).indexes;
    EarlierTotal(l.index, e.indexes[0]);
    forall x | x in m ensures NotLater(m[0], x) {
      if x != l.index {
        assert x in e.indexes;
      }
    }
  }

  lemma AddSummarizes(s: seq<Entry>, logs: set<Log>, l: Log, i: nat)
    requires Collects(s, logs) && l.index !in IndexesOf(logs) && i < |Add(s, l)|
    ensures Summarizes(Add(s, l)[i], logs + {l})
  {
    var k := Find(s, l.request);
    if i < |s| && i != k {
      SummarizesFrame(s[i], logs, l);
    } else if k < |s| {
      MergeSummarizes(s[k], logs, l);
    } else {
      assert LogsOf(logs, l.request) == {};
      FirstSummary(logs, l);
    }
  }

  /** Adding a log keeps the requests, and its own is among them. */
  lemma AddRequests(s: seq<Entry>, l: Log)
    ensures var t := Add(s, l);
            && |s| <= |t| && (forall i :: 0 <= i < |s| ==> t[i].request == s[i].request)
            && Find(s, l.request) < |t| && t[Find(s, l.request)].request == l.request
            && (Find(s, l.request) < |s| ==> |t| == |s|)
            && (Find(s, l.request) == |s| ==> |t| == |s| + 1)
  {
  }

  lemma AddCollects(s: seq<Entry>, logs: set<Log>, l: Log)
    requires Collects(s, logs) && l.index !in IndexesOf(logs)
    ensures Collects(Add(s, l), logs + {l})
  {
    var t := Add(s, l);
    AddRequests(s, l);
    forall i | 0 <= i < |t| ensures Summarizes(t[i], logs + {l}) {
      AddSummarizes(s, logs, l, i);
    }
    forall m | m in logs + {l} ensures exists i :: 0 <= i < |t| && t[i].request == m.request {
      AddHasRequest(s, logs, l, m);
    }
  }

  lemma AddHasRequest(s: seq<Entry>, logs: set<Log>, l: Log, m: Log)
    requires Collects(s, logs) && m in logs + {l}
    ensures exists i :: 0 <= i < |Add(s, l)| && Add(s, l)[i].request == m.request
  {
    AddRequests(s, l);
    if m != l {
      var i :| 0 <= i < |s| && s[i].request == m.request;
      assert Add(s, l)[i].request == m.request;
    }
  }

  // ---------------------------------------------------------------- confluence

  /** What the vote and the consensus depend on. */
  datatype Summary = Summary(request: Request, fee: nat, first: IndexLog)

  function SummaryOf(e: Entry): Summary { Summary(e.request, e.fee, e.indexes[0]) }

  function Summaries(s: seq<Entry>): (r: seq<Summary>)
    ensures |r| == |s| && forall k :: 0 <= k < |s| ==> r[k] == SummaryOf(s[k])
  {
    seq(|s|, k requires 0 <= k < |s| => SummaryOf(s[k]))
  }

  predicate Before(a: Summary, b: Summary) { EarlierLog(a.first, b.first) }

  /** Sorted by first log, as positions in the bit vector are assigned. */
  ghost predicate Ordered(s: seq<Entry>)
  {
    forall i, j :: 0 <= i < j < |s| ==> NotLater(s[i].indexes[0], s[j].indexes[0])
  }

  lemma InsertOrdered(s: seq<Entry>, x: Entry, k: nat)
    requires Ordered(s) && k <= |s|
    requires forall i :: 0 <= i < k ==> EarlierLog(s[i].indexes[0], x.indexes[0])
    requires k < |s| ==> !EarlierLog(s[k].indexes[0], x.indexes[0])
    ensures Ordered(s[..k] + [x] + s[k..])
  {
    var r := s[..k] + [x] + s[k..];
    forall i, j | 0 <= i < j < |r| ensures NotLater(r[i].indexes[0], r[j].indexes[0]) {
      var a := if i < k then i else i - 1;
      var b := if j <= k then j else j - 1;
      if i == k {
        assert r[j] == s[b] && !EarlierLog(s[k].indexes[0], x.indexes[0]);
      } else if j == k {
        assert r[i] == s[a];
      } else {
        assert r[i] == s[a] && r[j] == s[b];
      }
    }
  }

  /** Two summaries of the same logs agree. */
  lemma SameSummary(e: Entry, f: Entry, logs: set<Log>)
    requires Summarizes(e, logs) && Summarizes(f, logs) && e.request == f.request
    ensures SummaryOf(e) == SummaryOf(f)
  {
    assert e.indexes[0] in Elements(f.indexes) && f.indexes[0] in Elements(e.indexes);
  }

  lemma SummariesContained(s: seq<Entry>, t: seq<Entry>, logs: set<Log>)
    requires Collects(s, logs) && Collects(t, logs)
    ensures Elements(Summaries(s)) <= Elements(Summaries(t))
  {
    forall x | x in Summaries(s) ensures x in Summaries(t) {
      var k :| 0 <= k < |s| && Summaries(s)[k] == x;
      assert s[k].indexes[0] in Elements(s[k].indexes);
      var l :| l in LogsOf(logs, s[k].request);
      var i :| 0 <= i < |t| && t[i].request == l.request;
      SameSummary(s[k], t[i], logs);
      assert Summaries(t)[i] == x;
    }
  }

  /** No two attestations start with the same log, so their order has no ties. */
  lemma FirstLogsDiffer(s: seq<Entry>, logs: set<Log>)
    requires Collects(s, logs) && DistinctLogs(logs)
    ensures NoTies(Elements(Summaries(s)), Before)
  {
    forall x, y | x in Summaries(s) && y in Summaries(s) && x != y ensures Before(x, y) || Before(y, x) {
      var i :| 0 <= i < |s| && Summaries(s)[i] == x;
      var j :| 0 <= j < |s| && Summaries(s)[j] == y;
      assert s[i].indexes[0] in Elements(s[i].indexes) && s[j].indexes[0] in Elements(s[j].indexes);
      var l :| l in LogsOf(logs, s[i].request) && l.index == x.first;
      var m :| m in LogsOf(logs, s[j].request) && m.index == y.first;
      EarlierTotal(x.first, y.first);
    }
  }

  lemma SummariesDistinct(s: seq<Entry>)
    requires forall i, j :: 0 <= i < j < |s| ==> s[i].request != s[j].request
    ensures Distinct(Summaries(s))
  {
  }

  /** The ordered list of requests, fees and first logs is determined by the set of logs. */
  lemma OrderedUnique(s: seq<Entry>, t: seq<Entry>, logs: set<Log>)
    requires Collects(s, logs) && Collects(t, logs) && Ordered(s) && Ordered(t) && DistinctLogs(logs)
    ensures Summaries(s) == Summaries(t)
  {
    SummariesContained(s, t, logs);
    SummariesContained(t, s, logs);
    SummariesDistinct(s);
    SummariesDistinct(t);
    DistinctMultiset(Summaries(s));
    DistinctMultiset(Summaries(t));
    FirstLogsDiffer(s, logs);
    SortedUnique(Summaries(s), Summaries(t), Before);
  }

  /** Rearranging the attestations does not change what they collect. */
  lemma RearrangedCollects(s: seq<Entry>, t: seq<Entry>, logs: set<Log>)
    requires Collects(s, logs) && multiset(s) == multiset(t)
    ensures Collects(t, logs)
  {
    MultisetElements(s, t);
    assert Distinct(s);
    MultisetDistinct(s, t);
    forall e | e in t ensures Summarizes(e, logs) {
      assert e in Elements(s);
      var k :| 0 <= k < |s| && s[k] == e;
    }
    forall i, j | 0 <= i < j < |t| ensures t[i].request != t[j].request {
      assert t[i] in Elements(s) && t[j] in Elements(s);
      var a :| 0 <= a < |s| && s[a] == t[i];
      var b :| 0 <= b < |s| && s[b] == t[j];
    }
    forall l | l in logs ensures exists k :: 0 <= k < |t| && t[k].request == l.request {
      var k :| 0 <= k < |s| && s[k].request == l.request;
      assert s[k] in Elements(t);
    }
  }

  /** After any arrivals of distinct logs, with any rearrangements in between: one attestation per request, with the sum of
      its fees and all its logs. */
  lemma {:induction false} ArisesCollects(steps: seq<Step>, s: seq<Entry>)
    requires Arises(steps, s) && DifferentLogs(Arrived(steps))
    ensures Collects(s, Elements(Arrived(steps)))
  {
    if steps != [] {
      var earlier, step := steps[..|steps| - 1], steps[|steps| - 1];
      var before :| Arises(earlier, before) && Follows(before, step, s);
      var logs := Arrived(earlier);
      match step
      case Arrive(l) =>
        assert Arrived(steps)[..|logs|] == logs && Arrived(steps)[|logs|] == l;
        ArisesCollects(earlier, before);
        ElementsAppend(logs, l);
        AddCollects(before, Elements(logs), l);
      case Rearrange =>
        ArisesCollects(earlier, before);
        RearrangedCollects(before, s, Elements(logs));
    }
  }

  /** Confluence: two arrival orders of the same distinct logs, with any sorting in between and a last one at the end, give
      the same list of requests, fees and first logs. */
  lemma IntakeConfluent(steps: seq<Step>, steps': seq<Step>, s: seq<Entry>, s': seq<Entry>)
    requires DifferentLogs(Arrived(steps)) && multiset(Arrived(steps)) == multiset(Arrived(steps'))
    requires Arises(steps, s) && Ordered(s) && Arises(steps', s') && Ordered(s')
    ensures Summaries(s) == Summaries(s')
  {
    LogsDistinct(Arrived(steps), Arrived(steps'));
    ArisesCollects(steps, s);
    ArisesCollects(steps', s');
    OrderedUnique(s, s', Elements(Arrived(steps)));
  }

  lemma LogsDistinct(logs: seq<Log>, logs': seq<Log>)
    requires DifferentLogs(logs) && multiset(logs) == multiset(logs')
    ensures Elements(logs) == Elements(logs') && DistinctLogs(Elements(logs))
    ensures DifferentLogs(logs')
  {
    MultisetElements(logs, logs');
    assert Distinct(logs);
    MultisetDistinct(logs, logs');
    forall i, j | 0 <= i < j < |logs'| ensures logs'[i].index != logs'[j].index {
      assert logs'[i] in Elements(logs) && logs'[j] in Elements(logs) && logs'[i] != logs'[j];
    }
  }
}
