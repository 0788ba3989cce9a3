/**
 * Record construction in generate_cars.py: the session filter, the choice
 * of split by the time of a session's first query, the candidates of each
 * query with their click labels, the filter that keeps queries with both a
 * clicked and an unclicked candidate, and the rule that a record is
 * written only when more than one query remains.
 */
module Records {
  import opened Wrappers
  import opened Strings
  import opened Ordering
  import opened RunWindow

  /** One result shown for a query, and whether it was clicked. */
  datatype Item = Item(docId: string, clicked: bool)

  /** One query-log entry; times are whole numbers. */
  datatype QueryLog = QueryLog(queryId: string, query: string, time: int, items: seq<Item>)

  /** A split `name:start:end:context`, covering times in `[start, end)`. */
  datatype Split = Split(name: string, start: int, end: int, context: int)

  /** A document of the document store. */
  datatype Doc = Doc(title: string, text: string, url: string)

  datatype Candidate = Candidate(id: string, title: string, content: string, url: string, clickLabel: bool)

  datatype Query = Query(id: string, text: string, tokens: seq<string>, candidates: seq<Candidate>)

  datatype Record = Record(sessionId: string, queries: seq<Query>)

  /** A list comprehension `[x for x in s if p(x)]`. */
  function Filter<T(!new)>(s: seq<T>, p: T -> bool): (r: seq<T>)
    ensures |r| <= |s|
    ensures forall x :: x in r <==> x in s && p(x)
    decreases |s|
  {
    if s == [] then [] else (if p(s[0]) then [s[0]] else []) + Filter(s[1..], p)
  }

  /** Filtering works piecewise, so it keeps the original order. */
  lemma {:induction false} FilterConcat<T(!new)>(a: seq<T>, b: seq<T>, p: T -> bool)
    ensures Filter(a + b, p) == Filter(a, p) + Filter(b, p)
    decreases |a|
  {
    if a == [] {
      assert a + b == b;
    } else {
      assert (a + b)[1..] == a[1..] + b;
      FilterConcat(a[1..], b, p);
    }
  }

  /** At least two elements survive exactly when two positions satisfy the condition. */
  lemma {:induction false} FilterAtLeastTwo<T(!new)>(s: seq<T>, p: T -> bool)
    ensures |Filter(s, p)| >= 2 <==> exists i, j :: 0 <= i < j < |s| && p(s[i]) && p(s[j])
    decreases |s|
  {
    if s != [] {
      var t := s[1..];
      FilterAtLeastTwo(t, p);
      if exists i, j :: 0 <= i < j < |t| && p(t[i]) && p(t[j]) {
        var i, j :| 0 <= i < j < |t| && p(t[i]) && p(t[j]);
        assert s[i + 1] == t[i] && s[j + 1] == t[j];
      }
      if exists i, j :: 0 <= i < j < |s| && p(s[i]) && p(s[j]) {
        var i, j :| 0 <= i < j < |s| && p(s[i]) && p(s[j]);
        assert s[j] == t[j - 1];
        if i > 0 {
          assert s[i] == t[i - 1];
        } else {
          assert t[j - 1] in Filter(t, p);
        }
      }
      if p(s[0]) && Filter(t, p) != [] {
        var x := Filter(t, p)[0];
        assert x in Filter(t, p);
        var j :| 0 <= j < |t| && t[j] == x;
        assert s[j + 1] == x;
      }
    }
  }

  /** The query ids of a session's logs. */
  function QueryIds(logs: seq<QueryLog>): set<string>
  {
    set i | 0 <= i < |logs| :: logs[i].queryId
  }

  /** Line 107: a session is kept when it has more than one distinct query id. */
  predicate KeepSession(logs: seq<QueryLog>)
  {
    |QueryIds(logs)| > 1
  }

  /** A session is kept exactly when two of its logs have different query ids. */
  lemma KeepSessionIff(logs: seq<QueryLog>)
    ensures KeepSession(logs) <==>
      exists i, j :: 0 <= i < |logs| && 0 <= j < |logs| && logs[i].queryId != logs[j].queryId
  {
    var ids := QueryIds(logs);
    if |ids| > 1 {
      var a :| a in ids;
      assert |ids - {a}| == |ids| - 1;
      var b :| b in ids - {a};
      var i :| 0 <= i < |logs| && logs[i].queryId == a;
      var j :| 0 <= j < |logs| && logs[j].queryId == b;
    }
    if exists i, j :: 0 <= i < |logs| && 0 <= j < |logs| && logs[i].queryId != logs[j].queryId {
      var i, j :| 0 <= i < |logs| && 0 <= j < |logs| && logs[i].queryId != logs[j].queryId;
      assert logs[j].queryId in ids - {logs[i].queryId};
      assert |ids - {logs[i].queryId}| >= 1;
    }
  }

  /** Line 107: the sessions dictionary restricted to the sessions kept. */
  function FilterSessions(sessions: map<string, seq<QueryLog>>): (r: map<string, seq<QueryLog>>)
    ensures forall sid :: sid in r <==> sid in sessions && KeepSession(sessions[sid])
    ensures forall sid :: sid in r ==> r[sid] == sessions[sid]
  {
    map sid | sid in sessions && KeepSession(sessions[sid]) :: sessions[sid]
  }

  /** `start <= time < end`. */
  predicate InSplit(s: Split, time: int)
  {
    s.start <= time < s.end
  }

  /**
   * Lines 124-127: the first split whose range holds the time, or none (the
   * session is skipped).
   */
  function SelectSplit(splits: seq<Split>, time: int): (r: Option<Split>)
    ensures r.None? <==> forall i :: 0 <= i < |splits| ==> !InSplit(splits[i], time)
    ensures r.Some? ==> exists i :: 0 <= i < |splits| && splits[i] == r.value && InSplit(r.value, time)
                                    && forall j :: 0 <= j < i ==> !InSplit(splits[j], time)
    decreases |splits|
  {
    if splits == [] then None
    else if InSplit(splits[0], time) then Some(splits[0])
    else
      var r := SelectSplit(splits[1..], time);
      assert r.Some? ==> exists i :: 1 <= i < |splits| && splits[i] == r.value && InSplit(r.value, time)
                                     && forall j :: 0 <= j < i ==> !InSplit(splits[j], time) by {
        if r.Some? {
          var i :| 0 <= i < |splits[1..]| && splits[1..][i] == r.value && InSplit(r.value, time)
                   && forall j :: 0 <= j < i ==> !InSplit(splits[1..][j], time);
          assert forall j :: 1 <= j < i + 1 ==> splits[j] == splits[1..][j - 1];
        }
      }
      assert r.None? ==> forall i :: 1 <= i < |splits| ==> !InSplit(splits[i], time) by {
        if r.None? {
          assert forall i :: 1 <= i < |splits| ==> splits[i] == splits[1..][i - 1];
        }
      }
      r
  }

  /** Line 135: the documents clicked for a query. */
  function Clicked(log: QueryLog): set<string>
  {
    set i | 0 <= i < |log.items| && log.items[i].clicked :: log.items[i].docId
  }

  /** Lines 152-158: the candidate for a document found in the store. */
  function CandidateOf(did: string, doc: Doc, clicked: set<string>, titleOnly: bool): Candidate
  {
    Candidate(did, doc.title, if titleOnly then "" else doc.text, doc.url, did in clicked)
  }

  /**
   * Lines 148-158: one candidate per selected document found in the store,
   * in the order of `dids`, labelled by whether it was clicked.
   */
  function CandidatesOf(dids: seq<string>, docs: map<string, Doc>, clicked: set<string>, titleOnly: bool)
    : (r: seq<Candidate>)
    ensures forall c :: c in r ==>
      && c.id in dids && c.id in docs
      && c == CandidateOf(c.id, docs[c.id], clicked, titleOnly)
    ensures forall d :: d in dids && d in docs ==> CandidateOf(d, docs[d], clicked, titleOnly) in r
    decreases |dids|
  {
    if dids == [] then []
    else
      var front := dids[..|dids| - 1];
      var d := dids[|dids| - 1];
      assert forall x :: x in dids ==> x in front || x == d;
      CandidatesOf(front, docs, clicked, titleOnly)
        + (if d in docs then [CandidateOf(d, docs[d], clicked, titleOnly)] else [])
  }

  /** Lines 141-146: the query built from the `index`-th log of a session. */
  function QueryOf(index: nat, log: QueryLog, dids: seq<string>, docs: map<string, Doc>, titleOnly: bool): Query
  {
    Query(NatToString(index), log.query, Words(log.query), CandidatesOf(dids, docs, Clicked(log), titleOnly))
  }

  /** Line 160: the query has a candidate with a true label and one with a false label. */
  predicate HasBothLabels(q: Query)
  {
    (exists c :: c in q.candidates && c.clickLabel) && (exists c :: c in q.candidates && !c.clickLabel)
  }

  /**
   * A built query survives the filter exactly when its selected documents
   * that the store has include a clicked one and an unclicked one.
   */
  lemma KeptQueryIff(index: nat, log: QueryLog, dids: seq<string>, docs: map<string, Doc>, titleOnly: bool)
    ensures HasBothLabels(QueryOf(index, log, dids, docs, titleOnly)) <==>
      && (exists d :: d in dids && d in docs && d in Clicked(log))
      && (exists d :: d in dids && d in docs && d !in Clicked(log))
  {
    var cs := CandidatesOf(dids, docs, Clicked(log), titleOnly);
    if exists d :: d in dids && d in docs && d in Clicked(log) {
      var d :| d in dids && d in docs && d in Clicked(log);
      assert CandidateOf(d, docs[d], Clicked(log), titleOnly) in cs;
    }
    if exists d :: d in dids && d in docs && d !in Clicked(log) {
      var d :| d in dids && d in docs && d !in Clicked(log);
      assert CandidateOf(d, docs[d], Clicked(log), titleOnly) in cs;
    }
  }

  /**
   * Lines 160-163: the queries with both labels, in order; the record is
   * written only when more than one of them remains.
   */
  function Finish(sessionId: string, built: seq<Query>): (r: Option<Record>)
    ensures r.Some? ==> r.value.sessionId == sessionId && r.value.queries == Filter(built, HasBothLabels)
  {
    var kept := Filter(built, HasBothLabels);
    if |kept| > 1 then Some(Record(sessionId, kept)) else None
  }

  /** A record is written exactly when two of the built queries have both labels. */
  lemma FinishIff(sessionId: string, built: seq<Query>)
    ensures Finish(sessionId, built).Some? <==>
      exists i, j :: 0 <= i < j < |built| && HasBothLabels(built[i]) && HasBothLabels(built[j])
  {
    FilterAtLeastTwo(built, HasBothLabels);
  }

  /** `runs_by_did[qid]`, a `defaultdict(dict)`: an unknown query has an empty run. */
  function RunFor(runs: map<string, Run>, qid: string): Run
  {
    if qid in runs then runs[qid] else []
  }

  /**
   * What `get_dids_from_run` promises about the documents it selects for a
   * log: sorted without duplicates, all from the run, (with unique ranks)
   * including every clicked document of the run, and exactly the documents
   * in the window of some clicked document of the run.
   */
  ghost predicate Selection(run: Run, log: QueryLog, context: int, dids: seq<string>)
  {
    && StrictlyIncreasing(dids)
    && (forall d :: d in dids ==> d in ByDid(run))
    && (UniqueRanks(run) ==> forall c :: c in Clicked(log) && c in ByDid(run) ==> c in dids)
    && context >= 1
    && (forall d :: d in dids <==>
          exists c :: c in Clicked(log) && c in ByDid(run) && d in ClickWindow(run, c, context))
  }

  /** The selection for a log is determined by the run, the clicks and the context. */
  lemma SelectionUnique(run: Run, log: QueryLog, context: int, a: seq<string>, b: seq<string>)
    requires Selection(run, log, context, a) && Selection(run, log, context, b)
    ensures a == b
  {
    IncreasingUnique(a, b);
  }

  /** Lines 135-158: the query for the `index`-th log, with the documents selected for it. */
  method QueryForLog(index: nat, log: QueryLog, runs: map<string, Run>, context: int,
                     docs: map<string, Doc>, titleOnly: bool)
    returns (q: Query, dids: seq<string>)
    requires context >= 1
    requires forall qid :: qid in runs ==> DistinctDids(runs[qid])
    ensures q == QueryOf(index, log, dids, docs, titleOnly)
    ensures Selection(RunFor(runs, log.queryId), log, context, dids)
  {
    var run := RunFor(runs, log.queryId);
    dids := GetDidsFromRun(run, Clicked(log), context);
    q := QueryOf(index, log, dids, docs, titleOnly);
  }

  /** Query `k` of a session is built from the documents selected for log `k`. */
  ghost predicate BuiltFrom(logs: seq<QueryLog>, runs: map<string, Run>, context: int,
                            docs: map<string, Doc>, titleOnly: bool,
                            queries: seq<Query>, selected: seq<seq<string>>)
  {
    && |queries| == |selected| <= |logs|
    && forall k :: 0 <= k < |queries| ==>
      && queries[k] == QueryOf(k, logs[k], selected[k], docs, titleOnly)
      && Selection(RunFor(runs, logs[k].queryId), logs[k], context, selected[k])
  }

  /** Building the next query from its selected documents keeps `BuiltFrom`. */
  lemma BuiltFromStep(logs: seq<QueryLog>, runs: map<string, Run>, context: int,
                      docs: map<string, Doc>, titleOnly: bool,
                      queries: seq<Query>, selected: seq<seq<string>>, q: Query, dids: seq<string>)
    requires BuiltFrom(logs, runs, context, docs, titleOnly, queries, selected) && |queries| < |logs|
    requires q == QueryOf(|queries|, logs[|queries|], dids, docs, titleOnly)
    requires Selection(RunFor(runs, logs[|queries|].queryId), logs[|queries|], context, dids)
    ensures BuiltFrom(logs, runs, context, docs, titleOnly, queries + [q], selected + [dids])
  {
    var qs, ss := queries + [q], selected + [dids];
    forall k | 0 <= k < |qs|
      ensures qs[k] == QueryOf(k, logs[k], ss[k], docs, titleOnly)
      ensures Selection(RunFor(runs, logs[k].queryId), logs[k], context, ss[k])
    {
      if k < |queries| {
        assert qs[k] == queries[k] && ss[k] == selected[k];
      }
    }
  }

  /** The queries built for a session are determined by its logs, runs, documents and context. */
  lemma BuiltFromUnique(logs: seq<QueryLog>, runs: map<string, Run>, context: int,
                        docs: map<string, Doc>, titleOnly: bool,
                        q1: seq<Query>, s1: seq<seq<string>>, q2: seq<Query>, s2: seq<seq<string>>)
    requires BuiltFrom(logs, runs, context, docs, titleOnly, q1, s1)
    requires BuiltFrom(logs, runs, context, docs, titleOnly, q2, s2)
    requires |q1| == |q2|
    ensures q1 == q2 && s1 == s2
  {
    forall k | 0 <= k < |q1|
      ensures s1[k] == s2[k] && q1[k] == q2[k]
    {
      SelectionUnique(RunFor(runs, logs[k].queryId), logs[k], context, s1[k], s2[k]);
    }
  }

  /** Lines 135-158: one query per log, numbered in order. */
  method BuildQueries(logs: seq<QueryLog>, runs: map<string, Run>, context: int,
                      docs: map<string, Doc>, titleOnly: bool)
    returns (queries: seq<Query>, ghost selected: seq<seq<string>>)
    requires context >= 1
    requires forall q :: q in runs ==> DistinctDids(runs[q])
    ensures |queries| == |logs|
    ensures BuiltFrom(logs, runs, context, docs, titleOnly, queries, selected)
  {
    queries, selected := [], [];
    var k := 0;
    while k < |logs|
      invariant k <= |logs| && |queries| == k
      invariant BuiltFrom(logs, runs, context, docs, titleOnly, queries, selected)
    {
      var q, dids := QueryForLog(k, logs[k], runs, context, docs, titleOnly);
      BuiltFromStep(logs, runs, context, docs, titleOnly, queries, selected, q, dids);
      queries := queries + [q];
      selected := selected + [dids];
      k := k + 1;
    }
  }

  /**
   * Lines 122-163 for one session: choose the split by the first log's
   * time (none: skip); build one query per log, numbered in order, from
   * the documents the run selects around its clicks; filter and decide
   * whether to write.  `selected` are the documents chosen for each log.
   */
  method BuildRecord(sessionId: string, logs: seq<QueryLog>, splits: seq<Split>,
                     runs: map<string, Run>, docs: map<string, Doc>, titleOnly: bool)
    returns (split: Option<Split>, record: Option<Record>, ghost built: seq<Query>, ghost selected: seq<seq<string>>)
    requires logs != []
    requires forall i :: 0 <= i < |splits| ==> splits[i].context >= 1
    requires forall q :: q in runs ==> DistinctDids(runs[q])
    ensures split == SelectSplit(splits, logs[0].time)
    ensures split.None? ==> record.None?
    ensures split.Some? ==> record == Finish(sessionId, built)
    ensures split.Some? ==> |built| == |logs| && BuiltFrom(logs, runs, split.value.context, docs, titleOnly, built, selected)
    ensures record.Some? ==>
      && split.Some? && record.value.sessionId == sessionId && |record.value.queries| > 1
      && forall q :: q in record.value.queries ==> HasBothLabels(q)
  {
    split := SelectSplit(splits, logs[0].time);
    built, selected := [], [];
    record := None;
    if split.None? {
      return;
    }
    var queries;
    queries, selected := BuildQueries(logs, runs, split.value.context, docs, titleOnly);
    built := queries;
    record := Finish(sessionId, queries);
  }
}
