/**
 * A whole run over a two-line manifest with an empty completion log: the
 * worker fetches document A as an HTML page and gets a 404 client error
 * for document B.  The pool may hand the two tasks out in either order.
 */
module Scenario {
  import opened Wrappers
  import opened Strings
  import opened Extractor
  import opened Worker
  import opened Queue

  /** What the network gives for each of the two documents. */
  function FetchFor(docid: string): Fetch
  {
    if docid == "A" then Response(Some("text/html"), [])
    else Raised(NotFoundClientError + " for url: https://web.archive.org/web/B")
  }

  /** The worker's reply for A: success, and one record appended to A's shard. */
  lemma ReplyForA(tokenize: string -> seq<string>)
    requires tokenize("") == []
    ensures Process("A", "urlA", "wbA", FetchFor("A"), tokenize)
         == Reply("A", None, Some(Append("A.jsonl.lz4", Record("A", "urlA", "wbA", "", ""))))
  {
    LowerOfLower("text/html");
    ContainsAt("text/html", "html", 5);
    ContainsLength("wbA", InsecureArchive);
    RewriteKeepsOtherUrls("wbA");
    assert Run(Initial, []) == Initial;
    assert ShardName("A") == "A.jsonl.lz4";
  }

  /** The worker's reply for B is a failure the driver reads as terminal. */
  lemma ReplyForB(tokenize: string -> seq<string>)
    ensures var r := Process("B", "urlB", "wbB", FetchFor("B"), tokenize);
      r.docId == "B" && r.appended.None? && Classify(r.error) == Terminal
  {
    var ex := NotFoundClientError + " for url: https://web.archive.org/web/B";
    assert ex[..|NotFoundClientError|] == NotFoundClientError;
    ContainsAt(ex, NotFoundClientError, 0);
    NormalizedTerminal(ex);
    MessageTerminal(RewriteArchiveUrl("wbB"), ex);
  }

  /** The manifest of the run: one line for A, one for B. */
  const TwoLines: seq<ManifestEntry> := [ManifestEntry("A", "urlA", "wbA"), ManifestEntry("B", "urlB", "wbB")]

  lemma TwoLinesIds()
    ensures ManifestIds(TwoLines) == {"A", "B"} && LoggedIds([]) == {}
    ensures LastFor(TwoLines, 0) && LastFor(TwoLines, 1)
  {
    assert StripAll([]) == [];
    var ids := DocIds(TwoLines);
    assert ids == ["A", "B"];
    assert ids[..1] == ["A"] && ids[..1][..0] == [];
    assert Elements(ids[..1]) == {"A"};
    assert Elements(ids) == Elements(ids[..1]) + {"B"};
  }

  /** The worker run on one of the two tasks: its reply, and what the driver makes of it. */
  method Work(task: Task, tokenize: string -> seq<string>) returns (r: Reply)
    requires TaskFor(task) && tokenize("") == []
    ensures task.docId == "A" ==>
      Classify(r.error) == Succeeded && r.appended == Some(Append("A.jsonl.lz4", Record("A", "urlA", "wbA", "", "")))
    ensures task.docId == "B" ==> Classify(r.error) == Terminal && r.appended.None?
  {
    if task.docId == "A" {
      ReplyForA(tokenize);
    } else {
      ReplyForB(tokenize);
    }
    r := Process(task.docId, task.url, task.wbUrl, FetchFor(task.docId), tokenize);
  }

  /** The driver handles the reply for one of the two documents. */
  method Handle(d: Downloader, id: string, r: Reply)
    requires d.Valid() && id in d.inProgress && d.backoffThreshold == 10
    requires id == "A" ==> Classify(r.error) == Succeeded
    requires id == "B" ==> Classify(r.error) == Terminal
    requires id in {"A", "B"}
    modifies d
    ensures d.Valid() && d.backoffThreshold == 10
    ensures d.doneIds == old(d.doneIds) + {id} && d.todo == old(d.todo)
    ensures d.inProgress == old(d.inProgress) - {id}
    ensures d.notFound == old(d.notFound) + (if id == "B" then {"B"} else {})
  {
    var backedOff := d.HandleReply(id, r.error);
  }

  /** A task handed out for this manifest carries that document's URLs. */
  predicate TaskFor(t: Task)
  {
    t.docId in {"A", "B"}
    && t.url == (if t.docId == "A" then "urlA" else "urlB")
    && t.wbUrl == (if t.docId == "A" then "wbA" else "wbB")
  }

  /** Bootstrap over the two lines and hand out both tasks, in whatever order. */
  method Start() returns (d: Downloader, first: Task, second: Task)
    ensures fresh(d) && d.Valid() && d.backoffThreshold == 10
    ensures d.doneIds == {} && d.notFound == {} && d.todo == {}
    ensures d.inProgress == {first.docId, second.docId} == {"A", "B"}
    ensures first.docId != second.docId && TaskFor(first) && TaskFor(second)
  {
    TwoLinesIds();
    d := new Downloader.Bootstrap([], TwoLines, 10);
    assert TwoLines[0].docId == "A" && TwoLines[1].docId == "B";
    assert d.did2url["A"] == ("urlA", "wbA") && d.did2url["B"] == ("urlB", "wbB");
    first := d.Pop();
    second := d.Pop();
  }

  /**
   * Both orders end the same way: A and B are done, only B is not found,
   * the queue has drained, and the only append is A's record.
   */
  method TwoDocumentRun(tokenize: string -> seq<string>)
    returns (done: set<string>, notFound: set<string>, drained: bool, appends: seq<Append>)
    requires tokenize("") == []
    ensures done == {"A", "B"} && notFound == {"B"} && drained
    ensures appends == [Append("A.jsonl.lz4", Record("A", "urlA", "wbA", "", ""))]
  {
    var d, first, second := Start();
    var r1 := Work(first, tokenize);
    var r2 := Work(second, tokenize);
    Handle(d, first.docId, r1);
    Handle(d, second.docId, r2);
    appends := (if r1.appended.Some? then [r1.appended.value] else [])
             + (if r2.appended.Some? then [r2.appended.value] else []);
    done, notFound := d.doneIds, d.notFound;
    drained := d.todo == {} && d.inProgress == {};
  }
}
