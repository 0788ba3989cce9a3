/**
 * The download driver's bookkeeping (`main` in downloader.py): the done,
 * todo, in-progress and not-found id sets, the count of failures in a row,
 * bootstrap from the completion log and the manifest, dispatch, handling
 * of one worker reply, and the backoff that requeues all outstanding work.
 * The worker pool is replaced by a nondeterministic choice of which
 * in-progress id replies next.
 */
module Queue {
  import opened Wrappers
  import opened Strings
  import opened Worker

  /** One manifest line: `doc_id<TAB>url<TAB>wb_url`. */
  datatype ManifestEntry = ManifestEntry(docId: string, url: string, wbUrl: string)

  /** A manifest line without its trailing newlines, split at tabs; anything but three fields raises. */
  function ParseManifestLine(line: string): Option<ManifestEntry>
  {
    var fields := Split(RStripChar(line, '\n'), '\t');
    if |fields| == 3 then Some(ManifestEntry(fields[0], fields[1], fields[2])) else None
  }

  /** The manifest line written for an entry. */
  function ManifestLine(e: ManifestEntry): string
  {
    e.docId + "\t" + e.url + "\t" + e.wbUrl + "\n"
  }

  /**
   * The whole manifest: every line must unpack into three fields, and the
   * first line that does not stops the bootstrap (the unpacking raises).
   */
  function ParseManifest(lines: seq<string>): (r: Option<seq<ManifestEntry>>)
    ensures r.Some? <==> forall i :: 0 <= i < |lines| ==> ParseManifestLine(lines[i]).Some?
    ensures r.Some? ==> |r.value| == |lines|
    ensures r.Some? ==> forall i :: 0 <= i < |lines| ==> ParseManifestLine(lines[i]) == Some(r.value[i])
    decreases |lines|
  {
    if lines == [] then Some([])
    else match (ParseManifestLine(lines[0]), ParseManifest(lines[1..]))
      case (Some(e), Some(rest)) => Some([e] + rest)
      case _ => None
  }

  /** An entry a manifest line can carry: no tab in a field, no newline ending the last. */
  predicate WellFormedEntry(e: ManifestEntry)
  {
    && '\t' !in e.docId && '\t' !in e.url && '\t' !in e.wbUrl
    && (e.wbUrl == [] || e.wbUrl[|e.wbUrl| - 1] != '\n')
  }

  /** Parsing a well-formed manifest line gives back its entry. */
  lemma ParseManifestLineRoundTrip(e: ManifestEntry)
    requires WellFormedEntry(e)
    ensures ParseManifestLine(ManifestLine(e)) == Some(e)
  {
    var body := e.docId + "\t" + e.url + "\t" + e.wbUrl;
    assert ManifestLine(e) == body + "\n";
    assert ManifestLine(e)[..|body|] == body;
    assert RStripChar(ManifestLine(e), '\n') == RStripChar(body, '\n');
    assert body[|body| - 1] != '\n';
    assert RStripChar(body, '\n') == body;
    var parts := [e.docId, e.url, e.wbUrl];
    assert Join("\t", parts) == body by {
      assert parts[1..] == [e.url, e.wbUrl];
      assert parts[1..][1..] == [e.wbUrl];
      assert Join("\t", [e.wbUrl]) == e.wbUrl;
      assert Join("\t", [e.url, e.wbUrl]) == e.url + "\t" + e.wbUrl;
    }
    SplitJoin(parts, '\t');
  }

  /** The manifest file written for a list of entries, one line each. */
  function ManifestLines(manifest: seq<ManifestEntry>): (r: seq<string>)
    ensures |r| == |manifest| && forall i :: 0 <= i < |r| ==> r[i] == ManifestLine(manifest[i])
  {
    seq(|manifest|, i requires 0 <= i < |manifest| => ManifestLine(manifest[i]))
  }

  /** A manifest written from well-formed entries parses back to those entries. */
  lemma ParseManifestRoundTrip(manifest: seq<ManifestEntry>)
    requires forall i :: 0 <= i < |manifest| ==> WellFormedEntry(manifest[i])
    ensures ParseManifest(ManifestLines(manifest)) == Some(manifest)
  {
    var lines := ManifestLines(manifest);
    forall i | 0 <= i < |lines|
      ensures ParseManifestLine(lines[i]) == Some(manifest[i])
    {
      ParseManifestLineRoundTrip(manifest[i]);
    }
    var r := ParseManifest(lines);
    assert r.Some?;
    assert forall i :: 0 <= i < |manifest| ==> Some(r.value[i]) == Some(manifest[i]);
    assert r.value == manifest;
  }

  /** The elements of a sequence, built from the front. */
  function Elements(s: seq<string>): set<string>
    decreases |s|
  {
    if s == [] then {} else Elements(s[..|s| - 1]) + {s[|s| - 1]}
  }

  /** `Elements` holds exactly the members of the sequence. */
  lemma {:induction false} ElementsMembership(s: seq<string>, x: string)
    ensures x in Elements(s) <==> exists i :: 0 <= i < |s| && s[i] == x
    decreases |s|
  {
    if s != [] {
      var t := s[..|s| - 1];
      ElementsMembership(t, x);
      if x in Elements(t) {
        var i :| 0 <= i < |t| && t[i] == x;
        assert s[i] == x;
      }
      if exists i :: 0 <= i < |s| && s[i] == x {
        var i :| 0 <= i < |s| && s[i] == x;
        if i < |t| {
          assert t[i] == x;
        }
      }
    }
  }

  /** The ids a manifest names, in order (possibly repeated). */
  function DocIds(manifest: seq<ManifestEntry>): (r: seq<string>)
    ensures |r| == |manifest| && forall i :: 0 <= i < |r| ==> r[i] == manifest[i].docId
  {
    seq(|manifest|, i requires 0 <= i < |manifest| => manifest[i].docId)
  }

  function ManifestIds(manifest: seq<ManifestEntry>): set<string>
  {
    Elements(DocIds(manifest))
  }

  /** Each line of the completion log, stripped. */
  function StripAll(lines: seq<string>): (r: seq<string>)
    ensures |r| == |lines| && forall i :: 0 <= i < |r| ==> r[i] == Strip(lines[i])
  {
    seq(|lines|, i requires 0 <= i < |lines| => Strip(lines[i]))
  }

  /** The ids a completion log records. */
  function LoggedIds(lines: seq<string>): set<string>
  {
    Elements(StripAll(lines))
  }

  /**
   * The invariant of the four sets over a manifest's ids: not-found ids are
   * done; todo, in-progress and done are pairwise disjoint; todo and
   * in-progress hold manifest ids only, and every manifest id is in one of
   * the three.
   */
  ghost predicate QueueInvariant(ids: set<string>, done: set<string>, todo: set<string>,
                                 inProgress: set<string>, notFound: set<string>)
  {
    && notFound <= done
    && todo !! inProgress && todo !! done && inProgress !! done
    && todo + inProgress <= ids
    && ids <= todo + inProgress + done
  }

  /** The completion log as the driver writes it: each id on a line of its own. */
  function LogLines(log: seq<string>): (r: seq<string>)
    ensures |r| == |log| && forall i :: 0 <= i < |r| ==> r[i] == log[i] + "\n"
  {
    seq(|log|, i requires 0 <= i < |log| => log[i] + "\n")
  }

  /** Ids without whitespace at either end read back from the log as themselves. */
  lemma LogReadsBack(log: seq<string>)
    requires forall i :: 0 <= i < |log| ==> Trimmed(log[i])
    ensures StripAll(LogLines(log)) == log
    ensures LoggedIds(LogLines(log)) == Elements(log)
  {
    forall i | 0 <= i < |log|
      ensures StripAll(LogLines(log))[i] == log[i]
    {
      StripLine(log[i]);
    }
  }

  /**
   * What a restart reconstructs: bootstrapping again from the log written
   * so far (ids without surrounding whitespace) and the same manifest makes
   * todo exactly the ids that were todo or in progress, so a crash loses
   * only in-progress work and that work is requeued.
   */
  lemma RestartRequeuesOutstanding(manifest: seq<ManifestEntry>, log: seq<string>, todo: set<string>,
                                   inProgress: set<string>, notFound: set<string>)
    requires QueueInvariant(ManifestIds(manifest), Elements(log), todo, inProgress, notFound)
    requires forall i :: 0 <= i < |log| ==> Trimmed(log[i])
    ensures LoggedIds(LogLines(log)) == Elements(log)
    ensures ManifestIds(manifest) - LoggedIds(LogLines(log)) == todo + inProgress
  {
    LogReadsBack(log);
  }

  /** When nothing is todo or in progress, every manifest id is done. */
  lemma DrainedMeansComplete(ids: set<string>, done: set<string>, notFound: set<string>)
    requires QueueInvariant(ids, done, {}, {}, notFound)
    ensures ids <= done
  {
  }

  /** The pool that line 225 terminates: with one process none was ever bound. */
  datatype Pool = NoPool | ProcessPool

  function PoolFor(parallel: int): Pool
  {
    if parallel == 1 then NoPool else ProcessPool
  }

  /** `pool.terminate()` as written: on the one-process path the name is unbound and the call raises. */
  function TerminateAsWritten(p: Pool): Result<()>
  {
    match p
    case NoPool => Err("cannot access local variable 'pool'")
    case ProcessPool => Ok(())
  }

  /**
   * The two backoffs side by side, on the four sets: the one-process path
   * as written leaves the failing id both todo and in progress, which
   * breaks the queue invariant; the corrected requeue keeps it, and the
   * two reach the same todo-or-in-progress ids.
   */
  lemma AsWrittenBreaksInvariant(ids: set<string>, done: set<string>, todo: set<string>,
                                 inProgress: set<string>, notFound: set<string>, docid: string)
    requires QueueInvariant(ids, done, todo, inProgress, notFound) && docid in inProgress
    ensures !QueueInvariant(ids, done, todo + {docid}, inProgress, notFound)
    ensures QueueInvariant(ids, done, todo + {docid} + inProgress, {}, notFound)
    ensures todo + {docid} + inProgress == todo + inProgress
  {
    assert docid in (todo + {docid}) * inProgress;
  }

  /** Entry `i` is the last manifest line for its id. */
  ghost predicate LastFor(manifest: seq<ManifestEntry>, i: int)
    requires 0 <= i < |manifest|
  {
    forall j :: i < j < |manifest| ==> manifest[j].docId != manifest[i].docId
  }

  /** The `done_ids.add` loop: the set of the ids, one at a time. */
  method AddAll(ids: seq<string>) returns (done: set<string>)
    ensures done == Elements(ids)
  {
    done := {};
    var i := 0;
    while i < |ids|
      invariant 0 <= i <= |ids|
      invariant done == Elements(ids[..i])
    {
      assert ids[..i + 1][..i] == ids[..i];
      done := done + {ids[i]};
      i := i + 1;
    }
    assert ids[..i] == ids;
  }

  /** Reads the completion log: each line stripped, in order. */
  method LoadDoneLog(logLines: seq<string>) returns (done: set<string>, log: seq<string>)
    ensures log == StripAll(logLines)
    ensures done == LoggedIds(logLines) && done == Elements(log)
  {
    log := StripAll(logLines);
    done := AddAll(log);
  }

  /**
   * Reads the manifest into `did2url` (a later line for an id overwrites an
   * earlier one) and collects as todo every id that is not done.
   */
  method LoadManifest(manifest: seq<ManifestEntry>, done: set<string>)
    returns (urls: map<string, (string, string)>, pending: set<string>)
    ensures urls.Keys == ManifestIds(manifest)
    ensures forall i :: 0 <= i < |manifest| && LastFor(manifest, i)
              ==> manifest[i].docId in urls && urls[manifest[i].docId] == (manifest[i].url, manifest[i].wbUrl)
    ensures pending == ManifestIds(manifest) - done
  {
    var ids := DocIds(manifest);
    urls := map[];
    pending := {};
    var n := 0;
    while n < |manifest|
      invariant 0 <= n <= |manifest|
      invariant urls.Keys == Elements(ids[..n])
      invariant forall k :: 0 <= k < n && LastBefore(manifest, k, n) ==> Loaded(urls, manifest[k])
      invariant pending == Elements(ids[..n]) - done
    {
      var e := manifest[n];
      assert ids[..n + 1][..n] == ids[..n];
      var urls' := urls[e.docId := (e.url, e.wbUrl)];
      forall k | 0 <= k < n + 1 && LastBefore(manifest, k, n + 1)
        ensures Loaded(urls', manifest[k])
      {
        if k < n {
          assert LastBefore(manifest, k, n);
        }
      }
      urls := urls';
      if e.docId !in done {
        pending := pending + {e.docId};
      }
      n := n + 1;
    }
    assert ids[..n] == ids;
    forall i | 0 <= i < |manifest| && LastFor(manifest, i)
      ensures manifest[i].docId in urls && urls[manifest[i].docId] == (manifest[i].url, manifest[i].wbUrl)
    {
      assert LastBefore(manifest, i, n);
    }
  }

  /** No later entry before `n` has the same id as entry `k`. */
  ghost predicate LastBefore(manifest: seq<ManifestEntry>, k: int, n: int)
    requires 0 <= k < n <= |manifest|
  {
    forall j :: k < j < n ==> manifest[j].docId != manifest[k].docId
  }

  /** `urls` holds the entry's url and archive url under its id. */
  ghost predicate Loaded(urls: map<string, (string, string)>, e: ManifestEntry)
  {
    e.docId in urls && urls[e.docId] == (e.url, e.wbUrl)
  }

  /** A task handed to a worker: `(docid, (url, wb_url))`. */
  datatype Task = Task(docId: string, url: string, wbUrl: string)

  class Downloader {
    /** `did2url`: every manifest id with its url and archive url (the last line for an id wins). */
    var did2url: map<string, (string, string)>
    var doneIds: set<string>
    var todo: set<string>
    var inProgress: set<string>
    var notFound: set<string>
    var failuresInARow: int
    /** The ids the completion log `done_ids.txt` records, in order. */
    var doneLog: seq<string>
    /** `--backoff_threshold`. */
    const backoffThreshold: int

    ghost predicate Valid()
      reads this
    {
      && QueueInvariant(did2url.Keys, doneIds, todo, inProgress, notFound)
      && doneIds == Elements(doneLog)
    }

    /**
     * Bootstrap: the done set is the stripped lines of the completion log,
     * `did2url` is the manifest, and todo is every manifest id not done.
     */
    constructor Bootstrap(logLines: seq<string>, manifest: seq<ManifestEntry>, threshold: int)
      ensures Valid()
      ensures doneIds == LoggedIds(logLines)
      ensures did2url.Keys == ManifestIds(manifest)
      ensures forall i :: 0 <= i < |manifest| && LastFor(manifest, i)
                ==> manifest[i].docId in did2url && did2url[manifest[i].docId] == (manifest[i].url, manifest[i].wbUrl)
      ensures todo == ManifestIds(manifest) - doneIds
      ensures inProgress == {} && notFound == {} && failuresInARow == 0
      ensures backoffThreshold == threshold
    {
      backoffThreshold := threshold;
      var done, log := LoadDoneLog(logLines);
      var urls, pending := LoadManifest(manifest, done);
      did2url := urls;
      doneIds := done;
      doneLog := log;
      todo := pending;
      inProgress := {};
      notFound := {};
      failuresInARow := 0;
    }

    /**
     * `did = todo.pop(); in_progress.add(did)`: moves exactly one id from
     * todo to in-progress and hands out its task; its urls are always there.
     */
    method Pop() returns (task: Task)
      requires Valid() && todo != {}
      modifies this
      ensures Valid()
      ensures task.docId in old(todo)
      ensures todo == old(todo) - {task.docId}
      ensures inProgress == old(inProgress) + {task.docId}
      ensures (task.url, task.wbUrl) == did2url[task.docId]
      ensures did2url == old(did2url) && doneIds == old(doneIds) && notFound == old(notFound)
      ensures doneLog == old(doneLog) && failuresInARow == old(failuresInARow)
    {
      var did :| did in todo;
      todo := todo - {did};
      inProgress := inProgress + {did};
      var (url, wbUrl) := did2url[did];
      task := Task(did, url, wbUrl);
    }

    /**
     * The new state after one reply `(docid, error)`, `backedOff` telling
     * whether it ended the round.  A success logs the id as done; a 404/403
     * also records it as not found; both reset the failure count.  Any
     * other error requeues the id and counts one more failure in a row; on
     * reaching the threshold everything in progress goes back to todo and
     * in-progress ends empty.
     */
    twostate predicate Handled(docid: string, error: Option<string>, backedOff: bool)
      reads this
    {
      && (Classify(error) != Retryable ==>
        && doneIds == old(doneIds) + {docid}
        && doneLog == old(doneLog) + [docid]
        && todo == old(todo)
        && inProgress == old(inProgress) - {docid}
        && failuresInARow == 0
        && !backedOff)
      && (Classify(error) == Succeeded ==> notFound == old(notFound))
      && (Classify(error) == Terminal ==> notFound == old(notFound) + {docid})
      && (Classify(error) == Retryable ==>
        && doneIds == old(doneIds) && doneLog == old(doneLog) && notFound == old(notFound)
        && failuresInARow == old(failuresInARow) + 1
        && backedOff == (failuresInARow >= backoffThreshold)
        && (backedOff ==> todo == old(todo) + old(inProgress) && inProgress == {})
        && (!backedOff ==> todo == old(todo) + {docid} && inProgress == old(inProgress) - {docid}))
    }

    /**
     * The body of the `for` loop for one reply `(docid, error)`.  A success
     * logs the id as done; a 404/403 also records it as not found; both
     * reset the failure count.  Any other error requeues the id and counts
     * one more failure in a row; on reaching the threshold everything in
     * progress goes back to todo and in-progress ends empty.
     */
    method HandleReply(docid: string, error: Option<string>) returns (backedOff: bool)
      requires Valid() && docid in inProgress
      modifies this
      ensures Valid()
      ensures did2url == old(did2url)
      ensures Handled(docid, error, backedOff)
    {
      backedOff := false;
      var outcome := Classify(error);
      if outcome == Retryable {
        todo := todo + {docid};
        failuresInARow := failuresInARow + 1;
        if failuresInARow >= backoffThreshold {
          Backoff();
          backedOff := true;
          return;
        }
      } else {
        AppendElements(doneLog, docid);
        doneLog := doneLog + [docid];
        doneIds := doneIds + {docid};
        if outcome == Terminal {
          notFound := notFound + {docid};
        }
        failuresInARow := 0;
      }
      inProgress := inProgress - {docid};
    }

    /**
     * The reply handler as written, for a round started with `--parallel`
     * processes.  With a process pool it is `HandleReply`.  With one
     * process no pool is bound (lines 201-204), and the failure that
     * reaches the threshold has already put the id back on todo and counted
     * it when `pool.terminate()` raises: the requeue never happens, the id
     * is left both todo and in progress, and the exception ends the run
     * before `_done` is written.
     */
    method HandleReplyAsWritten(parallel: int, docid: string, error: Option<string>) returns (r: Result<bool>)
      requires Valid() && docid in inProgress
      modifies this
      ensures r.Err? <==>
        parallel == 1 && Classify(error) == Retryable && old(failuresInARow) + 1 >= backoffThreshold
      ensures r.Ok? ==> Valid() && did2url == old(did2url) && Handled(docid, error, r.value)
      ensures r.Err? ==>
        && todo == old(todo) + {docid} && inProgress == old(inProgress)
        && failuresInARow == old(failuresInARow) + 1
        && doneIds == old(doneIds) && notFound == old(notFound) && did2url == old(did2url)
        && docid in todo && docid in inProgress && !Valid()
    {
      var p := PoolFor(parallel);
      if p == NoPool && Classify(error) == Retryable && failuresInARow + 1 >= backoffThreshold {
        todo := todo + {docid};
        failuresInARow := failuresInARow + 1;
        var t := TerminateAsWritten(p);
        r := Err(t.message);
      } else {
        var backedOff := HandleReply(docid, error);
        r := Ok(backedOff);
      }
    }

    /** The requeue of a backoff: everything in progress goes back to todo. */
    method Backoff()
      modifies this`todo, this`inProgress
      ensures todo == old(todo) + old(inProgress) && inProgress == {}
    {
      todo := todo + inProgress;
      inProgress := {};
    }

    /** `failures_in_a_row = 0` at the start of each round of `while todo:`. */
    method Restart()
      modifies this`failuresInARow
      ensures failuresInARow == 0
    {
      failuresInARow := 0;
    }

    /**
     * The main loop, for at most `fuel` events: while anything is todo or in
     * progress, either dispatch a todo id (when `dispatch` says so, or when
     * nothing is in flight) or let some in-flight id reply with
     * `reply(id, step)`; after a backoff a new round starts.  It finishes
     * exactly when the queue drains, and then every manifest id is done.
     */
    method Drive(fuel: nat, dispatch: nat -> bool, reply: (string, nat) -> Option<string>)
      returns (finished: bool)
      requires Valid()
      modifies this
      ensures Valid()
      ensures did2url == old(did2url)
      ensures old(doneIds) <= doneIds && old(notFound) <= notFound
      ensures finished <==> todo == {} && inProgress == {}
      ensures finished ==> did2url.Keys <= doneIds
    {
      Restart();
      var step := 0;
      while step < fuel && (todo != {} || inProgress != {})
        invariant Valid()
        invariant did2url == old(did2url)
        invariant old(doneIds) <= doneIds && old(notFound) <= notFound
      {
        if todo != {} && (inProgress == {} || dispatch(step)) {
          var task := Pop();
        } else {
          var did :| did in inProgress;
          var backedOff := HandleReply(did, reply(did, step));
          if backedOff {
            Restart();
          }
        }
        step := step + 1;
      }
      finished := todo == {} && inProgress == {};
      if finished {
        DrainedMeansComplete(did2url.Keys, doneIds, notFound);
      }
    }
  }

  /**
   * Lines 165-177 from the raw manifest lines: a line that does not unpack
   * into three fields raises before the driver exists; otherwise the driver
   * is bootstrapped from the parsed entries.
   */
  method Prepare(logLines: seq<string>, manifestLines: seq<string>, threshold: int)
    returns (d: Option<Downloader>)
    ensures d.None? <==> ParseManifest(manifestLines).None?
    ensures d.Some? ==>
      && fresh(d.value) && d.value.Valid()
      && d.value.doneIds == LoggedIds(logLines)
      && d.value.did2url.Keys == ManifestIds(ParseManifest(manifestLines).value)
      && d.value.todo == ManifestIds(ParseManifest(manifestLines).value) - d.value.doneIds
      && d.value.inProgress == {} && d.value.notFound == {} && d.value.failuresInARow == 0
  {
    var manifest := ParseManifest(manifestLines);
    if manifest.None? {
      return None;
    }
    var driver := new Downloader.Bootstrap(logLines, manifest.value, threshold);
    d := Some(driver);
  }

  lemma AppendElements(s: seq<string>, x: string)
    ensures Elements(s + [x]) == Elements(s) + Elements([x])
  {
    var t := s + [x];
    assert forall i :: 0 <= i < |s| ==> t[i] == s[i];
    assert t[|s|] == x;
  }
}
