/**
 * Candidate selection from a ranked run (`get_dids_from_run` in
 * generate_cars.py): for each clicked document found in the run, a window
 * of `context` consecutive ranks around its rank, shifted right and then
 * left until both ends are ranks of the run, and trimmed on the left; the
 * documents at the ranks inside the windows, sorted.
 */
module RunWindow {
  import opened Ordering

  /**
   * One query's run, `run_by_did`, as the dictionary's entries in insertion
   * order: `(did, rank)` pairs with distinct dids.
   */
  type Run = seq<(string, int)>

  ghost predicate DistinctDids(run: Run)
  {
    forall i, j :: 0 <= i < j < |run| ==> run[i].0 != run[j].0
  }

  ghost predicate UniqueRanks(run: Run)
  {
    forall i, j :: 0 <= i < j < |run| ==> run[i].1 != run[j].1
  }

  /** The run as the dictionary `run_by_did`, built entry by entry. */
  function ByDid(run: Run): (m: map<string, int>)
    ensures forall i :: 0 <= i < |run| ==> run[i].0 in m
    decreases |run|
  {
    if run == [] then map[]
    else ByDid(run[..|run| - 1])[run[|run| - 1].0 := run[|run| - 1].1]
  }

  /** The rank `ByDid` keeps for a document: that of its last entry. */
  lemma {:induction false} ByDidLastWins(run: Run, i: int)
    requires 0 <= i < |run|
    requires forall j :: i < j < |run| ==> run[j].0 != run[i].0
    ensures ByDid(run)[run[i].0] == run[i].1
    decreases |run|
  {
    if i < |run| - 1 {
      var front := run[..|run| - 1];
      assert front[i] == run[i];
      ByDidLastWins(front, i);
    }
  }

  /** Every document of `ByDid` has an entry with its rank. */
  lemma {:induction false} ByDidSound(run: Run, d: string)
    requires d in ByDid(run)
    ensures exists i :: 0 <= i < |run| && run[i] == (d, ByDid(run)[d])
    decreases |run|
  {
    var last := run[|run| - 1];
    if last.0 != d {
      var front := run[..|run| - 1];
      ByDidSound(front, d);
      var i :| 0 <= i < |front| && front[i] == (d, ByDid(front)[d]);
      assert run[i] == front[i];
    } else {
      assert run[|run| - 1] == (d, ByDid(run)[d]);
    }
  }

  /**
   * The run inverted into a rank-to-document dictionary: when several
   * dids share a rank, the one inserted last wins.
   */
  function ByRank(run: Run): (m: map<int, string>)
    ensures forall i :: 0 <= i < |run| ==> run[i].1 in m
    decreases |run|
  {
    if run == [] then map[]
    else ByRank(run[..|run| - 1])[run[|run| - 1].1 := run[|run| - 1].0]
  }

  /** The entry `ByRank` keeps for a rank: the last one carrying it. */
  lemma {:induction false} ByRankLastWins(run: Run, i: int)
    requires 0 <= i < |run|
    requires forall j :: i < j < |run| ==> run[j].1 != run[i].1
    ensures ByRank(run)[run[i].1] == run[i].0
    decreases |run|
  {
    if i < |run| - 1 {
      var front := run[..|run| - 1];
      assert front[i] == run[i];
      ByRankLastWins(front, i);
    }
  }

  /** Every document `ByRank` keeps sits at that rank in the run. */
  lemma {:induction false} ByRankSound(run: Run, r: int)
    requires r in ByRank(run)
    ensures exists i :: 0 <= i < |run| && run[i] == (ByRank(run)[r], r)
    decreases |run|
  {
    var last := run[|run| - 1];
    if last.1 != r {
      var front := run[..|run| - 1];
      ByRankSound(front, r);
      var i :| 0 <= i < |front| && front[i] == (ByRank(front)[r], r);
      assert run[i] == front[i];
    } else {
      assert run[|run| - 1] == (ByRank(run)[r], r);
    }
  }

  /** Looking a rank up and then its document's rank gives back the rank. */
  lemma ByRankInverse(run: Run, r: int)
    requires DistinctDids(run) && r in ByRank(run)
    ensures ByRank(run)[r] in ByDid(run) && ByDid(run)[ByRank(run)[r]] == r
  {
    ByRankSound(run, r);
    var i :| 0 <= i < |run| && run[i] == (ByRank(run)[r], r);
    ByDidLastWins(run, i);
  }

  /** With unique ranks, every document of the run is found again at its rank. */
  lemma ByRankOfUnique(run: Run, i: int)
    requires UniqueRanks(run) && 0 <= i < |run|
    ensures ByRank(run)[run[i].1] == run[i].0
  {
    ByRankLastWins(run, i);
  }

  /** The first rank of the run at or after `s`; the clicked rank bounds the search. */
  ghost function FirstFrom(ranks: set<int>, s: int, rank: int): (r: int)
    requires s <= rank && rank in ranks
    ensures s <= r <= rank && r in ranks
    decreases rank - s
  {
    if s in ranks then s else FirstFrom(ranks, s + 1, rank)
  }

  /** The last rank of the run at or before `t`; the clicked rank bounds the search. */
  ghost function LastUpTo(ranks: set<int>, t: int, rank: int): (r: int)
    requires rank <= t && rank in ranks
    ensures rank <= r <= t && r in ranks
    decreases t - rank
  {
    if t in ranks then t else LastUpTo(ranks, t - 1, rank)
  }

  /**
   * Where the three loops of lines 175-182 leave the window `[start, stop)`
   * of length `context` centred on `rank`: the first run rank at or after
   * its start gives the shifted start, the last run rank before the
   * shifted stop gives the final stop, and the first run rank at or after
   * the start that goes with it gives the final start.
   */
  /** `FirstFrom` is the first rank of `ranks` at or after `s`. */
  lemma {:induction false} FirstFromIsFirst(ranks: set<int>, s: int, rank: int, q: int)
    requires s <= rank && rank in ranks && s <= q < FirstFrom(ranks, s, rank)
    ensures q !in ranks
    decreases rank - s
  {
    if s !in ranks && q > s {
      FirstFromIsFirst(ranks, s + 1, rank, q);
    }
  }

  /** `LastUpTo` is the last rank of `ranks` at or before `t`. */
  lemma {:induction false} LastUpToIsLast(ranks: set<int>, t: int, rank: int, q: int)
    requires rank <= t && rank in ranks && LastUpTo(ranks, t, rank) < q <= t
    ensures q !in ranks
    decreases t - rank
  {
    if t !in ranks && q < t {
      LastUpToIsLast(ranks, t - 1, rank, q);
    }
  }

  ghost function WindowOf(ranks: set<int>, rank: int, context: int): (w: (int, int))
    requires context >= 1 && rank in ranks
  {
    var start1 := FirstFrom(ranks, rank - context / 2, rank);
    var last := LastUpTo(ranks, start1 + context - 1, rank);
    (FirstFrom(ranks, last + 1 - context, rank), last + 1)
  }

  /**
   * The window of one clicked rank (lines 172-182): `context` ranks centred
   * on it, shifted right until its start is a rank of the run, then left
   * until its last slot is, then its start moved right until it is a rank
   * again.  All three loops end, in the window `WindowOf` describes; it
   * keeps the clicked rank, both ends are ranks of the run, and it is at
   * most `context` wide.
   */
  method Window(ranks: set<int>, rank: int, context: int) returns (start: int, stop: int)
    requires context >= 1 && rank in ranks
    ensures (start, stop) == WindowOf(ranks, rank, context)
    ensures start in ranks && stop - 1 in ranks
    ensures start <= rank < stop
    ensures stop - start <= context
  {
    start, stop := rank - context / 2, rank + context / 2;
    if stop - start != context {
      stop := stop + 1;
    }
    assert start == rank - context / 2;
    ghost var start1 := FirstFrom(ranks, start, rank);
    while start !in ranks
      invariant start <= rank < stop && stop - start == context
      invariant FirstFrom(ranks, start, rank) == start1
      decreases rank - start
    {
      start := start + 1;
      stop := stop + 1;
    }
    assert start == start1 && stop == start1 + context;
    ghost var last := LastUpTo(ranks, stop - 1, rank);
    while stop - 1 !in ranks
      invariant start <= rank < stop && stop - start == context
      invariant LastUpTo(ranks, stop - 1, rank) == last
      decreases stop - 1 - rank
    {
      start := start - 1;
      stop := stop - 1;
    }
    assert stop == last + 1 && start == last + 1 - context;
    ghost var start3 := FirstFrom(ranks, start, rank);
    while start !in ranks
      invariant start <= rank < stop && stop - start <= context
      invariant FirstFrom(ranks, start, rank) == start3
      decreases rank - start
    {
      start := start + 1;
    }
    assert start == start3;
    assert WindowOf(ranks, rank, context) == (start3, last + 1) by {
      assert start1 == FirstFrom(ranks, rank - context / 2, rank);
      assert last == LastUpTo(ranks, start1 + context - 1, rank);
    }
  }

  /** The documents at the ranks of `[start, stop)` that the run has. */
  ghost function InWindow(byRank: map<int, string>, start: int, stop: int): set<string>
    decreases stop - start
  {
    if stop <= start then {}
    else InWindow(byRank, start, stop - 1) + (if stop - 1 in byRank then {byRank[stop - 1]} else {})
  }

  /** A document is in the window exactly when it sits at one of the window's ranks. */
  lemma {:induction false} InWindowMembers(byRank: map<int, string>, start: int, stop: int, d: string)
    ensures d in InWindow(byRank, start, stop) <==> exists q :: q in byRank && start <= q < stop && byRank[q] == d
    decreases stop - start
  {
    if stop > start {
      InWindowMembers(byRank, start, stop - 1, d);
    }
  }

  /** A window holds at most one document per rank. */
  lemma {:induction false} InWindowSize(byRank: map<int, string>, start: int, stop: int)
    requires start <= stop
    ensures |InWindow(byRank, start, stop)| <= stop - start
    decreases stop - start
  {
    if stop > start {
      InWindowSize(byRank, start, stop - 1);
    }
  }

  lemma UnionSize(a: set<string>, b: set<string>)
    ensures |a + b| <= |a| + |b|
  {
  }

  /**
   * The `for rank in range(start, stop)` loop: adds the document of every
   * rank in the window that the run has, at most one per rank.
   */
  method AddWindow(byRank: map<int, string>, start: int, stop: int, target: set<string>)
    returns (result: set<string>)
    requires start <= stop
    ensures result == target + InWindow(byRank, start, stop)
    ensures |result| <= |target| + (stop - start)
  {
    result := target;
    var r := start;
    while r < stop
      invariant start <= r <= stop
      invariant result == target + InWindow(byRank, start, r)
    {
      if r in byRank {
        result := result + {byRank[r]};
      }
      r := r + 1;
    }
    InWindowSize(byRank, start, stop);
    UnionSize(target, InWindow(byRank, start, stop));
  }

  /** A document of the run has a rank of the run. */
  lemma RankInRun(run: Run, c: string)
    requires c in ByDid(run)
    ensures ByDid(run)[c] in ByRank(run)
  {
    ByDidSound(run, c);
    var i :| 0 <= i < |run| && run[i] == (c, ByDid(run)[c]);
    assert run[i].1 == ByDid(run)[c];
  }

  /** The documents the window around clicked document `c` collects. */
  ghost function ClickWindow(run: Run, c: string, context: int): set<string>
    requires context >= 1 && c in ByDid(run)
  {
    RankInRun(run, c);
    var w := WindowOf(ByRank(run).Keys, ByDid(run)[c], context);
    InWindow(ByRank(run), w.0, w.1)
  }

  /** `d` lies within `context - 1` ranks of a clicked document that is in the run. */
  ghost predicate NearClick(run: Run, clicked: set<string>, context: int, d: string)
    requires d in ByDid(run)
  {
    exists c :: c in clicked && c in ByDid(run) && -context < ByDid(run)[d] - ByDid(run)[c] < context
  }

  /**
   * The body of `for did in clicked_dids` for a clicked document found in
   * the run: adds its window's documents, at most `context` of them, each
   * near the click; with unique ranks the click itself is among them.
   */
  method AddClick(run: Run, clicked: set<string>, context: int, did: string, target: set<string>)
    returns (result: set<string>)
    requires context >= 1 && DistinctDids(run)
    requires did in clicked && did in ByDid(run)
    requires forall d :: d in target ==> d in ByDid(run) && NearClick(run, clicked, context, d)
    ensures forall d :: d in result ==> d in ByDid(run) && NearClick(run, clicked, context, d)
    ensures result == target + ClickWindow(run, did, context)
    ensures target <= result && |result| <= |target| + context
    ensures UniqueRanks(run) ==> did in result
  {
    var byRank := ByRank(run);
    var rank := ByDid(run)[did];
    ByDidSound(run, did);
    var i :| 0 <= i < |run| && run[i] == (did, rank);
    assert rank in byRank.Keys by { assert run[i].1 == rank; }
    var start, stop := Window(byRank.Keys, rank, context);
    result := AddWindow(byRank, start, stop, target);
    forall d | d in result && d !in target
      ensures d in ByDid(run) && NearClick(run, clicked, context, d)
    {
      InWindowMembers(byRank, start, stop, d);
      var r :| r in byRank && start <= r < stop && byRank[r] == d;
      ByRankInverse(run, r);
    }
    if UniqueRanks(run) {
      ByRankOfUnique(run, i);
      InWindowMembers(byRank, start, stop, did);
      assert byRank[rank] == did;
    }
  }

  /** `a * n` by repeated addition, which keeps the loop proof linear. */
  function Times(a: int, n: nat): int
  {
    if n == 0 then 0 else Times(a, n - 1) + a
  }

  lemma {:induction false} TimesIsProduct(a: int, n: nat)
    ensures Times(a, n) == a * n
  {
    if n > 0 {
      TimesIsProduct(a, n - 1);
    }
  }

  /**
   * What the candidates gathered from the clicks in `seen` satisfy: each is
   * near a click, there are at most `context` per click, and with unique
   * ranks the clicks themselves are among them.
   */
  ghost predicate Gathered(run: Run, clicked: set<string>, context: int, seen: set<string>, target: set<string>)
  {
    && (forall d :: d in target ==> d in ByDid(run) && NearClick(run, clicked, context, d))
    && |target| <= Times(context, |seen|)
    && (UniqueRanks(run) ==> seen <= target)
  }

  /** `target` is exactly the union of the windows around the clicks in `seen`. */
  ghost predicate Covered(run: Run, context: int, seen: set<string>, target: set<string>)
  {
    && context >= 1
    && (forall d :: d in target <==> exists c :: c in seen && c in ByDid(run) && d in ClickWindow(run, c, context))
  }

  /** Adding the window of one more click keeps `Covered`. */
  lemma CoveredStep(run: Run, context: int, did: string, seen: set<string>, target: set<string>)
    requires context >= 1 && did in ByDid(run) && Covered(run, context, seen, target)
    ensures Covered(run, context, seen + {did}, target + ClickWindow(run, did, context))
  {
    var seen', result := seen + {did}, target + ClickWindow(run, did, context);
    forall d | d in result
      ensures exists c :: c in seen' && c in ByDid(run) && d in ClickWindow(run, c, context)
    {
      if d !in ClickWindow(run, did, context) {
        var c :| c in seen && c in ByDid(run) && d in ClickWindow(run, c, context);
        assert c in seen';
      }
    }
  }

  /** Adding at most `context` neighbours of one more click keeps `Gathered`. */
  lemma GatheredStep(run: Run, clicked: set<string>, context: int, did: string,
                     seen: set<string>, target: set<string>, result: set<string>)
    requires did !in seen && Gathered(run, clicked, context, seen, target)
    requires forall d :: d in result ==> d in ByDid(run) && NearClick(run, clicked, context, d)
    requires target <= result && |result| <= |target| + context
    requires UniqueRanks(run) ==> did in result
    ensures Gathered(run, clicked, context, seen + {did}, result)
  {
    assert |seen + {did}| == |seen| + 1;
  }

  /** One turn of the `for did in clicked_dids` loop. */
  method ClickStep(run: Run, clicked: set<string>, context: int, did: string,
                   target: set<string>, ghost seen: set<string>)
    returns (result: set<string>)
    requires context >= 1 && DistinctDids(run) && did in clicked && did !in seen
    requires Gathered(run, clicked, context, seen, target) && Covered(run, context, seen, target)
    ensures did in ByDid(run) ==> Gathered(run, clicked, context, seen + {did}, result)
    ensures did in ByDid(run) ==> Covered(run, context, seen + {did}, result)
    ensures did !in ByDid(run) ==> result == target
  {
    result := target;
    if did in ByDid(run) {
      result := AddClick(run, clicked, context, did, target);
      GatheredStep(run, clicked, context, did, seen, target, result);
      CoveredStep(run, context, did, seen, target);
    }
  }

  /** Once every click is handled, `Gathered` gives the promises of `get_dids_from_run`. */
  lemma GatheredAll(run: Run, clicked: set<string>, context: int, target: set<string>)
    requires DistinctDids(run) && Gathered(run, clicked, context, clicked * ByDid(run).Keys, target)
    ensures forall d :: d in target ==> d in ByDid(run) && NearClick(run, clicked, context, d)
    ensures |target| <= context * |clicked * ByDid(run).Keys|
    ensures UniqueRanks(run) ==> clicked * ByDid(run).Keys <= target
  {
    TimesIsProduct(context, |clicked * ByDid(run).Keys|);
  }

  /** Once every click is handled, the targets are the union of the windows of all clicks. */
  lemma CoveredAll(run: Run, clicked: set<string>, context: int, target: set<string>)
    requires Covered(run, context, clicked * ByDid(run).Keys, target)
    ensures forall d :: d in target <==>
      exists c :: c in clicked && c in ByDid(run) && d in ClickWindow(run, c, context)
  {
    forall d | d in target
      ensures exists c :: c in clicked && c in ByDid(run) && d in ClickWindow(run, c, context)
    {
      var c :| c in clicked * ByDid(run).Keys && c in ByDid(run) && d in ClickWindow(run, c, context);
    }
    forall d | exists c :: c in clicked && c in ByDid(run) && d in ClickWindow(run, c, context)
      ensures d in target
    {
      var c :| c in clicked && c in ByDid(run) && d in ClickWindow(run, c, context);
      assert c in clicked * ByDid(run).Keys;
    }
  }

  /** Taking `did` out of the clicks still to handle adds it to the handled clicks found in the run. */
  lemma HandledStep(clicked: set<string>, remaining: set<string>, did: string, keys: set<string>)
    requires did in remaining && remaining <= clicked
    ensures did !in (clicked - remaining) * keys
    ensures (clicked - (remaining - {did})) * keys
         == if did in keys then (clicked - remaining) * keys + {did} else (clicked - remaining) * keys
  {
    assert clicked - (remaining - {did}) == (clicked - remaining) + {did};
  }

  /**
   * The `for did in clicked_dids` loop: the union of the windows of the
   * clicked documents found in the run.
   */
  method CollectTargets(run: Run, clicked: set<string>, context: int) returns (target: set<string>)
    requires context >= 1
    requires DistinctDids(run)
    ensures forall d :: d in target ==> d in ByDid(run) && NearClick(run, clicked, context, d)
    ensures |target| <= context * |clicked * ByDid(run).Keys|
    ensures UniqueRanks(run) ==> clicked * ByDid(run).Keys <= target
    ensures forall d :: d in target <==>
      exists c :: c in clicked && c in ByDid(run) && d in ClickWindow(run, c, context)
  {
    var keys := ByDid(run).Keys;
    target := {};
    var remaining := clicked;
    while remaining != {}
      invariant remaining <= clicked
      invariant Gathered(run, clicked, context, (clicked - remaining) * keys, target)
      invariant Covered(run, context, (clicked - remaining) * keys, target)
      decreases |remaining|
    {
      var did :| did in remaining;
      HandledStep(clicked, remaining, did, keys);
      target := ClickStep(run, clicked, context, did, target, (clicked - remaining) * keys);
      remaining := remaining - {did};
    }
    assert clicked - remaining == clicked;
    GatheredAll(run, clicked, context, target);
    CoveredAll(run, clicked, context, target);
  }

  /**
   * `get_dids_from_run`: the sorted, duplicate-free list of candidates. Each
   * is a document of the run near a clicked one; each clicked document in
   * the run contributes at most `context` of them; with unique ranks, every
   * clicked document in the run is among them.
   */
  method GetDidsFromRun(run: Run, clicked: set<string>, context: int) returns (dids: seq<string>)
    requires context >= 1
    requires DistinctDids(run)
    ensures StrictlyIncreasing(dids)
    ensures forall d :: d in dids ==> d in ByDid(run) && NearClick(run, clicked, context, d)
    ensures |dids| <= context * |clicked * ByDid(run).Keys|
    ensures UniqueRanks(run) ==> forall c :: c in clicked && c in ByDid(run) ==> c in dids
    ensures forall d :: d in dids <==>
      exists c :: c in clicked && c in ByDid(run) && d in ClickWindow(run, c, context)
  {
    var target := CollectTargets(run, clicked, context);
    dids := SortSet(target);
  }
}
