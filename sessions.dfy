/**
 * Session-id allocation (`Sessionizer` in generate_cars.py).  Consecutive
 * queries of one user are put in the same session while they are similar
 * enough; otherwise the user's next session number is issued.  The GloVe
 * vectors and the cosine similarity are abstracted: a caller says whether
 * any token of the query has a vector, and whether the cosine similarity
 * with the previous query exceeds the threshold.
 */
module Sessions {
  import opened Wrappers
  import opened Strings

  /** The similarity `get_sim_repr` returns: the constant 0, the constant 1, or a cosine. */
  datatype Sim = Zero | One | Cosine

  /**
   * `get_sim_repr`: the similarity, and whether the query's representation
   * (which becomes `prev_repr`) is present.
   */
  function GetSim(prevPrefix: Option<string>, prevQid: Option<string>, prevHasRepr: bool,
                  qid: string, prefix: string, hasVectors: bool): (Sim, bool)
  {
    if prevPrefix != Some(prefix) then (Zero, false)
    else if prevQid == Some(qid) then (One, prevHasRepr)
    else if hasVectors && prevHasRepr then (Cosine, true)
    else if hasVectors then (Zero, true)
    else (Zero, false)
  }

  /** `sim > self.threshold`; for a cosine, `similar` says whether it is above. */
  predicate Above(sim: Sim, threshold: real, similar: bool)
  {
    match sim
    case Zero => 0.0 > threshold
    case One => 1.0 > threshold
    case Cosine => similar
  }

  /** `f'{prefix}_{k}'`. */
  function SessionId(prefix: string, k: nat): string
  {
    prefix + "_" + NatToString(k)
  }

  /** The position of the last `c` in `s`, or -1. */
  function LastIndex(s: string, c: char): int
    decreases |s|
  {
    if s == [] then -1
    else if s[|s| - 1] == c then |s| - 1
    else LastIndex(s[..|s| - 1], c)
  }

  lemma {:induction false} LastIndexAfter(a: string, b: string, c: char)
    requires c !in b
    ensures LastIndex(a + [c] + b, c) == |a|
    decreases |b|
  {
    var s := a + [c] + b;
    if b != [] {
      assert s[..|s| - 1] == a + [c] + b[..|b| - 1];
      assert s[|s| - 1] == b[|b| - 1];
      LastIndexAfter(a, b[..|b| - 1], c);
    } else {
      assert s[|s| - 1] == c;
    }
  }

  /** Splitting at the last occurrence of a separator is unique. */
  lemma LastSeparator(a: string, b: string, a2: string, b2: string, c: char)
    requires a + [c] + b == a2 + [c] + b2
    requires c !in b && c !in b2
    ensures a == a2 && b == b2
  {
    var s := a + [c] + b;
    LastIndexAfter(a, b, c);
    LastIndexAfter(a2, b2, c);
    assert a == s[..|a|] && a2 == s[..|a2|];
    assert b == s[|a| + 1..] && b2 == s[|a2| + 1..];
  }

  /** Different prefixes or different counts give different session ids. */
  lemma SessionIdInjective(p1: string, k1: nat, p2: string, k2: nat)
    ensures SessionId(p1, k1) == SessionId(p2, k2) <==> p1 == p2 && k1 == k2
  {
    if SessionId(p1, k1) == SessionId(p2, k2) {
      var d1, d2 := NatToString(k1), NatToString(k2);
      LastSeparator(p1, d1, p2, d2, '_');
      NatToStringInjective(k1, k2);
    }
  }

  /** With a threshold below 1, a repeated query of the same user is always similar enough. */
  lemma RepeatedQueryReuses(prevHasRepr: bool, qid: string, prefix: string, hasVectors: bool,
                            threshold: real, similar: bool)
    requires threshold < 1.0
    ensures Above(GetSim(Some(prefix), Some(qid), prevHasRepr, qid, prefix, hasVectors).0, threshold, similar)
  {
  }

  /** With a threshold of at least 0, the first query of a user never joins the previous session. */
  lemma NewUserNeverReuses(prevPrefix: Option<string>, prevQid: Option<string>, prevHasRepr: bool,
                           qid: string, prefix: string, hasVectors: bool, threshold: real, similar: bool)
    requires prevPrefix != Some(prefix) && threshold >= 0.0
    ensures !Above(GetSim(prevPrefix, prevQid, prevHasRepr, qid, prefix, hasVectors).0, threshold, similar)
  {
  }

  /**
   * The cosine is consulted exactly when the user is unchanged, the query
   * is a different one, and both it and the previous query have a vector
   * representation; otherwise the similarity is a constant.
   */
  lemma CosineNeedsBothVectors(prevPrefix: Option<string>, prevQid: Option<string>, prevHasRepr: bool,
                               qid: string, prefix: string, hasVectors: bool)
    ensures GetSim(prevPrefix, prevQid, prevHasRepr, qid, prefix, hasVectors).0 == Cosine
        <==> prevPrefix == Some(prefix) && prevQid != Some(qid) && hasVectors && prevHasRepr
  {
  }

  class Sessionizer {
    var prevPrefix: Option<string>
    var prevQid: Option<string>
    var prevSessionId: Option<string>
    /** `self.prev_repr is not None`. */
    var prevHasRepr: bool
    /** `user_session_counter`; a missing prefix counts 0. */
    var counter: map<string, nat>
    const threshold: real
    /** The session ids handed out so far. */
    ghost var issued: set<string>

    function Count(prefix: string): nat
      reads this
    {
      if prefix in counter then counter[prefix] else 0
    }

    /**
     * The ids handed out are exactly `prefix_k` for every prefix and every
     * `k` below that prefix's count, and the previous id is one of them.
     */
    ghost predicate Valid()
      reads this
    {
      && (forall p, k: nat :: k < Count(p) ==> SessionId(p, k) in issued)
      && (forall id :: id in issued ==> exists p, k: nat :: k < Count(p) && id == SessionId(p, k))
      && (prevSessionId.Some? ==> prevSessionId.value in issued)
    }

    constructor (threshold: real)
      ensures Valid()
      ensures prevPrefix == None && prevQid == None && prevSessionId == None && !prevHasRepr
      ensures counter == map[] && issued == {}
      ensures this.threshold == threshold
    {
      prevPrefix, prevQid, prevSessionId, prevHasRepr := None, None, None, false;
      counter := map[];
      this.threshold := threshold;
      issued := {};
    }

    /**
     * `next_session_id`: keeps the previous session when the similarity is
     * above the threshold; otherwise allocates `prefix_k`, where `k` is the
     * number of sessions of `prefix` so far, an id never handed out before.
     */
    method NextSessionId(qid: string, prefix: string, hasVectors: bool, similar: bool)
      returns (sessionId: Option<string>)
      requires Valid()
      modifies this
      ensures Valid()
      ensures var (sim, hasRepr) := GetSim(old(prevPrefix), old(prevQid), old(prevHasRepr), qid, prefix, hasVectors);
        && prevHasRepr == hasRepr
        && (Above(sim, threshold, similar) ==>
              sessionId == old(prevSessionId) && counter == old(counter) && issued == old(issued))
        && (!Above(sim, threshold, similar) ==>
              && sessionId == Some(SessionId(prefix, old(Count(prefix))))
              && sessionId.value !in old(issued)
              && counter == old(counter)[prefix := old(Count(prefix)) + 1]
              && issued == old(issued) + {sessionId.value})
      ensures prevPrefix == Some(prefix) && prevQid == Some(qid) && prevSessionId == sessionId
    {
      var (sim, hasRepr) := GetSim(prevPrefix, prevQid, prevHasRepr, qid, prefix, hasVectors);
      if Above(sim, threshold, similar) {
        sessionId := prevSessionId;
      } else {
        var k := Count(prefix);
        var id := SessionId(prefix, k);
        if id in issued {
          var p, j: nat :| j < Count(p) && id == SessionId(p, j);
          SessionIdInjective(prefix, k, p, j);
          assert false;
        }
        sessionId := Some(id);
        counter := counter[prefix := k + 1];
        issued := issued + {id};
        forall p, j: nat | j < Count(p)
          ensures SessionId(p, j) in issued
        {
          if p != prefix || j != k {
            assert j < old(Count(p));
          }
        }
      }
      prevHasRepr := hasRepr;
      prevSessionId := sessionId;
      prevQid := Some(qid);
      prevPrefix := Some(prefix);
    }
  }
}
