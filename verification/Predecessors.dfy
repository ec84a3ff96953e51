/** Walks along predecessor pointers: when they end and when they cycle. */
module Predecessors {
  import opened Ordering
  import opened Values

  type Parents = map<string, Option<string>>

  ghost predicate PointsInside(parent: Parents, d: string)
    requires d in parent
  {
    parent[d].Some? ==> parent[d].value in parent
  }

  ghost predicate Closed(parent: Parents) {
    forall d {:trigger PointsInside(parent, d)} :: d in parent ==> PointsInside(parent, d)
  }

  /** Where `n` steps along the predecessors lead from `d`. */
  ghost function Walk(parent: Parents, d: string, n: nat): (r: Option<string>)
    requires Closed(parent) && d in parent
    ensures r.Some? ==> r.value in parent
    decreases n
  {
    if n == 0 then Some(d)
    else
      assert PointsInside(parent, d);
      match parent[d] case None => None case Some(p) => Walk(parent, p, n - 1)
  }

  ghost predicate Ends(parent: Parents, d: string)
    requires Closed(parent) && d in parent
  {
    exists n: nat :: Walk(parent, d, n) == None
  }

  ghost predicate Cyclic(parent: Parents)
    requires Closed(parent)
  {
    exists d, n: nat :: d in parent && n >= 1 && Walk(parent, d, n) == Some(d)
  }

  lemma {:induction false} WalkAdds(parent: Parents, d: string, a: nat, b: nat)
    requires Closed(parent) && d in parent
    ensures Walk(parent, d, a + b) == match Walk(parent, d, a) case None => None case Some(e) => Walk(parent, e, b)
    decreases a
  {
    if a > 0 && parent[d].Some? {
      assert PointsInside(parent, d);
      WalkAdds(parent, parent[d].value, a - 1, b);
    }
  }

  lemma {:induction false} CycleNeverEnds(parent: Parents, d: string, n: nat, k: nat)
    requires Closed(parent) && d in parent && n >= 1 && Walk(parent, d, n) == Some(d)
    ensures Walk(parent, d, k).Some?
    decreases k
  {
    if k >= n {
      WalkAdds(parent, d, n, k - n);
      CycleNeverEnds(parent, d, n, k - n);
    } else {
      WalkAdds(parent, d, k, n - k);
    }
  }

  /** A walk that meets the same document twice runs around a cycle. */
  lemma RepeatMakesCycle(parent: Parents, d: string, i: nat, j: nat)
    requires Closed(parent) && d in parent && i < j
    requires Walk(parent, d, i).Some? && Walk(parent, d, i) == Walk(parent, d, j)
    ensures Cyclic(parent)
  {
    WalkAdds(parent, d, i, j - i);
    assert Walk(parent, Walk(parent, d, i).value, j - i) == Walk(parent, d, i);
  }

  /** Among finitely many documents a walk that does not end meets one twice. */
  lemma LongWalkCycles(parent: Parents, d: string)
    requires Closed(parent) && d in parent
    requires Walk(parent, d, |parent|).Some?
    ensures Cyclic(parent)
  {
    var n := |parent.Keys|;
    forall i | 0 <= i <= n ensures Walk(parent, d, i).Some? {
      WalkAdds(parent, d, i, n - i);
    }
    var trail := seq(n + 1, i requires 0 <= i <= n => Walk(parent, d, i).value);
    if Distinct(trail) {
      DistinctCardinality(trail);
      SubsetSize((set x | x in trail), parent.Keys);
    } else {
      var i, j :| 0 <= i < j < |trail| && trail[i] == trail[j];
      RepeatMakesCycle(parent, d, i, j);
    }
  }

  /** Predecessors are free of cycles exactly when every walk ends. */
  lemma AcyclicIffEnds(parent: Parents)
    requires Closed(parent)
    ensures !Cyclic(parent) <==> forall d :: d in parent ==> Ends(parent, d)
  {
    if !Cyclic(parent) {
      forall d | d in parent ensures Ends(parent, d) {
        if Walk(parent, d, |parent|).Some? {
          LongWalkCycles(parent, d);
        }
      }
    } else {
      var d, n: nat :| d in parent && n >= 1 && Walk(parent, d, n) == Some(d);
      forall k: nat ensures Walk(parent, d, k).Some? {
        CycleNeverEnds(parent, d, n, k);
      }
    }
  }

  lemma {:induction false} WalkGoesBefore(parent: Parents, before: (string, string) -> bool, d: string, n: nat)
    requires Closed(parent) && d in parent && Transitive(before) && n >= 1 && Walk(parent, d, n).Some?
    requires forall e {:trigger parent[e]} :: e in parent && parent[e].Some? ==> before(parent[e].value, e)
    ensures before(Walk(parent, d, n).value, d)
    decreases n
  {
    if n > 1 {
      assert PointsInside(parent, d);
      WalkGoesBefore(parent, before, parent[d].value, n - 1);
    }
  }

  /** A strict order that every predecessor pointer follows leaves no cycle. */
  lemma OrderedIsAcyclic(parent: Parents, before: (string, string) -> bool)
    requires Closed(parent) && Transitive(before) && forall d :: !before(d, d)
    requires forall e {:trigger parent[e]} :: e in parent && parent[e].Some? ==> before(parent[e].value, e)
    ensures !Cyclic(parent)
  {
    if Cyclic(parent) {
      var d, n: nat :| d in parent && n >= 1 && Walk(parent, d, n) == Some(d);
      WalkGoesBefore(parent, before, d, n);
    }
  }
}
