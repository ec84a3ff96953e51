/** Numbering the members of a lineage, predecessors before successors. */
module LineagePositions {
  import opened Ordering
  import opened Values
  import opened Predecessors

  /** The predecessor of a member, when it belongs to the same lineage. */
  function Parent(pred: Parents, d: string): Option<string>
    requires d in pred
  {
    match pred[d]
    case Some(p) => if p in pred then Some(p) else None
    case None => None
  }

  lemma ParentIff(pred: Parents, d: string, p: string)
    requires d in pred
    ensures Parent(pred, d) == Some(p) <==> pred[d] == Some(p) && p in pred
  {
  }

  /** The predecessor pointers inside the lineage. */
  function InLineage(pred: Parents): (parent: Parents)
    ensures Closed(parent) && parent.Keys == pred.Keys
  {
    map d | d in pred :: Parent(pred, d)
  }

  /** The predecessors of `d` end at a root instead of running around a cycle. */
  ghost predicate Rooted(pred: Parents, d: string)
    requires d in pred
  {
    Ends(InLineage(pred), d)
  }

  predicate Follows(a: string, b: string) {
    StringLess(b, a)
  }

  ghost predicate ChildrenOf(pred: Parents, parent: Option<string>, children: seq<string>) {
    forall d :: d in children <==> d in pred && Parent(pred, d) == parent
  }

  /** The members with the given parent, last identifier first, ready for the stack. */
  method StackedChildren(rows: seq<string>, pred: Parents, parent: Option<string>) returns (r: seq<string>)
    requires Distinct(rows) && forall d :: d in rows <==> d in pred
    ensures ChildrenOf(pred, parent, r)
    ensures Ascending(r, Follows)
  {
    var unsorted := Matching(rows, pred, parent);
    var down := (a: string, b: string) => StringAtMost(b, a);
    SortPermutes(unsorted, down);
    IdOrder(unsorted);
    r := Sort(unsorted, down);
  }

  lemma IdOrder(s: seq<string>)
    requires Distinct(s)
    ensures Ascending(Sort(s, (a, b) => StringAtMost(b, a)), Follows)
    ensures Ascending(Sort(s, StringAtMost), StringLess)
  {
    var down := (a: string, b: string) => StringAtMost(b, a);
    forall a, b, c | StringLess(a, b) && StringLess(b, c) ensures StringLess(a, c) {
      StringLessTransitive(a, b, c);
    }
    forall a, b ensures StringLess(a, b) || a == b || StringLess(b, a) {
      StringLessTotal(a, b);
    }
    SortAscending(s, down, Follows);
    SortAscending(s, StringAtMost, StringLess);
  }

  function Matching(rows: seq<string>, pred: Parents, parent: Option<string>): (r: seq<string>)
    requires forall d :: d in rows ==> d in pred
    ensures forall d :: d in r <==> d in rows && Parent(pred, d) == parent
    ensures Distinct(rows) ==> Distinct(r)
  {
    if rows == [] then []
    else
      assert rows == [rows[0]] + rows[1..];
      (if Parent(pred, rows[0]) == parent then [rows[0]] else []) + Matching(rows[1..], pred, parent)
  }

  ghost predicate ParentsFirst(pred: Parents, ordered: seq<string>)
    requires forall d :: d in ordered ==> d in pred
  {
    forall i {:trigger Parent(pred, ordered[i])} :: 0 <= i < |ordered| && Parent(pred, ordered[i]).Some? ==> Parent(pred, ordered[i]).value in ordered[..i]
  }

  /** Once the walk down from the roots is complete, everything whose predecessors end
      at a root has been placed. */
  lemma {:induction false} RootedIsPlaced(pred: Parents, ordered: seq<string>, d: string, n: nat)
    requires d in pred
    requires forall e {:trigger Parent(pred, e)} :: e in pred && Parent(pred, e) == None ==> e in ordered
    requires forall e {:trigger Parent(pred, e)} :: e in pred && Parent(pred, e).Some? && Parent(pred, e).value in ordered ==> e in ordered
    requires Walk(InLineage(pred), d, n) == None
    ensures d in ordered
    decreases n
  {
    WalkStep(pred, d, n);
    if Parent(pred, d).Some? {
      RootedIsPlaced(pred, ordered, Parent(pred, d).value, n - 1);
    }
  }

  lemma WalkStep(pred: Parents, d: string, n: nat)
    requires d in pred && Walk(InLineage(pred), d, n) == None
    ensures n >= 1 && (Parent(pred, d).Some? ==> Walk(InLineage(pred), Parent(pred, d).value, n - 1) == None)
  {
  }

  ghost predicate InPred(pred: Parents, s: seq<string>) {
    forall d :: d in s ==> d in pred
  }

  /** Everything whose parent is placed is placed or waiting; nothing waits before its parent. */
  ghost predicate Frontier(pred: Parents, ordered: seq<string>, stack: seq<string>)
    requires InPred(pred, ordered) && InPred(pred, stack)
  {
    && ParentsFirst(pred, ordered)
    && (forall d {:trigger Parent(pred, d)} :: d in stack && Parent(pred, d).Some? ==> Parent(pred, d).value in ordered)
    && (forall d {:trigger Parent(pred, d)} :: d in pred && Parent(pred, d) == None ==> d in ordered || d in stack)
    && (forall d {:trigger Parent(pred, d)} :: d in pred && Parent(pred, d).Some? && Parent(pred, d).value in ordered ==> d in ordered || d in stack)
  }

  lemma FrontierSkip(pred: Parents, ordered: seq<string>, stack: seq<string>, d: string)
    requires InPred(pred, ordered) && InPred(pred, stack) && d in ordered
    requires Frontier(pred, ordered, stack + [d])
    ensures Frontier(pred, ordered, stack)
  {
    assert forall e :: e in stack + [d] <==> e in stack || e == d;
  }

  lemma FrontierStep(pred: Parents, ordered: seq<string>, stack: seq<string>, d: string, children: seq<string>)
    requires InPred(pred, ordered) && InPred(pred, stack) && d in pred
    requires Frontier(pred, ordered, stack + [d]) && ChildrenOf(pred, Some(d), children)
    ensures Frontier(pred, ordered + [d], stack + children)
  {
    assert d in stack + [d];
    assert forall e :: e in stack + [d] <==> e in stack || e == d;
    var next := ordered + [d];
    forall i | 0 <= i < |next| && Parent(pred, next[i]).Some? ensures Parent(pred, next[i]).value in next[..i] {
      assert next[..i] == ordered[..i];
    }
  }

  // ------------------------------------------------------------ paths from the roots

  /** The path from a root down to `d`: each member is the predecessor of the next. */
  ghost predicate IsPath(pred: Parents, d: string, path: seq<string>) {
    && path != [] && path[|path| - 1] == d && (forall i :: 0 <= i < |path| ==> path[i] in pred)
    && (pred[path[0]].Some? ==> pred[path[0]].value !in pred)
    && forall i :: 1 <= i < |path| ==> pred[path[i]] == Some(path[i - 1])
  }

  /** The order of paths: the first difference decides, and a path comes before those that go on
      from its end. */
  predicate PathLess(p: seq<string>, q: seq<string>) {
    q != [] && (p == [] || if p[0] == q[0] then PathLess(p[1..], q[1..]) else StringLess(p[0], q[0]))
  }

  lemma {:induction false} PathLessTransitive(p: seq<string>, q: seq<string>, r: seq<string>)
    requires PathLess(p, q) && PathLess(q, r)
    ensures PathLess(p, r)
  {
    if p != [] && p[0] == q[0] == r[0] {
      PathLessTransitive(p[1..], q[1..], r[1..]);
    } else if p != [] && p[0] != q[0] && q[0] != r[0] {
      StringLessTransitive(p[0], q[0], r[0]);
      StringLessIrreflexive(p[0]);
    }
  }

  lemma {:induction false} PathLessIrreflexive(p: seq<string>)
    ensures !PathLess(p, p)
  {
    if p != [] {
      StringLessIrreflexive(p[0]);
      PathLessIrreflexive(p[1..]);
    }
  }

  lemma {:induction false} PathGoesOn(p: seq<string>, c: string)
    ensures PathLess(p, p + [c])
  {
    if p != [] {
      assert (p + [c])[1..] == p[1..] + [c];
      PathGoesOn(p[1..], c);
    }
  }

  lemma {:induction false} Siblings(p: seq<string>, c: string, d: string)
    requires StringLess(c, d)
    ensures PathLess(p + [c], p + [d])
  {
    if p != [] {
      assert (p + [c])[1..] == p[1..] + [c] && (p + [d])[1..] == p[1..] + [d];
      Siblings(p[1..], c, d);
    } else {
      StringLessIrreflexive(c);
    }
  }

  /** Going on from a path keeps it before those that do not pass its end. */
  lemma {:induction false} GoesOnBefore(p: seq<string>, q: seq<string>, c: string)
    requires PathLess(p, q) && !(p <= q)
    ensures PathLess(p + [c], q)
  {
    assert (p + [c])[0] == p[0];
    if p[0] == q[0] {
      assert (p + [c])[1..] == p[1..] + [c];
      assert p == [p[0]] + p[1..] && q == [q[0]] + q[1..];
      GoesOnBefore(p[1..], q[1..], c);
    }
  }

  /** A path has more than one member exactly if its end has a predecessor in the lineage. */
  lemma OnlyRoot(pred: Parents, d: string, path: seq<string>)
    requires IsPath(pred, d, path)
    ensures d in pred && (|path| > 1 <==> Parent(pred, d).Some?)
    ensures |path| > 1 ==> Parent(pred, d) == Some(path[|path| - 2])
    ensures |path| == 1 ==> path == [d]
  {
    if |path| == 1 {
      assert path[0] == d;
    } else {
      assert pred[path[|path| - 1]] == Some(path[|path| - 2]);
    }
  }

  lemma {:induction false} PathUnique(pred: Parents, d: string, p: seq<string>, q: seq<string>)
    requires IsPath(pred, d, p) && IsPath(pred, d, q)
    ensures p == q
    decreases |p|
  {
    if |p| > 1 && |q| > 1 {
      PathUnique(pred, p[|p| - 2], p[..|p| - 1], q[..|q| - 1]);
      assert p == p[..|p| - 1] + [d] && q == q[..|q| - 1] + [d];
    } else {
      OnlyRoot(pred, d, p);
      OnlyRoot(pred, d, q);
    }
  }

  ghost predicate PathAt(pred: Parents, ds: seq<string>, paths: seq<seq<string>>, i: nat) {
    i < |ds| == |paths| && IsPath(pred, ds[i], paths[i])
  }

  ghost predicate ArePaths(pred: Parents, ds: seq<string>, paths: seq<seq<string>>) {
    |paths| == |ds| && forall i {:trigger PathAt(pred, ds, paths, i)} :: 0 <= i < |ds| ==> PathAt(pred, ds, paths, i)
  }

  ghost predicate LessAt(paths: seq<seq<string>>, i: nat, j: nat) {
    i < |paths| && j < |paths| && PathLess(paths[i], paths[j])
  }

  /** The paths ascend. */
  ghost predicate InLine(paths: seq<seq<string>>) {
    forall i, j {:trigger LessAt(paths, i, j)} :: 0 <= i < j < |paths| ==> LessAt(paths, i, j)
  }

  lemma InLineIff(paths: seq<seq<string>>)
    ensures InLine(paths) <==> Ascending(paths, PathLess)
  {
    if InLine(paths) {
      forall i, j | 0 <= i < j < |paths| ensures PathLess(paths[i], paths[j]) {
        assert LessAt(paths, i, j);
      }
    }
  }

  /** Whoever is placed has its whole path placed. */
  lemma {:induction false} PathIsPlaced(pred: Parents, ordered: seq<string>, d: string, path: seq<string>, x: string)
    requires InPred(pred, ordered) && ParentsFirst(pred, ordered)
    requires IsPath(pred, d, path) && x in path && (d in ordered || (x != d && |path| > 1 && path[|path| - 2] in ordered))
    ensures x in ordered
    decreases |path|
  {
    if x != d {
      var before := path[|path| - 2];
      assert path == path[..|path| - 1] + [d];
      ParentIff(pred, d, before);
      if d in ordered {
        var i :| 0 <= i < |ordered| && ordered[i] == d;
        assert Parent(pred, ordered[i]).value in ordered[..i];
      }
      PathIsPlaced(pred, ordered, before, path[..|path| - 1], x);
    }
  }

  /** What has been placed and, from the top of the stack down, what waits stand in the order
      of their paths. */
  ghost predicate InPathOrder(pred: Parents, ordered: seq<string>, stack: seq<string>, done: seq<seq<string>>, waiting: seq<seq<string>>) {
    ArePaths(pred, ordered, done) && ArePaths(pred, stack, waiting) && InLine(done + Reversed(waiting))
  }

  ghost function Reversed<T>(s: seq<T>): (r: seq<T>)
    ensures |r| == |s| && forall i :: 0 <= i < |s| ==> r[i] == s[|s| - 1 - i]
  {
    seq(|s|, i requires 0 <= i < |s| => s[|s| - 1 - i])
  }

  ghost function Below(path: seq<string>, children: seq<string>): (r: seq<seq<string>>)
    ensures |r| == |children| && forall i :: 0 <= i < |r| ==> r[i] == path + [children[i]]
  {
    seq(|children|, i requires 0 <= i < |children| => path + [children[i]])
  }

  /** What is placed and what waits has paths, and these are in order. */
  ghost predicate Orderly(pred: Parents, ordered: seq<string>, stack: seq<string>) {
    exists done, waiting :: InPathOrder(pred, ordered, stack, done, waiting)
  }

  /** The members that hang from a root, each after its predecessor, in the order of their paths. */
  method PlaceFromRoots(rows: seq<string>, pred: Parents) returns (ordered: seq<string>)
    requires Distinct(rows) && forall d :: d in rows <==> d in pred
    ensures Distinct(ordered) && InPred(pred, ordered) && Frontier(pred, ordered, []) && Orderly(pred, ordered, [])
  {
    ordered := [];
    var stack := StackedChildren(rows, pred, None);
    ghost var unplaced := pred.Keys;
    RootsInOrder(pred, stack);
    while stack != []
      invariant Distinct(ordered) && InPred(pred, ordered) && InPred(pred, stack)
      invariant forall d :: d in unplaced <==> d in pred && d !in ordered
      invariant Frontier(pred, ordered, stack) && Orderly(pred, ordered, stack)
      decreases unplaced, |stack|
    {
      var d := stack[|stack| - 1];
      assert stack == stack[..|stack| - 1] + [d];
      stack := stack[..|stack| - 1];
      if d in ordered {
        FrontierSkip(pred, ordered, stack, d);
        SkipNext(pred, ordered, stack, d);
        continue;
      }
      var children := StackedChildren(rows, pred, Some(d));
      PlaceNext(pred, ordered, stack, d, children);
      FrontierStep(pred, ordered, stack, d, children);
      DistinctAppend(ordered, d);
      ordered := ordered + [d];
      unplaced := unplaced - {d};
      stack := stack + children;
    }
  }

  lemma SkipNext(pred: Parents, ordered: seq<string>, stack: seq<string>, d: string)
    requires Orderly(pred, ordered, stack + [d])
    ensures Orderly(pred, ordered, stack)
  {
    var done, waiting :| InPathOrder(pred, ordered, stack + [d], done, waiting);
    var n := |stack|;
    assert waiting == waiting[..n] + [waiting[n]];
    SkipInOrder(pred, ordered, stack, d, done, waiting[..n], waiting[n]);
  }

  lemma PlaceNext(pred: Parents, ordered: seq<string>, stack: seq<string>, d: string, children: seq<string>)
    requires InPred(pred, ordered) && InPred(pred, stack) && d in pred && d !in ordered
    requires Frontier(pred, ordered, stack + [d]) && Orderly(pred, ordered, stack + [d])
    requires ChildrenOf(pred, Some(d), children) && Ascending(children, Follows)
    ensures Orderly(pred, ordered + [d], stack + children)
  {
    var done, waiting :| InPathOrder(pred, ordered, stack + [d], done, waiting);
    var n := |stack|;
    assert waiting == waiting[..n] + [waiting[n]];
    StepInOrder(pred, ordered, stack, d, done, waiting[..n], waiting[n], children);
  }

  lemma PathsFound(pred: Parents, ordered: seq<string>) returns (paths: seq<seq<string>>)
    requires Orderly(pred, ordered, [])
    ensures ArePaths(pred, ordered, paths) && Ascending(paths, PathLess)
  {
    var waiting;
    paths, waiting :| InPathOrder(pred, ordered, [], paths, waiting);
    assert paths + Reversed(waiting) == paths;
    InLineIff(paths);
  }

  lemma RootsInOrder(pred: Parents, roots: seq<string>)
    requires ChildrenOf(pred, None, roots) && Ascending(roots, Follows)
    ensures InPathOrder(pred, [], roots, [], Below([], roots))
  {
    forall i | 0 <= i < |roots| ensures PathAt(pred, roots, Below([], roots), i) {
      assert roots[i] in roots;
      RootPath(pred, roots[i]);
      assert [] + [roots[i]] == [roots[i]];
    }
    KidsAscend([], roots);
    assert [] + Reversed(Below([], roots)) == Reversed(Below([], roots));
    InLineIff(Reversed(Below([], roots)));
  }

  lemma RootPath(pred: Parents, d: string)
    requires d in pred && Parent(pred, d) == None
    ensures IsPath(pred, d, [d])
  {
  }

  lemma ChildPath(pred: Parents, d: string, path: seq<string>, c: string)
    requires IsPath(pred, d, path) && c in pred && Parent(pred, c) == Some(d)
    ensures IsPath(pred, c, path + [c])
  {
  }

  lemma ShorterStack(pred: Parents, stack: seq<string>, d: string, waiting: seq<seq<string>>, path: seq<string>)
    requires ArePaths(pred, stack + [d], waiting + [path]) && |waiting| == |stack|
    ensures ArePaths(pred, stack, waiting) && IsPath(pred, d, path)
  {
    forall i | 0 <= i < |stack| ensures PathAt(pred, stack, waiting, i) {
      assert PathAt(pred, stack + [d], waiting + [path], i);
    }
    assert PathAt(pred, stack + [d], waiting + [path], |stack|);
  }

  lemma LongerLine(pred: Parents, ds: seq<string>, paths: seq<seq<string>>, es: seq<string>, more: seq<seq<string>>)
    requires ArePaths(pred, ds, paths) && ArePaths(pred, es, more)
    ensures ArePaths(pred, ds + es, paths + more)
  {
    forall i | 0 <= i < |ds + es| ensures PathAt(pred, ds + es, paths + more, i) {
      assert if i < |ds| then PathAt(pred, ds, paths, i) else PathAt(pred, es, more, i - |ds|);
    }
  }

  lemma SkipInOrder(pred: Parents, ordered: seq<string>, stack: seq<string>, d: string,
                    done: seq<seq<string>>, waiting: seq<seq<string>>, path: seq<string>)
    requires InPathOrder(pred, ordered, stack + [d], done, waiting + [path]) && |waiting| == |stack|
    ensures InPathOrder(pred, ordered, stack, done, waiting)
  {
    PathOrder();
    ShorterStack(pred, stack, d, waiting, path);
    InLineIff(done + Reversed(waiting + [path]));
    TopOfStack(done, waiting, path, PathLess);
    InLineIff(done + Reversed(waiting));
  }

  lemma PathOrder()
    ensures Transitive(PathLess)
  {
    forall p, q, r | PathLess(p, q) && PathLess(q, r) ensures PathLess(p, r) {
      PathLessTransitive(p, q, r);
    }
  }

  lemma TopOfStack<T(!new)>(done: seq<T>, waiting: seq<T>, top: T, lt: (T, T) -> bool)
    requires Transitive(lt) && Ascending(done + Reversed(waiting + [top]), lt)
    ensures Ascending(done + Reversed(waiting), lt)
    ensures forall p :: p in done ==> lt(p, top)
    ensures forall q :: q in waiting ==> lt(top, q)
    ensures Ascending(done, lt) && Ascending(Reversed(waiting), lt)
  {
    var line := done + Reversed(waiting + [top]);
    assert Reversed(waiting + [top]) == [top] + Reversed(waiting);
    assert line == done + [top] + Reversed(waiting);
    forall p | p in done ensures lt(p, top) {
      var i :| 0 <= i < |done| && done[i] == p;
      assert lt(line[i], line[|done|]);
    }
    forall q | q in waiting ensures lt(top, q) {
      var k :| 0 <= k < |waiting| && waiting[k] == q;
      assert lt(line[|done|], line[|done| + |waiting| - k]);
    }
    forall i, j | 0 <= i < j < |waiting| ensures lt(Reversed(waiting)[i], Reversed(waiting)[j]) {
      assert lt(line[|done| + 1 + i], line[|done| + 1 + j]);
    }
    forall i, j | 0 <= i < j < |done| ensures lt(done[i], done[j]) {
      assert lt(line[i], line[j]);
    }
    TwoParts(done, Reversed(waiting), top, lt);
  }

  lemma TwoParts<T(!new)>(a: seq<T>, b: seq<T>, between: T, lt: (T, T) -> bool)
    requires Transitive(lt) && Ascending(a, lt) && Ascending(b, lt)
    requires (forall p :: p in a ==> lt(p, between)) && forall q :: q in b ==> lt(between, q)
    ensures Ascending(a + b, lt)
  {
    forall i, j | 0 <= i < j < |a + b| ensures lt((a + b)[i], (a + b)[j]) {
      if i < |a| <= j {
        assert lt(a[i], between) && lt(between, b[j - |a|]);
      }
    }
  }

  lemma LineUp<T(!new)>(done: seq<T>, top: T, kids: seq<T>, waiting: seq<T>, lt: (T, T) -> bool)
    requires Transitive(lt) && Ascending(done, lt) && Ascending(Reversed(kids), lt) && Ascending(Reversed(waiting), lt)
    requires forall p :: p in done ==> lt(p, top)
    requires forall k :: k in kids ==> lt(top, k)
    requires forall q :: q in waiting ==> lt(top, q)
    requires forall k, q :: k in kids && q in waiting ==> lt(k, q)
    ensures Ascending(done + [top] + Reversed(waiting + kids), lt)
  {
    var behind := Reversed(kids) + Reversed(waiting);
    assert Reversed(waiting + kids) == behind;
    forall i, j | 0 <= i < j < |behind| ensures lt(behind[i], behind[j]) {
      if i < |kids| <= j {
        assert Reversed(kids)[i] in kids && Reversed(waiting)[j - |kids|] in waiting;
      }
    }
    forall q | q in behind ensures lt(top, q) {
      var j :| 0 <= j < |behind| && behind[j] == q;
      assert if j < |kids| then Reversed(kids)[j] in kids else Reversed(waiting)[j - |kids|] in waiting;
    }
    TwoParts(done, behind, top, lt);
    TopAlone(done, behind, top, lt);
  }

  lemma TopAlone<T(!new)>(a: seq<T>, b: seq<T>, top: T, lt: (T, T) -> bool)
    requires Ascending(a + b, lt)
    requires (forall p :: p in a ==> lt(p, top)) && forall q :: q in b ==> lt(top, q)
    ensures Ascending(a + [top] + b, lt)
  {
    var line := a + [top] + b;
    forall i, j | 0 <= i < j < |line| ensures lt(line[i], line[j]) {
      if i != |a| && j != |a| {
        var i', j' := if i < |a| then i else i - 1, if j < |a| then j else j - 1;
        assert line[i] == (a + b)[i'] && line[j] == (a + b)[j'];
      } else if i == |a| {
        assert line[j] == b[j - |a| - 1];
      }
    }
  }

  /** Placing `d` and stacking its children keeps the order, because whatever waits does not
      hang below `d`. */
  lemma StepInOrder(pred: Parents, ordered: seq<string>, stack: seq<string>, d: string,
                    done: seq<seq<string>>, waiting: seq<seq<string>>, path: seq<string>, children: seq<string>)
    requires InPred(pred, ordered) && InPred(pred, stack) && d in pred && d !in ordered && |waiting| == |stack|
    requires Frontier(pred, ordered, stack + [d]) && InPathOrder(pred, ordered, stack + [d], done, waiting + [path])
    requires ChildrenOf(pred, Some(d), children) && Ascending(children, Follows)
    ensures InPathOrder(pred, ordered + [d], stack + children, done + [path], waiting + Below(path, children))
  {
    var kids := Below(path, children);
    PathOrder();
    ShorterStack(pred, stack, d, waiting, path);
    InLineIff(done + Reversed(waiting + [path]));
    TopOfStack(done, waiting, path, PathLess);
    forall i | 0 <= i < |children| ensures PathAt(pred, children, kids, i) {
      assert children[i] in children;
      ChildPath(pred, d, path, children[i]);
    }
    assert PathAt(pred, [d], [path], 0);
    LongerLine(pred, ordered, done, [d], [path]);
    LongerLine(pred, stack, waiting, children, kids);
    KidsGoBefore(pred, ordered, stack, d, waiting, path, children);
    KidsAscend(path, children);
    LineUp(done, path, kids, waiting, PathLess);
    InLineIff(done + [path] + Reversed(waiting + kids));
  }

  lemma KidsGoBefore(pred: Parents, ordered: seq<string>, stack: seq<string>, d: string, waiting: seq<seq<string>>, path: seq<string>, children: seq<string>)
    requires InPred(pred, ordered) && InPred(pred, stack) && d in pred && d !in ordered
    requires Frontier(pred, ordered, stack + [d]) && ArePaths(pred, stack, waiting) && IsPath(pred, d, path)
    requires forall q :: q in waiting ==> PathLess(path, q)
    ensures forall k :: k in Below(path, children) ==> PathLess(path, k)
    ensures forall k, q :: k in Below(path, children) && q in waiting ==> PathLess(k, q)
  {
    forall k | k in Below(path, children) ensures PathLess(path, k) && forall q :: q in waiting ==> PathLess(k, q) {
      var i :| 0 <= i < |children| && path + [children[i]] == k;
      PathGoesOn(path, children[i]);
      forall q | q in waiting ensures PathLess(k, q) {
        var j :| 0 <= j < |waiting| && waiting[j] == q;
        assert PathAt(pred, stack, waiting, j);
        NotBelow(pred, ordered, stack, d, path, stack[j], q);
        GoesOnBefore(path, q, children[i]);
      }
    }
  }

  /** What waits below the top of the stack does not hang below the top. */
  lemma NotBelow(pred: Parents, ordered: seq<string>, stack: seq<string>, d: string, path: seq<string>, e: string, q: seq<string>)
    requires InPred(pred, ordered) && InPred(pred, stack) && d in pred && d !in ordered
    requires Frontier(pred, ordered, stack + [d]) && e in stack
    requires IsPath(pred, d, path) && IsPath(pred, e, q) && PathLess(path, q)
    ensures !(path <= q)
  {
    PathLessIrreflexive(path);
    if path <= q {
      assert path != q;
      assert q[|path| - 1] == d && d in q;
      assert e in stack + [d];
      OnlyRoot(pred, e, q);
      if d == e {
        PathUnique(pred, d, path, q);
      } else {
        PathIsPlaced(pred, ordered, e, q, d);
      }
    }
  }

  lemma KidsAscend(path: seq<string>, children: seq<string>)
    requires Ascending(children, Follows)
    ensures Ascending(Reversed(Below(path, children)), PathLess)
  {
    var n, kids := |children|, Below(path, children);
    forall i, j | 0 <= i < j < n ensures PathLess(Reversed(kids)[i], Reversed(kids)[j]) {
      assert Follows(children[n - 1 - j], children[n - 1 - i]);
      assert Reversed(kids)[i] == kids[n - 1 - i] && Reversed(kids)[j] == kids[n - 1 - j];
      Siblings(path, children[n - 1 - i], children[n - 1 - j]);
    }
  }

  /** The walk from the roots places exactly the members whose predecessors end at a root. */
  lemma PlacedIffRooted(pred: Parents, ordered: seq<string>, d: string)
    requires InPred(pred, ordered) && Frontier(pred, ordered, []) && d in pred
    ensures d in ordered <==> Rooted(pred, d)
  {
    if Rooted(pred, d) {
      var n: nat :| Walk(InLineage(pred), d, n) == None;
      RootedIsPlaced(pred, ordered, d, n);
    }
    if d in ordered {
      var i :| 0 <= i < |ordered| && ordered[i] == d;
      PlacedIsRooted(pred, ordered, i);
    }
  }

  lemma {:induction false} PlacedIsRooted(pred: Parents, ordered: seq<string>, i: nat)
    requires InPred(pred, ordered) && ParentsFirst(pred, ordered) && i < |ordered|
    ensures Rooted(pred, ordered[i])
  {
    if Parent(pred, ordered[i]).Some? {
      var j :| 0 <= j < i && ordered[..i][j] == Parent(pred, ordered[i]).value;
      PlacedIsRooted(pred, ordered, j);
    }
    ChildEnds(pred, ordered[i]);
  }

  /** Every member gets its own position below the number of members, whatever the data.
      Members whose predecessors end at a root stand in the order of their paths from it, so
      after their predecessors, and before all members whose predecessors run around a cycle;
      those stand in the order of their identifiers. */
  method Positions(rows: seq<string>, pred: Parents) returns (positions: map<string, nat>)
    requires Distinct(rows) && forall d :: d in rows <==> d in pred
    ensures positions.Keys == pred.Keys && Numbers(rows, positions)
    ensures RootedInOrder(pred, positions) && RestInOrder(pred, positions) && PathsInOrder(pred, positions)
  {
    var placed := PlaceFromRoots(rows, pred);
    var rest := Sort(Absent(rows, placed), StringAtMost);
    WholeOrder(rows, placed);
    positions := Enumerate(placed + rest);
    ghost var paths := PathsFound(pred, placed);
    PositionsMean(rows, pred, placed, rest, paths, positions);
  }

  /** Every row has its own number below the number of rows. */
  ghost predicate Numbers(rows: seq<string>, positions: map<string, nat>) {
    && (forall d :: d in positions ==> positions[d] < |rows|)
    && forall d, e :: d in positions && e in positions && positions[d] == positions[e] ==> d == e
  }

  /** Below a root a member comes after its predecessor, and before whatever hangs from no root. */
  ghost predicate RootedInOrder(pred: Parents, positions: map<string, nat>)
    requires positions.Keys == pred.Keys
  {
    && (forall d {:trigger Parent(pred, d)} :: d in pred && Rooted(pred, d) && Parent(pred, d).Some? ==> positions[Parent(pred, d).value] < positions[d])
    && forall d, e :: d in pred && e in pred && Rooted(pred, d) && !Rooted(pred, e) ==> positions[d] < positions[e]
  }

  ghost predicate RestInOrder(pred: Parents, positions: map<string, nat>)
    requires positions.Keys == pred.Keys
  {
    forall d, e :: d in pred && e in pred && !Rooted(pred, d) && !Rooted(pred, e) && StringLess(d, e) ==> positions[d] < positions[e]
  }

  ghost predicate PathsInOrder(pred: Parents, positions: map<string, nat>) {
    forall d, e, p, q :: IsPath(pred, d, p) && IsPath(pred, e, q) && PathLess(p, q) ==> d in positions && e in positions && positions[d] < positions[e]
  }

  lemma PositionsMean(rows: seq<string>, pred: Parents, placed: seq<string>, rest: seq<string>, paths: seq<seq<string>>, positions: map<string, nat>)
    requires InPred(pred, placed) && Frontier(pred, placed, []) && Distinct(placed + rest) && Indexes(placed + rest, positions)
    requires ArePaths(pred, placed, paths) && Ascending(paths, PathLess) && Ascending(rest, StringLess)
    requires |placed + rest| == |rows| && positions.Keys == pred.Keys && forall d :: d in rest <==> d in pred && d !in placed
    ensures Numbers(rows, positions) && RootedInOrder(pred, positions) && RestInOrder(pred, positions) && PathsInOrder(pred, positions)
  {
    AllPlaced(pred, placed);
    assert RootedInOrder(pred, positions) by {
      PositionOrder(pred, placed, rest, positions);
    }
    assert RestInOrder(pred, positions) by {
      RestPositions(pred, rest, placed, positions);
    }
    PathPositions(pred, placed, rest, paths, positions);
  }

  lemma PathPositions(pred: Parents, placed: seq<string>, rest: seq<string>, paths: seq<seq<string>>, positions: map<string, nat>)
    requires InPred(pred, placed) && Frontier(pred, placed, []) && Distinct(placed + rest) && Indexes(placed + rest, positions)
    requires ArePaths(pred, placed, paths) && Ascending(paths, PathLess)
    ensures PathsInOrder(pred, positions)
  {
    forall d, e, p, q | IsPath(pred, d, p) && IsPath(pred, e, q) && PathLess(p, q)
      ensures d in positions && e in positions && positions[d] < positions[e]
    {
      PathPosition(pred, placed, rest, paths, positions, d, e, p, q);
    }
  }

  lemma RestPositions(pred: Parents, rest: seq<string>, placed: seq<string>, positions: map<string, nat>)
    requires Distinct(placed + rest) && Indexes(placed + rest, positions) && Ascending(rest, StringLess)
    requires forall d :: d in pred && !Rooted(pred, d) ==> d in rest
    ensures forall d, e :: d in pred && e in pred && !Rooted(pred, d) && !Rooted(pred, e) && StringLess(d, e) ==>
              d in positions && e in positions && positions[d] < positions[e]
  {
    forall d, e | d in pred && e in pred && !Rooted(pred, d) && !Rooted(pred, e) && StringLess(d, e)
      ensures d in positions && e in positions && positions[d] < positions[e]
    {
      RestPosition(rest, placed, positions, d, e);
    }
  }

  lemma {:induction false} PathEndIsPlaced(pred: Parents, ordered: seq<string>, d: string, path: seq<string>)
    requires InPred(pred, ordered) && Frontier(pred, ordered, []) && IsPath(pred, d, path)
    ensures d in ordered
    decreases |path|
  {
    if |path| == 1 {
      assert Parent(pred, d) == None;
    } else {
      PathEndIsPlaced(pred, ordered, path[|path| - 2], path[..|path| - 1]);
      ParentIff(pred, d, path[|path| - 2]);
    }
  }

  lemma PlaceOfPath(pred: Parents, placed: seq<string>, paths: seq<seq<string>>, d: string, p: seq<string>) returns (i: nat)
    requires InPred(pred, placed) && Frontier(pred, placed, []) && ArePaths(pred, placed, paths) && IsPath(pred, d, p)
    ensures i < |placed| && placed[i] == d && paths[i] == p
  {
    PathEndIsPlaced(pred, placed, d, p);
    i :| i < |placed| && placed[i] == d;
    assert PathAt(pred, placed, paths, i);
    PathUnique(pred, d, p, paths[i]);
  }

  lemma EarlierPlace(paths: seq<seq<string>>, i: nat, j: nat)
    requires Ascending(paths, PathLess) && i < |paths| && j < |paths| && PathLess(paths[i], paths[j])
    ensures i < j
  {
    PathLessIrreflexive(paths[i]);
    if j < i {
      PathLessTransitive(paths[i], paths[j], paths[i]);
    }
  }

  lemma PositionAt(ordered: seq<string>, positions: map<string, nat>, i: nat)
    requires Distinct(ordered) && Indexes(ordered, positions) && i < |ordered|
    ensures ordered[i] in positions && positions[ordered[i]] == i
  {
  }

  lemma PathPosition(pred: Parents, placed: seq<string>, rest: seq<string>, paths: seq<seq<string>>, positions: map<string, nat>,
                     d: string, e: string, p: seq<string>, q: seq<string>)
    requires InPred(pred, placed) && Frontier(pred, placed, []) && Distinct(placed + rest) && Indexes(placed + rest, positions)
    requires ArePaths(pred, placed, paths) && Ascending(paths, PathLess)
    requires IsPath(pred, d, p) && IsPath(pred, e, q) && PathLess(p, q)
    ensures d in positions && e in positions && positions[d] < positions[e]
  {
    var i := PlaceOfPath(pred, placed, paths, d, p);
    var j := PlaceOfPath(pred, placed, paths, e, q);
    EarlierPlace(paths, i, j);
    PositionAt(placed + rest, positions, i);
    PositionAt(placed + rest, positions, j);
  }

  lemma RestPosition(rest: seq<string>, placed: seq<string>, positions: map<string, nat>, d: string, e: string)
    requires Distinct(placed + rest) && Indexes(placed + rest, positions) && Ascending(rest, StringLess)
    requires d in rest && e in rest && StringLess(d, e)
    ensures positions[d] < positions[e]
  {
    var i :| 0 <= i < |rest| && rest[i] == d;
    var j :| 0 <= j < |rest| && rest[j] == e;
    assert (placed + rest)[|placed| + i] == d && (placed + rest)[|placed| + j] == e;
    StringLessIrreflexive(d);
    if j < i {
      StringLessTransitive(d, e, d);
    }
  }

  lemma AllPlaced(pred: Parents, ordered: seq<string>)
    requires InPred(pred, ordered) && Frontier(pred, ordered, [])
    ensures forall d :: d in pred ==> (d in ordered <==> Rooted(pred, d))
  {
    forall d | d in pred ensures d in ordered <==> Rooted(pred, d) {
      PlacedIffRooted(pred, ordered, d);
    }
  }

  lemma WholeOrder(rows: seq<string>, placed: seq<string>)
    requires Distinct(rows) && Distinct(placed) && forall d :: d in placed ==> d in rows
    ensures var rest := Sort(Absent(rows, placed), StringAtMost);
            && Distinct(placed + rest) && |placed + rest| == |rows|
            && (forall d :: d in rest <==> d in rows && d !in placed)
            && (forall d :: d in placed + rest <==> d in rows)
            && Ascending(rest, StringLess)
  {
    var absent := Absent(rows, placed);
    var rest := Sort(absent, StringAtMost);
    SortPermutes(absent, StringAtMost);
    IdOrder(absent);
    forall i, j | 0 <= i < j < |rest| ensures rest[i] != rest[j] {
      StringLessIrreflexive(rest[i]);
    }
    DistinctConcat(placed, rest);
    OrderedSize(rows, placed + rest);
  }

  /** Positions in a sequence whose front keeps parents first. */
  lemma PositionOrder(pred: Parents, placed: seq<string>, rest: seq<string>, positions: map<string, nat>)
    requires Distinct(placed + rest) && Indexes(placed + rest, positions)
    requires InPred(pred, placed) && ParentsFirst(pred, placed)
    ensures forall d {:trigger Parent(pred, d)} :: d in placed && Parent(pred, d).Some?
              ==> Parent(pred, d).value in positions && positions[Parent(pred, d).value] < positions[d]
    ensures forall d, e :: d in placed && e in rest ==> positions[d] < positions[e]
  {
    var ordered := placed + rest;
    forall d | d in placed && Parent(pred, d).Some?
      ensures Parent(pred, d).value in positions && positions[Parent(pred, d).value] < positions[d]
    {
      var i :| 0 <= i < |placed| && placed[i] == d;
      var j :| 0 <= j < i && placed[..i][j] == Parent(pred, d).value;
      assert ordered[i] == d && ordered[j] == Parent(pred, d).value;
    }
    forall d, e | d in placed && e in rest ensures positions[d] < positions[e] {
      var i :| 0 <= i < |placed| && placed[i] == d;
      var j :| 0 <= j < |rest| && rest[j] == e;
      assert ordered[i] == d && ordered[|placed| + j] == e;
    }
  }

  lemma ChildEnds(pred: Parents, d: string)
    requires d in pred
    requires Parent(pred, d).Some? ==> Rooted(pred, Parent(pred, d).value)
    ensures Rooted(pred, d)
  {
    if Parent(pred, d).Some? {
      var n: nat :| Walk(InLineage(pred), Parent(pred, d).value, n) == None;
      assert Walk(InLineage(pred), d, n + 1) == None;
    } else {
      assert Walk(InLineage(pred), d, 1) == None;
    }
  }

  lemma OrderedSize(rows: seq<string>, ordered: seq<string>)
    requires Distinct(rows) && Distinct(ordered) && forall d :: d in rows <==> d in ordered
    ensures |rows| == |ordered|
  {
    DistinctCardinality(rows);
    DistinctCardinality(ordered);
    assert (set x | x in rows) == (set x | x in ordered);
  }

  ghost predicate Indexes(ordered: seq<string>, positions: map<string, nat>) {
    && (forall d :: d in positions <==> d in ordered)
    && (forall d :: d in positions ==> positions[d] < |ordered| && ordered[positions[d]] == d)
  }

  method Enumerate(ordered: seq<string>) returns (positions: map<string, nat>)
    requires Distinct(ordered)
    ensures Indexes(ordered, positions)
  {
    positions := map[];
    for i := 0 to |ordered|
      invariant Indexes(ordered[..i], positions)
    {
      assert ordered[..i + 1] == ordered[..i] + [ordered[i]];
      assert ordered[i] !in ordered[..i];
      positions := positions[ordered[i] := i];
    }
    assert ordered[..|ordered|] == ordered;
  }

  /** Without predecessor cycles every in-lineage predecessor precedes its successor. */
  lemma AcyclicOrdersAll(pred: Parents, positions: map<string, nat>)
    requires positions.Keys == pred.Keys && !Cyclic(InLineage(pred)) && RootedInOrder(pred, positions)
    ensures forall d, p :: d in pred && pred[d] == Some(p) && p in pred ==> positions[p] < positions[d]
  {
    AcyclicIffEnds(InLineage(pred));
    forall d, p | d in pred && pred[d] == Some(p) && p in pred ensures positions[p] < positions[d] {
      ParentIff(pred, d, p);
    }
  }
}
