/** Resolving the version intent of a question into a closed set of documents.

    Text recognition is a parameter: how labels and names are normalised, which labels a
    question mentions and which phrases ask for a mode. */
module VersionScope {
  import opened Ordering
  import opened Values

  datatype Member = Member(
    document: string, available: bool, version: Option<string>, normalized: Option<string>,
    predecessor: Option<string>, confirmed: bool)

  /** `names` holds the display name and the aliases. */
  datatype Lineage = Lineage(id: string, names: seq<string>, confirmed: bool, current: Option<string>, members: seq<Member>)

  type Catalog = seq<Lineage>

  datatype Mode = Latest | Exact | Compare | All | Unscoped
  datatype Status = Resolved | Ambiguous | Unavailable | Degraded

  datatype Filter = Filter(mode: Option<Mode>, lineages: seq<string>, versions: seq<string>, documents: seq<string>)

  datatype Scope = Scope(
    mode: Mode, status: Status, lineages: seq<string>, versions: seq<string>,
    allowed: set<string>, preferred: seq<string>, available: seq<string>)

  datatype Text = Text(
    normalizeLabel: string -> string, mentions: (string, string) -> bool,
    labelsIn: (string, seq<string>) -> seq<string>,
    asksAll: string -> bool, asksCompare: string -> bool, asksPrevious: string -> bool)

  // ------------------------------------------------------------ the catalog

  /** Documents belong to one lineage each and lineages have distinct identifiers. */
  ghost predicate WellFormed(c: Catalog) {
    && (forall i, j :: 0 <= i < j < |c| ==> c[i].id != c[j].id)
    && (forall i {:trigger DistinctDocuments(c[i].members)} :: 0 <= i < |c| ==> DistinctDocuments(c[i].members))
    && forall i, j {:trigger Disjoint(c[i].members, c[j].members)} :: 0 <= i < j < |c| ==> Disjoint(c[i].members, c[j].members)
  }

  ghost predicate Disjoint(a: seq<Member>, b: seq<Member>) {
    Documents(a) !! Documents(b)
  }

  ghost predicate DistinctDocuments(ms: seq<Member>) {
    forall i, j :: 0 <= i < j < |ms| ==> ms[i].document != ms[j].document
  }

  function Documents(ms: seq<Member>): set<string> {
    set m | m in ms :: m.document
  }

  function AvailableIn(ms: seq<Member>): set<string> {
    set m | m in ms && m.available :: m.document
  }

  function Available(c: Catalog): set<string> {
    set l, d | l in c && d in AvailableIn(l.members) :: d
  }

  function Find(ms: seq<Member>, d: Option<string>): (r: Option<Member>)
    ensures r.Some? ==> r.value in ms && Some(r.value.document) == d
    ensures r == None ==> forall m :: m in ms ==> Some(m.document) != d
  {
    if ms == [] then None
    else if Some(ms[0].document) == d then Some(ms[0])
    else
      assert ms == [ms[0]] + ms[1..];
      Find(ms[1..], d)
  }

  lemma FindIsUnique(ms: seq<Member>, m: Member)
    requires DistinctDocuments(ms) && m in ms
    ensures Find(ms, Some(m.document)) == Some(m)
  {
  }

  // ------------------------------------------------------------ nearest predecessor

  /** The predecessor pointer, when it stays inside the lineage. */
  function Link(ms: seq<Member>, d: string): Option<string> {
    match Find(ms, Some(d))
    case None => None
    case Some(m) => DocumentOf(Find(ms, m.predecessor))
  }

  function DocumentOf(m: Option<Member>): Option<string> {
    match m case None => None case Some(v) => Some(v.document)
  }

  /** Where `n` pointers lead from `start`. */
  ghost function Back(ms: seq<Member>, start: string, n: nat): Option<string> {
    if n == 0 then Some(start)
    else match Back(ms, start, n - 1) case None => None case Some(d) => Link(ms, d)
  }

  ghost predicate AvailableAt(ms: seq<Member>, start: string, n: nat) {
    var d := Back(ms, start, n);
    d.Some? && d.value in AvailableIn(ms)
  }

  /** None of the first `n` predecessors is available. */
  ghost predicate NoneWithin(ms: seq<Member>, start: string, n: nat) {
    forall k :: 1 <= k <= n ==> !AvailableAt(ms, start, k)
  }

  /** `n` steps back stands the first available predecessor. */
  ghost predicate NearestAt(ms: seq<Member>, start: string, n: nat) {
    n >= 1 && AvailableAt(ms, start, n) && NoneWithin(ms, start, n - 1)
  }

  ghost function Nearest(ms: seq<Member>, start: string): (r: Option<string>)
    ensures r.Some? <==> exists n: nat :: NearestAt(ms, start, n)
    ensures forall n: nat :: NearestAt(ms, start, n) ==> r == Back(ms, start, n)
    ensures r.Some? ==> r.value in AvailableIn(ms)
  {
    if n: nat :| NearestAt(ms, start, n) then Back(ms, start, n) else None
  }

  /** A walk that repeats a document runs around a cycle. */
  lemma {:induction false} Periodic(ms: seq<Member>, start: string, i: nat, n: nat, k: nat)
    requires i < n <= k && Back(ms, start, i) == Back(ms, start, n)
    ensures Back(ms, start, k) == Back(ms, start, k - (n - i))
  {
    if k > n {
      Periodic(ms, start, i, n, k - 1);
    }
  }

  /** After a walk repeats a document it meets nothing new. */
  lemma {:induction false} RepeatsForever(ms: seq<Member>, start: string, i: nat, n: nat, k: nat)
    requires i < n && Back(ms, start, i) == Back(ms, start, n) && NoneWithin(ms, start, n) && k >= 1
    ensures !AvailableAt(ms, start, k)
    decreases k
  {
    if k > n {
      Periodic(ms, start, i, n, k);
      RepeatsForever(ms, start, i, n, k - (n - i));
    }
  }

  lemma {:induction false} StaysEnded(ms: seq<Member>, start: string, n: nat, k: nat)
    requires n <= k && Back(ms, start, n) == None
    ensures Back(ms, start, k) == None
  {
    if k > n {
      StaysEnded(ms, start, n, k - 1);
    }
  }

  lemma EndsWithout(ms: seq<Member>, start: string, n: nat)
    requires NoneWithin(ms, start, n) && Back(ms, start, n + 1) == None
    ensures Nearest(ms, start) == None
  {
    forall k: nat | k >= 1 ensures !AvailableAt(ms, start, k) {
      if k > n {
        StaysEnded(ms, start, n + 1, k);
      }
    }
  }

  lemma AvailabilityOf(ms: seq<Member>, m: Member)
    requires DistinctDocuments(ms) && m in ms
    ensures m.document in AvailableIn(ms) <==> m.available
  {
    forall n | n in ms && n.document == m.document ensures n == m {
      FindIsUnique(ms, n);
      FindIsUnique(ms, m);
    }
  }

  /** Following the pointer of a member is one step of the walk. */
  lemma StepFrom(ms: seq<Member>, start: string, n: nat, m: Member)
    requires DistinctDocuments(ms) && m in ms && Back(ms, start, n) == Some(m.document)
    ensures Back(ms, start, n + 1) == DocumentOf(Find(ms, m.predecessor))
    ensures AvailableAt(ms, start, n + 1) <==> Find(ms, m.predecessor).Some? && Find(ms, m.predecessor).value.available
  {
    FindIsUnique(ms, m);
    var next := Find(ms, m.predecessor);
    if next.Some? {
      AvailabilityOf(ms, next.value);
    }
  }

  ghost predicate Visited(ms: seq<Member>, start: string, n: nat, seen: set<string>) {
    seen <= Documents(ms) && forall d :: d in seen ==> exists i: nat :: i < n && Back(ms, start, i) == Some(d)
  }

  lemma RevisitEnds(ms: seq<Member>, start: string, n: nat, seen: set<string>, d: string)
    requires NoneWithin(ms, start, n) && Visited(ms, start, n, seen)
    requires Back(ms, start, n) == Some(d) && d in seen
    ensures Nearest(ms, start) == None
  {
    var i: nat :| i < n && Back(ms, start, i) == Some(d);
    forall k: nat | k >= 1 ensures !AvailableAt(ms, start, k) {
      RepeatsForever(ms, start, i, n, k);
    }
  }

  /** The pointer loop finds the nearest available predecessor, or nothing when the walk ends
      or turns into a cycle first. */
  method NearestAvailablePredecessor(ms: seq<Member>, start: Option<Member>) returns (r: Option<Member>)
    requires DistinctDocuments(ms) && (start.Some? ==> start.value in ms)
    ensures r.Some? ==> r.value in ms && r.value.available
    ensures DocumentOf(r) == if start.Some? then Nearest(ms, start.value.document) else None
  {
    if start == None {
      return None;
    }
    var seen: set<string> := {};
    var current := start;
    ghost var first, n := start.value.document, 0;
    while current.Some? && current.value.predecessor.Some?
      invariant current.Some? ==> current.value in ms
      invariant Back(ms, first, n) == DocumentOf(current)
      invariant NoneWithin(ms, first, n) && Visited(ms, first, n, seen)
      decreases Documents(ms) - seen, current.Some?
    {
      if current.value.document in seen {
        RevisitEnds(ms, first, n, seen, current.value.document);
        return None;
      }
      seen := seen + {current.value.document};
      StepFrom(ms, first, n, current.value);
      current := Find(ms, current.value.predecessor);
      if current.Some? && current.value.available {
        assert NearestAt(ms, first, n + 1);
        return current;
      }
      n := n + 1;
    }
    if current.Some? {
      StepFrom(ms, first, n, current.value);
    } else {
      StaysEnded(ms, first, n, n + 1);
    }
    EndsWithout(ms, first, n);
    r := None;
  }

  // ------------------------------------------------------------ closed scopes

  /** What every scope promises. */
  ghost predicate ClosedScope(c: Catalog, s: Scope) {
    && s.allowed <= Available(c)
    && (forall d :: d in s.preferred ==> d in s.allowed)
    && (s.status == Ambiguous || s.status == Unavailable ==> s.allowed == {} && s.preferred == [])
  }

  // ------------------------------------------------------------ latest versions

  /** The document a confirmed lineage offers: its current one, else the nearest available
      predecessor of it. */
  ghost function Pick(l: Lineage): (r: Option<string>)
    ensures r.Some? ==> r.value in AvailableIn(l.members)
  {
    match Find(l.members, l.current)
    case None => None
    case Some(m) =>
      if m.document in AvailableIn(l.members) then Some(m.document) else Nearest(l.members, m.document)
  }

  predicate Selected(l: Lineage, mentioned: set<string>) {
    l.confirmed && (mentioned == {} || l.id in mentioned)
  }

  /** The available documents of lineages nobody confirmed. */
  function Independent(c: Catalog): set<string> {
    if c == [] then {}
    else
      var l := c[|c| - 1];
      Independent(c[..|c| - 1]) + if l.confirmed then {} else AvailableIn(l.members)
  }

  ghost function Picks(c: Catalog, mentioned: set<string>): seq<string> {
    if c == [] then []
    else
      var l := c[|c| - 1];
      Picks(c[..|c| - 1], mentioned) + if Selected(l, mentioned) && Pick(l).Some? then [Pick(l).value] else []
  }

  function SelectedIds(c: Catalog, mentioned: set<string>): seq<string> {
    if c == [] then []
    else
      var l := c[|c| - 1];
      SelectedIds(c[..|c| - 1], mentioned) + if Selected(l, mentioned) then [l.id] else []
  }

  /** Some selected lineage falls back on a predecessor. */
  ghost predicate FallsBack(c: Catalog, mentioned: set<string>) {
    c != [] &&
    var l := c[|c| - 1];
    FallsBack(c[..|c| - 1], mentioned) || (Selected(l, mentioned) && Pick(l).Some? && Pick(l) != l.current)
  }

  /** Some selected lineage has nothing to offer. */
  ghost predicate Misses(c: Catalog, mentioned: set<string>) {
    c != [] &&
    var l := c[|c| - 1];
    Misses(c[..|c| - 1], mentioned) || (Selected(l, mentioned) && Pick(l) == None)
  }

  lemma {:induction false} FallsBackMeans(c: Catalog, mentioned: set<string>)
    ensures FallsBack(c, mentioned) <==> exists l :: l in c && Selected(l, mentioned) && Pick(l).Some? && Pick(l) != l.current
  {
    if c != [] {
      FallsBackMeans(c[..|c| - 1], mentioned);
      assert c == c[..|c| - 1] + [c[|c| - 1]];
    }
  }

  lemma {:induction false} MissesMeans(c: Catalog, mentioned: set<string>)
    ensures Misses(c, mentioned) <==> exists l :: l in c && Selected(l, mentioned) && Pick(l) == None
  {
    if c != [] {
      MissesMeans(c[..|c| - 1], mentioned);
      assert c == c[..|c| - 1] + [c[|c| - 1]];
    }
  }

  lemma {:induction false} PicksFrom(c: Catalog, mentioned: set<string>)
    ensures forall d :: d in Picks(c, mentioned) <==> exists l :: l in c && Selected(l, mentioned) && Pick(l) == Some(d)
  {
    if c != [] {
      PicksFrom(c[..|c| - 1], mentioned);
      assert c == c[..|c| - 1] + [c[|c| - 1]];
    }
  }

  lemma {:induction false} IndependentFrom(c: Catalog)
    ensures forall d :: d in Independent(c) <==> exists l :: l in c && !l.confirmed && d in AvailableIn(l.members)
  {
    if c != [] {
      IndependentFrom(c[..|c| - 1]);
      assert c == c[..|c| - 1] + [c[|c| - 1]];
    }
  }

  ghost predicate IsLatest(c: Catalog, mentioned: set<string>, s: Scope) {
    && s.mode == Latest && s.versions == [] && s.lineages == SelectedIds(c, mentioned)
    && s.preferred == Picks(c, mentioned)
    && s.allowed == Independent(c) + (set d | d in Picks(c, mentioned))
    && s.status == if FallsBack(c, mentioned) then Degraded
                   else if Misses(c, mentioned) && s.allowed == {} then Unavailable
                   else Resolved
  }

  /** The document a confirmed lineage offers, and whether it is a fallback. */
  method Offer(l: Lineage) returns (document: Option<string>, fallback: bool)
    requires DistinctDocuments(l.members)
    ensures document == Pick(l)
    ensures fallback <==> Pick(l).Some? && Pick(l) != l.current
  {
    var current := Find(l.members, l.current);
    if current.Some? {
      AvailabilityOf(l.members, current.value);
    }
    if current.Some? && current.value.available {
      return Some(current.value.document), false;
    }
    var predecessor := NearestAvailablePredecessor(l.members, current);
    document := DocumentOf(predecessor);
    fallback := document.Some?;
  }

  method LatestScope(c: Catalog, mentioned: set<string>) returns (s: Scope)
    requires forall i :: 0 <= i < |c| ==> DistinctDocuments(c[i].members)
    ensures IsLatest(c, mentioned, s)
    ensures s.status == Degraded <==> exists l :: l in c && Selected(l, mentioned) && Pick(l).Some? && Pick(l) != l.current
    ensures s.status == Unavailable ==> s.allowed == {} && exists l :: l in c && Selected(l, mentioned) && Pick(l) == None
  {
    var allowed: set<string> := {};
    var preferred: seq<string> := [];
    var degraded, unavailable := false, false;
    var selected: seq<string> := [];
    for i := 0 to |c|
      invariant preferred == Picks(c[..i], mentioned)
      invariant selected == SelectedIds(c[..i], mentioned)
      invariant allowed == Independent(c[..i]) + set d | d in preferred
      invariant degraded == FallsBack(c[..i], mentioned)
      invariant unavailable == Misses(c[..i], mentioned)
    {
      var l := c[i];
      assert c[..i + 1][..i] == c[..i];
      if !l.confirmed {
        allowed := allowed + AvailableIn(l.members);
        continue;
      }
      if mentioned != {} && l.id !in mentioned {
        continue;
      }
      selected := selected + [l.id];
      var document, fallback := Offer(l);
      if document == None {
        unavailable := true;
        continue;
      }
      degraded := degraded || fallback;
      allowed := allowed + {document.value};
      preferred := preferred + [document.value];
    }
    assert c[..|c|] == c;
    FallsBackMeans(c, mentioned);
    MissesMeans(c, mentioned);
    var status := if degraded then Degraded else if unavailable && allowed == {} then Unavailable else Resolved;
    s := Scope(Latest, status, selected, [], allowed, preferred, []);
  }

  /** A confirmed lineage contributes at most one document, the picked one. */
  lemma LatestOnePerLineage(c: Catalog, mentioned: set<string>, s: Scope, l: Lineage, d: string)
    requires WellFormed(c) && IsLatest(c, mentioned, s) && l in c && l.confirmed && d in Documents(l.members)
    ensures d in s.allowed <==> Selected(l, mentioned) && Pick(l) == Some(d)
    ensures d in s.preferred <==> d in s.allowed
  {
    PicksFrom(c, mentioned);
    IndependentFrom(c);
    forall k | k in c && d in Documents(k.members) ensures k == l {
      OneHome(c, k, l, d);
    }
  }

  lemma OneHome(c: Catalog, k: Lineage, l: Lineage, d: string)
    requires WellFormed(c) && k in c && l in c && d in Documents(k.members) && d in Documents(l.members)
    ensures k == l
  {
    var i :| 0 <= i < |c| && c[i] == k;
    var j :| 0 <= j < |c| && c[j] == l;
    assert i < j ==> Disjoint(c[i].members, c[j].members);
    assert j < i ==> Disjoint(c[j].members, c[i].members);
  }

  /** The available documents of unconfirmed lineages are allowed whatever was mentioned. */
  lemma LatestKeepsIndependent(c: Catalog, mentioned: set<string>, s: Scope, l: Lineage, d: string)
    requires IsLatest(c, mentioned, s) && l in c && !l.confirmed && d in AvailableIn(l.members)
    ensures d in s.allowed
  {
    IndependentFrom(c);
  }

  lemma LatestIsClosed(c: Catalog, mentioned: set<string>, s: Scope)
    requires IsLatest(c, mentioned, s)
    ensures ClosedScope(c, s)
  {
    PicksFrom(c, mentioned);
    IndependentFrom(c);
    if s.preferred != [] {
      assert s.preferred[0] in s.allowed;
    }
  }

  // ------------------------------------------------------------ versions named by label

  predicate Matches(m: Member, normalized: string) {
    m.confirmed && m.normalized == Some(normalized)
  }

  function MatchingMembers(l: Lineage, ms: seq<Member>, normalized: string): seq<(Lineage, Member)> {
    if ms == [] then []
    else (if Matches(ms[0], normalized) then [(l, ms[0])] else []) + MatchingMembers(l, ms[1..], normalized)
  }

  /** The confirmed members with a label, among the chosen lineages or all of them. */
  function Candidates(c: Catalog, chosen: set<string>, normalized: string): seq<(Lineage, Member)> {
    if c == [] then []
    else
      (if Selected(c[0], chosen) then MatchingMembers(c[0], c[0].members, normalized) else []) + Candidates(c[1..], chosen, normalized)
  }

  lemma {:induction false} MatchingAre(l: Lineage, ms: seq<Member>, normalized: string, p: (Lineage, Member))
    ensures p in MatchingMembers(l, ms, normalized) <==> p.0 == l && p.1 in ms && Matches(p.1, normalized)
  {
    if ms != [] {
      MatchingAre(l, ms[1..], normalized, p);
      assert ms == [ms[0]] + ms[1..];
    }
  }

  lemma {:induction false} CandidatesAre(c: Catalog, chosen: set<string>, normalized: string, p: (Lineage, Member))
    ensures p in Candidates(c, chosen, normalized) <==> p.0 in c && Selected(p.0, chosen) && p.1 in p.0.members && Matches(p.1, normalized)
  {
    if c != [] {
      CandidatesAre(c[1..], chosen, normalized, p);
      MatchingAre(c[0], c[0].members, normalized, p);
      assert c == [c[0]] + c[1..];
    }
  }

  function VersionsOf(ms: seq<Member>): set<string> {
    set m | m in ms && m.available && m.version.Some? :: m.version.value
  }

  function AvailableVersions(c: Catalog, chosen: set<string>): set<string> {
    set l, v | l in c && (chosen == {} || l.id in chosen) && v in VersionsOf(l.members) :: v
  }

  ghost predicate Sorted(r: seq<string>, s: set<string>) {
    Ascending(r, StringLess) && forall x :: x in r <==> x in s
  }

  method SortedTuple(s: set<string>) returns (r: seq<string>)
    ensures Sorted(r, s)
  {
    var listed := Listed(s);
    SortPermutes(listed, StringAtMost);
    SortedAscends(listed);
    r := Sort(listed, StringAtMost);
  }

  lemma SortedAscends(s: seq<string>)
    requires Distinct(s)
    ensures Ascending(Sort(s, StringAtMost), StringLess)
  {
    forall a, b | StringAtMost(a, b) ensures a == b || StringLess(a, b) {
      StringLessTotal(a, b);
    }
    forall a, b, c | StringLess(a, b) && StringLess(b, c) ensures StringLess(a, c) {
      StringLessTransitive(a, b, c);
    }
    SortAscending(s, StringAtMost, StringLess);
  }

  /** Each label has exactly one candidate among the first `n`. */
  ghost predicate Unique(t: Text, c: Catalog, chosen: set<string>, versions: seq<string>, n: nat)
    requires n <= |versions|
  {
    forall k :: 0 <= k < n ==> |Candidates(c, chosen, t.normalizeLabel(versions[k]))| == 1
  }

  ghost function Chosen(t: Text, c: Catalog, chosen: set<string>, version: string): (Lineage, Member)
    requires |Candidates(c, chosen, t.normalizeLabel(version))| == 1
  {
    Candidates(c, chosen, t.normalizeLabel(version))[0]
  }

  ghost function Expected(mode: Mode): nat { if mode == Compare then 2 else 1 }

  /** A scope named by labels is resolved exactly when the number of labels fits, each label
      has one confirmed candidate, compared versions share a lineage and all are available. */
  ghost predicate Resolvable(t: Text, mode: Mode, versions: seq<string>, chosen: set<string>, c: Catalog) {
    && |versions| == Expected(mode)
    && Unique(t, c, chosen, versions, |versions|)
    && (forall i, j :: 0 <= i < j < |versions| ==> Chosen(t, c, chosen, versions[i]).0.id == Chosen(t, c, chosen, versions[j]).0.id)
    && forall k :: 0 <= k < |versions| ==> Chosen(t, c, chosen, versions[k]).1.available
  }

  /** The request names more than one thing: a wrong number of labels, a label whose first
      failure has several candidates, or two lineages to compare. */
  ghost predicate TooMany(t: Text, mode: Mode, versions: seq<string>, chosen: set<string>, c: Catalog) {
    if |versions| != Expected(mode) then versions != []
    else if !Unique(t, c, chosen, versions, |versions|) then
      exists k :: 0 <= k < |versions| && Unique(t, c, chosen, versions, k) && |Candidates(c, chosen, t.normalizeLabel(versions[k]))| > 1
    else mode == Compare && Chosen(t, c, chosen, versions[0]).0.id != Chosen(t, c, chosen, versions[1]).0.id
  }

  ghost predicate IsLabelScope(t: Text, mode: Mode, versions: seq<string>, chosen: set<string>, c: Catalog, s: Scope) {
    && s.mode == mode && s.versions == versions
    && s.status == (if Resolvable(t, mode, versions, chosen, c) then Resolved
                    else if TooMany(t, mode, versions, chosen, c) then Ambiguous else Unavailable)
    && (s.status != Resolved ==> s.allowed == {} && s.preferred == [])
    && (s.status == Resolved ==>
          && |s.preferred| == |versions| && s.allowed == (set d | d in s.preferred)
          && s.lineages == [Chosen(t, c, chosen, versions[0]).0.id]
          && forall k :: 0 <= k < |versions| ==> s.preferred[k] == Chosen(t, c, chosen, versions[k]).1.document)
    && (|versions| == Expected(mode) && !Unique(t, c, chosen, versions, |versions|) ==> Sorted(s.available, AvailableVersions(c, chosen)))
  }

  method ResolveLabels(t: Text, mode: Mode, versions: seq<string>, chosen: set<string>, c: Catalog) returns (s: Scope)
    requires mode == Exact || mode == Compare
    ensures IsLabelScope(t, mode, versions, chosen, c, s)
  {
    var expected := if mode == Compare then 2 else 1;
    var lineages := SortedTuple(chosen);
    if |versions| != expected {
      return Scope(mode, if versions != [] then Ambiguous else Unavailable, lineages, versions, {}, [], []);
    }
    var matches: seq<(Lineage, Member)> := [];
    for k := 0 to |versions|
      invariant Unique(t, c, chosen, versions, k) && |matches| == k
      invariant forall i :: 0 <= i < k ==> matches[i] == Chosen(t, c, chosen, versions[i])
    {
      var candidates := Candidates(c, chosen, t.normalizeLabel(versions[k]));
      if |candidates| != 1 {
        var available := SortedTuple(AvailableVersions(c, chosen));
        OnlyFailure(t, mode, versions, chosen, c, k);
        return Scope(mode, if |candidates| > 1 then Ambiguous else Unavailable, lineages, versions, {}, [], available);
      }
      matches := matches + [candidates[0]];
    }
    s := JoinMatches(t, mode, versions, chosen, c, matches);
  }

  /** The scope of versions that each have one candidate. */
  method JoinMatches(t: Text, mode: Mode, versions: seq<string>, chosen: set<string>, c: Catalog, matches: seq<(Lineage, Member)>) returns (s: Scope)
    requires mode == Exact || mode == Compare
    requires |versions| == Expected(mode) == |matches| && Unique(t, c, chosen, versions, |versions|)
    requires forall i :: 0 <= i < |versions| ==> matches[i] == Chosen(t, c, chosen, versions[i])
    ensures IsLabelScope(t, mode, versions, chosen, c, s)
  {
    var lineages: seq<string>;
    if mode == Compare && matches[0].0.id != matches[1].0.id {
      lineages := SortedTuple({matches[0].0.id, matches[1].0.id});
      return Scope(mode, Ambiguous, lineages, versions, {}, [], []);
    }
    lineages := [matches[0].0.id];
    if exists k :: 0 <= k < |matches| && !matches[k].1.available {
      return Scope(mode, Unavailable, lineages, versions, {}, [], []);
    }
    var documents := seq(|matches|, k requires 0 <= k < |matches| => matches[k].1.document);
    s := Scope(mode, Resolved, lineages, versions, (set d | d in documents), documents, []);
  }

  lemma OnlyFailure(t: Text, mode: Mode, versions: seq<string>, chosen: set<string>, c: Catalog, k: nat)
    requires |versions| == Expected(mode) && k < |versions| && Unique(t, c, chosen, versions, k)
    requires |Candidates(c, chosen, t.normalizeLabel(versions[k]))| != 1
    ensures !Unique(t, c, chosen, versions, |versions|) && !Resolvable(t, mode, versions, chosen, c)
    ensures TooMany(t, mode, versions, chosen, c) <==> |Candidates(c, chosen, t.normalizeLabel(versions[k]))| > 1
  {
    forall j | 0 <= j < |versions| && j != k && Unique(t, c, chosen, versions, j)
      ensures |Candidates(c, chosen, t.normalizeLabel(versions[j]))| == 1
    {
    }
  }

  lemma ChosenFacts(t: Text, c: Catalog, chosen: set<string>, version: string)
    requires |Candidates(c, chosen, t.normalizeLabel(version))| == 1
    ensures var p := Chosen(t, c, chosen, version);
            p.0 in c && Selected(p.0, chosen) && p.1 in p.0.members && Matches(p.1, t.normalizeLabel(version))
  {
    CandidatesAre(c, chosen, t.normalizeLabel(version), Chosen(t, c, chosen, version));
  }

  lemma LabelScopeIsClosed(t: Text, mode: Mode, versions: seq<string>, chosen: set<string>, c: Catalog, s: Scope)
    requires IsLabelScope(t, mode, versions, chosen, c, s)
    ensures ClosedScope(c, s)
  {
    if s.status == Resolved {
      forall k | 0 <= k < |versions| ensures s.preferred[k] in Available(c) {
        ChosenFacts(t, c, chosen, versions[k]);
        var p := Chosen(t, c, chosen, versions[k]);
        assert p.1.document in AvailableIn(p.0.members);
      }
    }
  }

  /** A resolved exact scope holds one document, a resolved comparison two different documents
      of one confirmed lineage that bear the requested labels. */
  lemma ResolvedComparison(t: Text, versions: seq<string>, chosen: set<string>, c: Catalog, s: Scope)
    requires WellFormed(c) && IsLabelScope(t, Compare, versions, chosen, c, s) && s.status == Resolved
    requires DistinctForms(t, versions)
    ensures |s.preferred| == 2 && s.preferred[0] != s.preferred[1] && s.allowed == {s.preferred[0], s.preferred[1]}
    ensures exists l :: l in c && l.confirmed && s.lineages == [l.id] && forall k :: 0 <= k < 2 ==>
                          Bears(l.members, s.preferred[k], t.normalizeLabel(versions[k]))
  {
    ChosenFacts(t, c, chosen, versions[0]);
    ChosenFacts(t, c, chosen, versions[1]);
    var p, q := Chosen(t, c, chosen, versions[0]), Chosen(t, c, chosen, versions[1]);
    SameId(c, p.0, q.0);
    assert Bears(p.0.members, s.preferred[0], t.normalizeLabel(versions[0]));
    assert Bears(p.0.members, s.preferred[1], t.normalizeLabel(versions[1]));
    DistinctIn(c, p.0);
    if s.preferred[0] == s.preferred[1] {
      FindIsUnique(p.0.members, p.1);
      FindIsUnique(p.0.members, q.1);
    }
  }

  lemma ResolvedExact(t: Text, versions: seq<string>, chosen: set<string>, c: Catalog, s: Scope)
    requires IsLabelScope(t, Exact, versions, chosen, c, s) && s.status == Resolved
    ensures |s.preferred| == 1 && s.allowed == {s.preferred[0]}
    ensures exists l :: l in c && l.confirmed && s.lineages == [l.id] && Bears(l.members, s.preferred[0], t.normalizeLabel(versions[0]))
  {
    ChosenFacts(t, c, chosen, versions[0]);
  }

  ghost predicate Bears(ms: seq<Member>, d: string, normalized: string) {
    exists m :: m in ms && m.document == d && m.available && Matches(m, normalized)
  }

  lemma SameId(c: Catalog, k: Lineage, l: Lineage)
    requires WellFormed(c) && k in c && l in c && k.id == l.id
    ensures k == l
  {
    var i :| 0 <= i < |c| && c[i] == k;
    var j :| 0 <= j < |c| && c[j] == l;
  }

  lemma DistinctIn(c: Catalog, l: Lineage)
    requires WellFormed(c) && l in c
    ensures DistinctDocuments(l.members)
  {
    var i :| 0 <= i < |c| && c[i] == l;
    assert DistinctDocuments(c[i].members);
  }

  // ------------------------------------------------------------ one lineage is never ambiguous

  /** Confirmed members of a lineage bear different labels. */
  ghost predicate DistinctLabels(ms: seq<Member>) {
    forall i, j :: 0 <= i < j < |ms| && ms[i].confirmed && ms[j].confirmed && ms[i].normalized.Some? ==> ms[i].normalized != ms[j].normalized
  }

  lemma {:induction false} AtMostOneMatch(l: Lineage, ms: seq<Member>, normalized: string)
    requires DistinctLabels(ms)
    ensures |MatchingMembers(l, ms, normalized)| <= 1
  {
    if ms != [] {
      AtMostOneMatch(l, ms[1..], normalized);
      if Matches(ms[0], normalized) && MatchingMembers(l, ms[1..], normalized) != [] {
        var p := MatchingMembers(l, ms[1..], normalized)[0];
        MatchingAre(l, ms[1..], normalized, p);
      }
    }
  }

  ghost predicate DistinctIds(c: Catalog) {
    forall i, j :: 0 <= i < j < |c| ==> c[i].id != c[j].id
  }

  lemma {:induction false} AtMostOneCandidate(c: Catalog, id: string, normalized: string)
    requires DistinctIds(c) && forall l :: l in c && l.id == id ==> DistinctLabels(l.members)
    ensures |Candidates(c, {id}, normalized)| <= 1
  {
    if c != [] {
      assert c == [c[0]] + c[1..];
      assert DistinctIds(c[1..]);
      AtMostOneCandidate(c[1..], id, normalized);
      AtMostOneMatch(c[0], if c[0].id == id then c[0].members else [], normalized);
      if c[0].id == id && Candidates(c[1..], {id}, normalized) != [] {
        var p := Candidates(c[1..], {id}, normalized)[0];
        CandidatesAre(c[1..], {id}, normalized, p);
      }
    }
  }

  /** Within one lineage of distinctly labelled versions the right number of labels is never
      ambiguous. */
  lemma OneLineageNeverAmbiguous(t: Text, mode: Mode, versions: seq<string>, id: string, c: Catalog, s: Scope)
    requires WellFormed(c) && forall l :: l in c && l.id == id ==> DistinctLabels(l.members)
    requires |versions| == Expected(mode) && IsLabelScope(t, mode, versions, {id}, c, s)
    ensures s.status != Ambiguous
  {
    assert DistinctIds(c);
    forall k | 0 <= k < |versions| ensures |Candidates(c, {id}, t.normalizeLabel(versions[k]))| <= 1 {
      AtMostOneCandidate(c, id, t.normalizeLabel(versions[k]));
    }
    if mode == Compare && Unique(t, c, {id}, versions, |versions|) {
      ChosenFacts(t, c, {id}, versions[0]);
      ChosenFacts(t, c, {id}, versions[1]);
    }
  }

  // ------------------------------------------------------------ the previous version

  function FindLineage(c: Catalog, id: string): (r: Option<Lineage>)
    ensures r.Some? ==> r.value in c && r.value.id == id
    ensures r == None ==> forall l :: l in c ==> l.id != id
  {
    if c == [] then None
    else if c[0].id == id then Some(c[0])
    else
      assert c == [c[0]] + c[1..];
      FindLineage(c[1..], id)
  }

  /** The scope of the version before the one the conversation preferred, when the conversation
      was about a single known lineage. */
  function PreviousScope(conversation: Scope, c: Catalog): Option<Scope> {
    if |conversation.lineages| != 1 || conversation.preferred == [] then None
    else match FindLineage(c, conversation.lineages[0])
      case None => None
      case Some(l) =>
        var selected := Find(l.members, Some(conversation.preferred[0]));
        var predecessor := Find(l.members, if selected.Some? then selected.value.predecessor else None);
        if predecessor == None || !predecessor.value.available then
          Some(Scope(Exact, Unavailable, [l.id], [], {}, [], []))
        else
          var version := predecessor.value.version;
          Some(Scope(Exact, Resolved, [l.id], if version.Some? && version.value != "" then [version.value] else [],
                     {predecessor.value.document}, [predecessor.value.document], []))
  }

  /** The conversation decides what the previous version is exactly if it preferred a document
      and was about one lineage of the catalog. */
  lemma PreviousApplies(conversation: Scope, c: Catalog)
    ensures PreviousScope(conversation, c).Some? <==>
              conversation.preferred != [] && |conversation.lineages| == 1 && exists l :: l in c && l.id == conversation.lineages[0]
  {
  }

  /** Asking for the previous version moves one available predecessor back in the same lineage,
      or says that there is none. */
  lemma PreviousIsPredecessor(conversation: Scope, c: Catalog)
    requires WellFormed(c) && PreviousScope(conversation, c).Some?
    ensures ClosedScope(c, PreviousScope(conversation, c).value)
    ensures var s, d := PreviousScope(conversation, c).value, conversation.preferred[0];
            && s.mode == Exact && s.lineages == conversation.lineages
            && (s.status == Resolved || s.status == Unavailable)
            && (s.status == Resolved ==> |s.preferred| == 1 && s.allowed == {s.preferred[0]})
            && forall l :: l in c && [l.id] == s.lineages ==>
                 if s.status == Resolved then |s.preferred| == 1 && Nearest(l.members, d) == Some(s.preferred[0]) == Link(l.members, d)
                 else !AvailableAt(l.members, d, 1)
  {
    var s, d := PreviousScope(conversation, c).value, conversation.preferred[0];
    forall l | l in c && [l.id] == s.lineages
      ensures if s.status == Resolved then Nearest(l.members, d) == Some(s.preferred[0]) == Link(l.members, d) else !AvailableAt(l.members, d, 1)
      ensures s.status == Resolved ==> s.preferred[0] in AvailableIn(l.members)
    {
      var found := FindLineage(c, conversation.lineages[0]).value;
      SameId(c, found, l);
      DistinctIn(c, l);
      assert Back(l.members, d, 0) == Some(d);
      assert Back(l.members, d, 1) == Link(l.members, d);
      var selected := Find(l.members, Some(d));
      var predecessor := Find(l.members, if selected.Some? then selected.value.predecessor else None);
      if predecessor.Some? {
        AvailabilityOf(l.members, predecessor.value);
        assert predecessor.value.available ==> NearestAt(l.members, d, 1);
      }
    }
  }

  // ------------------------------------------------------------ resolution

  /** The first label of each normal form, empty forms left out. */
  function FirstForms(t: Text, values: seq<string>): seq<string> {
    if values == [] then []
    else
      var front, last := FirstForms(t, values[..|values| - 1]), values[|values| - 1];
      if t.normalizeLabel(last) == "" || exists i :: 0 <= i < |front| && t.normalizeLabel(front[i]) == t.normalizeLabel(last) then front
      else front + [last]
  }

  method UniqueVersions(t: Text, values: seq<string>) returns (versions: seq<string>)
    ensures versions == FirstForms(t, values)
  {
    versions := [];
    var seen: set<string> := {};
    for i := 0 to |values|
      invariant versions == FirstForms(t, values[..i])
      invariant forall n :: n in seen <==> exists k :: 0 <= k < |versions| && t.normalizeLabel(versions[k]) == n
    {
      assert values[..i + 1][..i] == values[..i];
      var normalized := t.normalizeLabel(values[i]);
      if normalized == "" || normalized in seen {
        continue;
      }
      seen := seen + {normalized};
      ghost var before := versions;
      versions := versions + [values[i]];
      assert forall k :: 0 <= k < |before| ==> versions[k] == before[k];
      assert versions[|before|] == values[i];
    }
    assert values[..|values|] == values;
  }

  ghost predicate DistinctForms(t: Text, versions: seq<string>) {
    forall i, j :: 0 <= i < j < |versions| ==> t.normalizeLabel(versions[i]) != t.normalizeLabel(versions[j])
  }

  lemma {:induction false} FormsDistinct(t: Text, values: seq<string>)
    ensures DistinctForms(t, FirstForms(t, values))
  {
    if values != [] {
      FormsDistinct(t, values[..|values| - 1]);
      var front := FirstForms(t, values[..|values| - 1]);
      assert FirstForms(t, values) == front || FirstForms(t, values) == front + [values[|values| - 1]];
    }
  }

  /** The first value of its normal form. */
  ghost predicate IsFirst(t: Text, values: seq<string>, i: nat) {
    i < |values| && t.normalizeLabel(values[i]) != "" && forall j :: 0 <= j < i ==> t.normalizeLabel(values[j]) != t.normalizeLabel(values[i])
  }

  ghost predicate StandAt(t: Text, values: seq<string>, r: seq<string>, at: seq<nat>) {
    |at| == |r| && forall k :: 0 <= k < |at| ==> at[k] < |values| && r[k] == values[at[k]]
  }

  /** `at` are the positions of all first values, in order, and `r` the values there. */
  ghost predicate AreFirsts(t: Text, values: seq<string>, r: seq<string>, at: seq<nat>) {
    && StandAt(t, values, r, at)
    && (forall j, k :: 0 <= j < k < |at| ==> at[j] < at[k])
    && forall i: nat :: IsFirst(t, values, i) <==> i in at
  }

  /** The kept labels are the first values of their normal forms, in the order of the values. */
  lemma {:induction false} FormsAreFirst(t: Text, values: seq<string>) returns (at: seq<nat>)
    ensures AreFirsts(t, values, FirstForms(t, values), at)
  {
    if values == [] {
      at := [];
    } else {
      var front, last := values[..|values| - 1], values[|values| - 1];
      at := FormsAreFirst(t, front);
      at := FormsNext(t, front, last, at);
      assert values == front + [last];
    }
  }

  lemma FormsNext(t: Text, front: seq<string>, last: string, at: seq<nat>) returns (more: seq<nat>)
    requires AreFirsts(t, front, FirstForms(t, front), at)
    ensures AreFirsts(t, front + [last], FirstForms(t, front + [last]), more)
  {
    var values, r := front + [last], FirstForms(t, front);
    assert values[..|values| - 1] == front;
    assert FirstForms(t, values) == if IsFirst(t, values, |front|) then r + [last] else r by {
      FirstIffNew(t, front, r, at, last);
    }
    more := AddLast(t, front, r, at, last);
  }

  /** A further value is the first of its form exactly if no kept one has the form. */
  lemma FirstIffNew(t: Text, front: seq<string>, r: seq<string>, at: seq<nat>, last: string)
    requires AreFirsts(t, front, r, at)
    ensures IsFirst(t, front + [last], |front|)
       <==> t.normalizeLabel(last) != "" && !exists i :: 0 <= i < |r| && t.normalizeLabel(r[i]) == t.normalizeLabel(last)
  {
    var n := t.normalizeLabel(last);
    if n != "" && exists j :: 0 <= j < |front| && t.normalizeLabel(front[j]) == n {
      var i := FirstOccurrence(t, front, n);
      var k :| 0 <= k < |at| && at[k] == i;
      assert t.normalizeLabel(r[k]) == n;
    }
    if i :| 0 <= i < |r| && t.normalizeLabel(r[i]) == n {
      assert (front + [last])[at[i]] == front[at[i]];
    }
    assert forall j :: 0 <= j < |front| ==> (front + [last])[j] == front[j];
  }

  lemma FirstStays(t: Text, front: seq<string>, last: string, i: nat)
    requires i < |front|
    ensures IsFirst(t, front + [last], i) <==> IsFirst(t, front, i)
  {
    assert forall j :: 0 <= j <= i ==> (front + [last])[j] == front[j];
  }

  lemma StandsLonger(t: Text, front: seq<string>, r: seq<string>, at: seq<nat>, last: string)
    requires StandAt(t, front, r, at)
    ensures StandAt(t, front + [last], r, at) && StandAt(t, front + [last], r + [last], at + [|front|])
  {
    var values := front + [last];
    forall k | 0 <= k < |at| ensures at[k] < |values| && r[k] == values[at[k]] {}
  }

  lemma FirstsAfter(t: Text, front: seq<string>, at: seq<nat>, last: string, i: nat)
    requires forall j: nat :: IsFirst(t, front, j) <==> j in at
    ensures IsFirst(t, front + [last], i) <==> i in at || (i == |front| && IsFirst(t, front + [last], |front|))
  {
    if i < |front| {
      FirstStays(t, front, last, i);
    } else {
      assert i in at ==> IsFirst(t, front, i);
    }
  }

  lemma AddLast(t: Text, front: seq<string>, r: seq<string>, at: seq<nat>, last: string) returns (more: seq<nat>)
    requires AreFirsts(t, front, r, at)
    ensures AreFirsts(t, front + [last], if IsFirst(t, front + [last], |front|) then r + [last] else r, more)
  {
    StandsLonger(t, front, r, at, last);
    if IsFirst(t, front + [last], |front|) {
      more := at + [|front|];
      forall k | 0 <= k < |at| ensures at[k] < |front| {
        assert at[k] in at;
      }
    } else {
      more := at;
    }
    forall i: nat ensures IsFirst(t, front + [last], i) <==> i in more {
      FirstsAfter(t, front, at, last, i);
    }
  }

  lemma {:induction false} FirstOccurrence(t: Text, values: seq<string>, n: string) returns (i: nat)
    requires n != "" && exists j :: 0 <= j < |values| && t.normalizeLabel(values[j]) == n
    ensures IsFirst(t, values, i) && t.normalizeLabel(values[i]) == n
  {
    i := 0;
    while t.normalizeLabel(values[i]) != n
      invariant i < |values| && forall j :: 0 <= j < i ==> t.normalizeLabel(values[j]) != n
      decreases |values| - i
    {
      i := i + 1;
    }
  }

  function LabelsOf(ms: seq<Member>): seq<string> {
    if ms == [] then []
    else (if ms[0].version.Some? && ms[0].confirmed then [ms[0].version.value] else []) + LabelsOf(ms[1..])
  }

  function KnownLabels(c: Catalog, chosen: set<string>): seq<string> {
    if c == [] then []
    else (if chosen == {} || c[0].id in chosen then LabelsOf(c[0].members) else []) + KnownLabels(c[1..], chosen)
  }

  function Mentioned(t: Text, c: Catalog, question: string): set<string> {
    set l | l in c && (exists n :: n in l.names && t.mentions(n, question)) :: l.id
  }

  /** What the question and the filter ask for: the labels, the lineages and the mode. */
  datatype Intent = Intent(versions: seq<string>, chosen: set<string>, mode: Mode)

  function IntentOf(t: Text, question: string, conversation: Option<Scope>, filter: Option<Filter>, c: Catalog): Intent {
    var requested := if filter.Some? then set l | l in filter.value.lineages else {};
    var chosen := if requested != {} then requested else Mentioned(t, c, question);
    var listed := if filter.Some? then filter.value.versions else [];
    var versions := FirstForms(t, listed + t.labelsIn(question, KnownLabels(c, chosen)));
    var carried :=
      if chosen == {} && versions != [] && conversation.Some? && |conversation.value.lineages| == 1
      then {conversation.value.lineages[0]} else chosen;
    var mode := if filter.Some? && filter.value.mode.Some? then filter.value.mode.value else ModeOf(t, question, versions);
    Intent(versions, carried, mode)
  }

  /** A filter that names documents decides alone. */
  ghost predicate IsDocumentScope(c: Catalog, f: Filter, s: Scope) {
    && s.allowed == (set d | d in f.documents && d in Available(c))
    && s.mode == (if f.mode.Some? then f.mode.value else Exact)
    && s.status == (if s.allowed == {} then Unavailable else Resolved)
    && s.preferred == Kept(f.documents, Available(c))
  }

  function Kept(ds: seq<string>, keep: set<string>): seq<string> {
    if ds == [] then [] else (if ds[0] in keep then [ds[0]] else []) + Kept(ds[1..], keep)
  }

  lemma {:induction false} KeptAre(ds: seq<string>, keep: set<string>, d: string)
    ensures d in Kept(ds, keep) <==> d in ds && d in keep
    ensures |Kept(ds, keep)| <= |ds|
  {
    if ds != [] {
      KeptAre(ds[1..], keep, d);
      assert ds == [ds[0]] + ds[1..];
    }
  }

  lemma Associative<T>(a: seq<T>, b: seq<T>, c: seq<T>)
    ensures a + (b + c) == a + b + c
  {
  }

  /** Documents are kept one by one, in the order of the list. */
  lemma {:induction false} KeptInOrder(ds: seq<string>, more: seq<string>, keep: set<string>)
    ensures Kept(ds + more, keep) == Kept(ds, keep) + Kept(more, keep)
  {
    if ds == [] {
      assert ds + more == more;
    } else {
      KeptInOrder(ds[1..], more, keep);
      assert (ds + more)[1..] == ds[1..] + more && (ds + more)[0] == ds[0];
      Associative(if ds[0] in keep then [ds[0]] else [], Kept(ds[1..], keep), Kept(more, keep));
    }
  }

  function ChosenAvailable(c: Catalog, chosen: set<string>): set<string> {
    set l, d | l in c && (chosen == {} || l.id in chosen) && d in AvailableIn(l.members) :: d
  }

  ghost predicate IsAllScope(c: Catalog, intent: Intent, s: Scope) {
    s.mode == All && s.status == Resolved && s.versions == intent.versions && s.allowed == ChosenAvailable(c, intent.chosen) && Sorted(s.preferred, s.allowed)
  }

  predicate UnknownRequested(filter: Option<Filter>, c: Catalog) {
    filter.Some? && exists l :: l in filter.value.lineages && forall k :: k in c ==> k.id != l
  }

  /** Which of the outcomes applies, in the order they are tried. */
  ghost predicate IsResolution(t: Text, question: string, conversation: Option<Scope>, filter: Option<Filter>, c: Catalog, s: Scope) {
    var intent := IntentOf(t, question, conversation, filter, c);
    if filter.Some? && filter.value.documents != [] then IsDocumentScope(c, filter.value, s)
    else if UnknownRequested(filter, c) then s.status == Unavailable && s.allowed == {} && s.preferred == []
    else match intent.mode
      case All => IsAllScope(c, intent, s)
      case Exact | Compare => IsLabelScope(t, intent.mode, intent.versions, intent.chosen, c, s)
      case _ =>
        if t.asksPrevious(question) && conversation.Some? && PreviousScope(conversation.value, c).Some?
        then s == PreviousScope(conversation.value, c).value
        else IsLatest(c, intent.chosen, s)
  }

  method Resolve(t: Text, question: string, conversation: Option<Scope>, filter: Option<Filter>, c: Catalog) returns (s: Scope)
    requires forall i :: 0 <= i < |c| ==> DistinctDocuments(c[i].members)
    ensures IsResolution(t, question, conversation, filter, c, s)
  {
    if filter.Some? && filter.value.documents != [] {
      s := DocumentScope(c, filter.value);
      return;
    }
    var requested := if filter.Some? then set l | l in filter.value.lineages else {};
    if UnknownRequested(filter, c) {
      var lineages := SortedTuple(requested);
      return Scope(if filter.value.mode.Some? then filter.value.mode.value else Latest, Unavailable, lineages, filter.value.versions, {}, [], []);
    }
    var chosen := if requested != {} then requested else Mentioned(t, c, question);
    var listed := if filter.Some? then filter.value.versions else [];
    var versions := UniqueVersions(t, listed + t.labelsIn(question, KnownLabels(c, chosen)));
    if chosen == {} && versions != [] && conversation.Some? && |conversation.value.lineages| == 1 {
      chosen := {conversation.value.lineages[0]};
    }
    var mode := if filter.Some? && filter.value.mode.Some? then filter.value.mode.value else ModeOf(t, question, versions);
    assert Intent(versions, chosen, mode) == IntentOf(t, question, conversation, filter, c);
    if mode == All {
      var lineages := SortedTuple(chosen);
      var documents := SortedTuple(ChosenAvailable(c, chosen));
      return Scope(All, Resolved, lineages, versions, ChosenAvailable(c, chosen), documents, []);
    }
    if mode == Exact || mode == Compare {
      s := ResolveLabels(t, mode, versions, chosen, c);
      return;
    }
    if t.asksPrevious(question) && conversation.Some? {
      var previous := PreviousScope(conversation.value, c);
      if previous.Some? {
        return previous.value;
      }
    }
    s := LatestScope(c, chosen);
  }

  function ModeOf(t: Text, question: string, versions: seq<string>): Mode {
    if t.asksAll(question) then All
    else if |versions| >= 2 || t.asksCompare(question) then Compare
    else if versions != [] then Exact
    else Latest
  }

  method DocumentScope(c: Catalog, f: Filter) returns (s: Scope)
    ensures IsDocumentScope(c, f, s)
  {
    var selected := set d | d in f.documents && d in Available(c);
    s := Scope(if f.mode.Some? then f.mode.value else Exact, if selected != {} then Resolved else Unavailable,
               f.lineages, f.versions, selected, Kept(f.documents, Available(c)), []);
  }

  /** Every resolution is closed: only available documents are allowed, only allowed ones
      preferred, and an ambiguous or unavailable outcome allows nothing. */
  lemma ResolutionIsClosed(t: Text, question: string, conversation: Option<Scope>, filter: Option<Filter>, c: Catalog, s: Scope)
    requires WellFormed(c) && IsResolution(t, question, conversation, filter, c, s)
    ensures ClosedScope(c, s)
  {
    var intent := IntentOf(t, question, conversation, filter, c);
    if filter.Some? && filter.value.documents != [] {
      DocumentsAreClosed(c, filter.value, s);
    } else if UnknownRequested(filter, c) {
    } else if intent.mode == All {
    } else if intent.mode == Exact || intent.mode == Compare {
      LabelScopeIsClosed(t, intent.mode, intent.versions, intent.chosen, c, s);
    } else if t.asksPrevious(question) && conversation.Some? && PreviousScope(conversation.value, c).Some? {
      PreviousIsPredecessor(conversation.value, c);
    } else {
      LatestIsClosed(c, intent.chosen, s);
    }
  }

  lemma DocumentsAreClosed(c: Catalog, f: Filter, s: Scope)
    requires IsDocumentScope(c, f, s)
    ensures ClosedScope(c, s)
  {
    forall d ensures d in s.preferred <==> d in s.allowed {
      KeptAre(f.documents, Available(c), d);
    }
    assert s.preferred != [] ==> s.preferred[0] in s.preferred;
  }

  /** The labels a resolution works with differ, so its comparisons name two documents. */
  lemma ResolutionComparesTwo(t: Text, question: string, conversation: Option<Scope>, filter: Option<Filter>, c: Catalog, s: Scope)
    requires WellFormed(c) && IsResolution(t, question, conversation, filter, c, s)
    requires !(filter.Some? && filter.value.documents != []) && !UnknownRequested(filter, c)
    requires IntentOf(t, question, conversation, filter, c).mode == Compare && s.status == Resolved
    ensures |s.preferred| == 2 && s.preferred[0] != s.preferred[1]
  {
    var intent := IntentOf(t, question, conversation, filter, c);
    var requested := if filter.Some? then set l | l in filter.value.lineages else {};
    var chosen := if requested != {} then requested else Mentioned(t, c, question);
    FormsDistinct(t, (if filter.Some? then filter.value.versions else []) + t.labelsIn(question, KnownLabels(c, chosen)));
    ResolvedComparison(t, intent.versions, intent.chosen, c, s);
  }

  // ------------------------------------------------------------ what a question asks for

  /** The lineages asked for: those of the filter, or else those the question mentions. */
  ghost predicate AsksFor(t: Text, question: string, filter: Option<Filter>, c: Catalog, l: string) {
    if filter.Some? && filter.value.lineages != [] then l in filter.value.lineages
    else exists k, n :: k in c && k.id == l && n in k.names && t.mentions(n, question)
  }

  /** The labels of the filter, and those the question names when it can name the known ones. */
  ghost predicate IsLabel(t: Text, question: string, filter: Option<Filter>, known: seq<string>, v: string) {
    (filter.Some? && v in filter.value.versions) || v in t.labelsIn(question, known)
  }

  /** What is asked for: the lineages and the different normal forms of the labels. */
  ghost predicate Asks(t: Text, question: string, filter: Option<Filter>, c: Catalog, chosen: set<string>, forms: set<string>) {
    && (forall l :: l in chosen <==> AsksFor(t, question, filter, c, l))
    && forall f :: f in forms <==> f != "" && exists v :: IsLabel(t, question, filter, KnownLabels(c, chosen), v) && t.normalizeLabel(v) == f
  }

  lemma {:induction false} LabelsAre(ms: seq<Member>, v: string)
    ensures v in LabelsOf(ms) <==> exists m :: m in ms && m.confirmed && m.version == Some(v)
  {
    if ms != [] {
      LabelsAre(ms[1..], v);
      assert ms == [ms[0]] + ms[1..];
    }
  }

  /** The known labels are those of confirmed members of the lineages asked for, or of all. */
  lemma {:induction false} KnownLabelsAre(c: Catalog, chosen: set<string>, v: string)
    ensures v in KnownLabels(c, chosen) <==>
              exists l, m :: l in c && (chosen == {} || l.id in chosen) && m in l.members && m.confirmed && m.version == Some(v)
  {
    if c != [] {
      KnownLabelsAre(c[1..], chosen, v);
      LabelsAre(c[0].members, v);
      assert c == [c[0]] + c[1..];
    }
  }

  /** A question about labels that names no lineage stays in the one the conversation is about. */
  ghost function Carried(conversation: Option<Scope>, chosen: set<string>, forms: set<string>): set<string> {
    if chosen == {} && forms != {} && conversation.Some? && |conversation.value.lineages| == 1
    then {conversation.value.lineages[0]} else chosen
  }

  lemma {:induction false} FormsCover(t: Text, values: seq<string>, f: string)
    ensures (exists v :: v in FirstForms(t, values) && t.normalizeLabel(v) == f) <==> f != "" && exists v :: v in values && t.normalizeLabel(v) == f
  {
    if values != [] {
      var front, last := values[..|values| - 1], values[|values| - 1];
      FormsCover(t, front, f);
      assert values == front + [last];
      assert forall v :: v in FirstForms(t, front) ==> v in FirstForms(t, values);
      if f == t.normalizeLabel(last) != "" {
        assert exists v :: v in FirstForms(t, values) && t.normalizeLabel(v) == f;
      }
    }
  }

  lemma {:induction false} FormsCounted(t: Text, versions: seq<string>, forms: set<string>)
    requires DistinctForms(t, versions)
    requires forall f :: f in forms <==> exists v :: v in versions && t.normalizeLabel(v) == f
    ensures |versions| == |forms|
  {
    if versions == [] {
      assert forms == {};
    } else {
      var front, last := versions[..|versions| - 1], versions[|versions| - 1];
      assert versions == front + [last];
      var f := t.normalizeLabel(last);
      forall v | v in front ensures t.normalizeLabel(v) != f {
        var i :| 0 <= i < |front| && front[i] == v;
        assert versions[i] == v;
      }
      FormsCounted(t, front, forms - {f});
      assert last in versions;
    }
  }

  /** The labels a resolution works with: one for each form asked for. */
  ghost predicate OnePerForm(t: Text, versions: seq<string>, forms: set<string>) {
    DistinctForms(t, versions) && |versions| == |forms| && forall v :: v in versions ==> t.normalizeLabel(v) in forms
  }

  lemma IntentMeans(t: Text, question: string, conversation: Option<Scope>, filter: Option<Filter>, c: Catalog, chosen: set<string>, forms: set<string>)
    requires Asks(t, question, filter, c, chosen, forms)
    ensures var intent := IntentOf(t, question, conversation, filter, c);
            OnePerForm(t, intent.versions, forms) && intent.chosen == Carried(conversation, chosen, forms)
  {
    ChosenMeans(t, question, filter, c, chosen);
    var listed := if filter.Some? then filter.value.versions else [];
    var values := listed + t.labelsIn(question, KnownLabels(c, chosen));
    var versions := FirstForms(t, values);
    FormsDistinct(t, values);
    forall f ensures f in forms <==> exists v :: v in versions && t.normalizeLabel(v) == f {
      FormsCover(t, values, f);
      assert forall v :: v in values <==> IsLabel(t, question, filter, KnownLabels(c, chosen), v);
    }
    FormsCounted(t, versions, forms);
  }

  lemma ChosenMeans(t: Text, question: string, filter: Option<Filter>, c: Catalog, chosen: set<string>)
    requires forall l :: l in chosen <==> AsksFor(t, question, filter, c, l)
    ensures var requested := if filter.Some? then set l | l in filter.value.lineages else {};
            chosen == if requested != {} then requested else Mentioned(t, c, question)
  {
    var requested := if filter.Some? then set l | l in filter.value.lineages else {};
    if filter.Some? && filter.value.lineages != [] {
      assert filter.value.lineages[0] in requested;
    }
    assert forall l :: l in Mentioned(t, c, question) <==> exists k, n :: k in c && k.id == l && n in k.names && t.mentions(n, question);
  }

  /** The filter leaves the mode open or not, names no documents and only lineages there are. */
  ghost predicate Open(filter: Option<Filter>, c: Catalog) {
    filter.Some? ==> filter.value.documents == [] && forall l :: l in filter.value.lineages ==> exists k :: k in c && k.id == l
  }

  ghost predicate PreviousOrLatest(t: Text, question: string, conversation: Option<Scope>, c: Catalog, chosen: set<string>, s: Scope) {
    if t.asksPrevious(question) && conversation.Some? && PreviousScope(conversation.value, c).Some?
    then s == PreviousScope(conversation.value, c).value
    else IsLatest(c, chosen, s)
  }

  lemma ChosenAvailableAre(c: Catalog, chosen: set<string>, d: string)
    ensures d in ChosenAvailable(c, chosen) <==>
              exists l, m :: l in c && m in l.members && m.available && m.document == d && (chosen == {} || l.id in chosen)
  {
    if l, m :| l in c && m in l.members && m.available && m.document == d && (chosen == {} || l.id in chosen) {
      assert d in AvailableIn(l.members);
    }
  }

  /** What a question gets when the filter leaves the mode open: all versions if it asks for
      them, a comparison if it asks for one or names two labels, one exact version if it names
      one, and otherwise the previous or the latest version. */
  lemma QuestionDecides(t: Text, question: string, conversation: Option<Scope>, filter: Option<Filter>, c: Catalog, s: Scope,
                        chosen: set<string>, forms: set<string>)
    requires IsResolution(t, question, conversation, filter, c, s) && Open(filter, c) && (filter.Some? ==> filter.value.mode == None)
    requires Asks(t, question, filter, c, chosen, forms)
    ensures t.asksAll(question) ==>
              && s.mode == All && s.status == Resolved
              && var kept := Carried(conversation, chosen, forms);
                 forall d :: d in s.allowed <==> exists l, m :: l in c && m in l.members && m.available && m.document == d && (kept == {} || l.id in kept)
    ensures !t.asksAll(question) && (t.asksCompare(question) || |forms| >= 2) ==> s.mode == Compare
    ensures !t.asksAll(question) && !t.asksCompare(question) && |forms| == 1 ==> s.mode == Exact
    ensures !t.asksAll(question) && !t.asksCompare(question) && forms == {} ==> PreviousOrLatest(t, question, conversation, c, chosen, s)
  {
    IntentMeans(t, question, conversation, filter, c, chosen, forms);
    if t.asksAll(question) {
      forall d { ChosenAvailableAre(c, Carried(conversation, chosen, forms), d); }
    }
  }

  /** A mode in the filter wins over the question. */
  lemma FilterDecides(t: Text, question: string, conversation: Option<Scope>, filter: Option<Filter>, c: Catalog, s: Scope,
                      chosen: set<string>, forms: set<string>)
    requires IsResolution(t, question, conversation, filter, c, s) && Open(filter, c) && filter.Some? && filter.value.mode.Some?
    requires Asks(t, question, filter, c, chosen, forms)
    ensures match filter.value.mode.value
            case All => s.mode == All && s.status == Resolved
            case Exact => s.mode == Exact
            case Compare => s.mode == Compare
            case _ => PreviousOrLatest(t, question, conversation, c, Carried(conversation, chosen, forms), s)
  {
    IntentMeans(t, question, conversation, filter, c, chosen, forms);
  }

  /** `m` of `l` is the one confirmed member of the lineages in question with the label. */
  ghost predicate OnlyBearer(c: Catalog, chosen: set<string>, f: string, l: Lineage, m: Member) {
    forall k, n :: (k in c && k.confirmed && (chosen == {} || k.id in chosen) && n in k.members && n.confirmed && n.normalized == Some(f)) <==> k == l && n == m
  }

  lemma {:induction false} MatchingDistinct(l: Lineage, ms: seq<Member>, normalized: string)
    requires DistinctDocuments(ms)
    ensures Distinct(MatchingMembers(l, ms, normalized))
  {
    if ms != [] {
      MatchingDistinct(l, ms[1..], normalized);
      MatchingAre(l, ms[1..], normalized, (l, ms[0]));
    }
  }

  lemma {:induction false} CandidatesDistinct(c: Catalog, chosen: set<string>, normalized: string)
    requires DistinctIds(c) && forall i :: 0 <= i < |c| ==> DistinctDocuments(c[i].members)
    ensures Distinct(Candidates(c, chosen, normalized))
  {
    if c != [] {
      CandidatesDistinct(c[1..], chosen, normalized);
      MatchingDistinct(c[0], c[0].members, normalized);
      var mine, rest := MatchingMembers(c[0], c[0].members, normalized), Candidates(c[1..], chosen, normalized);
      forall p, q | p in mine && q in rest ensures p != q {
        MatchingAre(c[0], c[0].members, normalized, p);
        CandidatesAre(c[1..], chosen, normalized, q);
      }
      DistinctJoined(mine, rest);
    }
  }

  lemma DistinctJoined<T>(a: seq<T>, b: seq<T>)
    requires Distinct(a) && Distinct(b) && forall x, y :: x in a && y in b ==> x != y
    ensures Distinct(a + b)
  {
    forall i, j | 0 <= i < j < |a + b| ensures (a + b)[i] != (a + b)[j] {
      if i < |a| <= j {
        assert a[i] in a && b[j - |a|] in b;
      }
    }
  }

  lemma OnlyElement<T>(s: seq<T>, x: T)
    requires Distinct(s) && x in s && forall y :: y in s ==> y == x
    ensures s == [x]
  {
    assert s[0] in s && s[|s| - 1] in s;
  }

  lemma OnlyCandidate(c: Catalog, chosen: set<string>, f: string, l: Lineage, m: Member)
    requires WellFormed(c) && OnlyBearer(c, chosen, f, l, m)
    ensures Candidates(c, chosen, f) == [(l, m)]
  {
    var found := Candidates(c, chosen, f);
    CandidatesDistinct(c, chosen, f);
    forall p ensures p in found <==> p == (l, m) {
      CandidatesAre(c, chosen, f, p);
    }
    OnlyElement(found, (l, m));
  }

  /** A question that names one label borne by one available document is about that document. */
  lemma OneLabelResolves(t: Text, question: string, conversation: Option<Scope>, filter: Option<Filter>, c: Catalog, s: Scope,
                         chosen: set<string>, f: string, l: Lineage, m: Member)
    requires WellFormed(c) && IsResolution(t, question, conversation, filter, c, s) && Open(filter, c) && (filter.Some? ==> filter.value.mode == None)
    requires Asks(t, question, filter, c, chosen, {f}) && !t.asksAll(question) && !t.asksCompare(question)
    requires OnlyBearer(c, Carried(conversation, chosen, {f}), f, l, m) && m.available
    ensures s.mode == Exact && s.status == Resolved && s.allowed == {m.document} && s.preferred == [m.document]
  {
    IntentMeans(t, question, conversation, filter, c, chosen, {f});
    OnlyCandidate(c, Carried(conversation, chosen, {f}), f, l, m);
    var versions := IntentOf(t, question, conversation, filter, c).versions;
    assert versions[0] in versions;
  }

  /** A question that names two labels borne by one available document each, of one lineage,
      compares these two. */
  lemma TwoLabelsResolve(t: Text, question: string, conversation: Option<Scope>, filter: Option<Filter>, c: Catalog, s: Scope,
                         chosen: set<string>, f: string, g: string, l: Lineage, m: Member, n: Member)
    requires WellFormed(c) && IsResolution(t, question, conversation, filter, c, s) && Open(filter, c) && (filter.Some? ==> filter.value.mode == None)
    requires f != g && Asks(t, question, filter, c, chosen, {f, g}) && !t.asksAll(question)
    requires OnlyBearer(c, Carried(conversation, chosen, {f, g}), f, l, m) && m.available
    requires OnlyBearer(c, Carried(conversation, chosen, {f, g}), g, l, n) && n.available
    ensures s.mode == Compare && s.status == Resolved && s.allowed == {m.document, n.document}
    ensures s.preferred == [m.document, n.document] || s.preferred == [n.document, m.document]
  {
    IntentMeans(t, question, conversation, filter, c, chosen, {f, g});
    OnlyCandidate(c, Carried(conversation, chosen, {f, g}), f, l, m);
    OnlyCandidate(c, Carried(conversation, chosen, {f, g}), g, l, n);
    var versions := IntentOf(t, question, conversation, filter, c).versions;
    assert versions[0] in versions && versions[1] in versions;
    if t.normalizeLabel(versions[0]) == f {
      ComparedResolves(t, versions, Carried(conversation, chosen, {f, g}), c, s, l, m, n);
    } else {
      ComparedResolves(t, versions, Carried(conversation, chosen, {f, g}), c, s, l, n, m);
    }
  }

  lemma ComparedResolves(t: Text, versions: seq<string>, chosen: set<string>, c: Catalog, s: Scope, l: Lineage, m: Member, n: Member)
    requires IsLabelScope(t, Compare, versions, chosen, c, s) && |versions| == 2 && m.available && n.available
    requires Candidates(c, chosen, t.normalizeLabel(versions[0])) == [(l, m)]
    requires Candidates(c, chosen, t.normalizeLabel(versions[1])) == [(l, n)]
    ensures s.status == Resolved && s.preferred == [m.document, n.document] && s.allowed == {m.document, n.document}
  {
    assert Chosen(t, c, chosen, versions[0]) == (l, m) && Chosen(t, c, chosen, versions[1]) == (l, n);
    assert Resolvable(t, Compare, versions, chosen, c) by {
      ComparedResolvable(t, versions, chosen, c, l, m, n);
    }
    assert s.preferred == [m.document, n.document];
  }

  lemma ComparedResolvable(t: Text, versions: seq<string>, chosen: set<string>, c: Catalog, l: Lineage, m: Member, n: Member)
    requires |versions| == 2 && m.available && n.available
    requires Candidates(c, chosen, t.normalizeLabel(versions[0])) == [(l, m)]
    requires Candidates(c, chosen, t.normalizeLabel(versions[1])) == [(l, n)]
    ensures Resolvable(t, Compare, versions, chosen, c)
  {
    forall k | 0 <= k < 2 ensures |Candidates(c, chosen, t.normalizeLabel(versions[k]))| == 1 {
      assert k == 0 || k == 1;
    }
    forall k | 0 <= k < 2 ensures Chosen(t, c, chosen, versions[k]) == if k == 0 then (l, m) else (l, n) {
      assert k == 0 || k == 1;
    }
  }

  /** What the latest scope allows: the available documents of unconfirmed lineages, and of each
      confirmed lineage asked for, or of all if none is, the document it offers. */
  lemma LatestMeans(c: Catalog, mentioned: set<string>, s: Scope, d: string)
    requires IsLatest(c, mentioned, s)
    ensures d in s.allowed <==>
              || (exists l :: l in c && l.confirmed && (mentioned == {} || l.id in mentioned) && Pick(l) == Some(d))
              || exists l, m :: l in c && !l.confirmed && m in l.members && m.available && m.document == d
    ensures d in s.preferred <==> exists l :: l in c && l.confirmed && (mentioned == {} || l.id in mentioned) && Pick(l) == Some(d)
  {
    PicksFrom(c, mentioned);
    IndependentFrom(c);
    forall l: Lineage ensures d in AvailableIn(l.members) <==> exists m :: m in l.members && m.available && m.document == d {}
  }

  /** Preferred documents and selected lineages stand in the order of the catalog. */
  lemma {:induction false} LatestInOrder(a: Catalog, b: Catalog, mentioned: set<string>)
    ensures Picks(a + b, mentioned) == Picks(a, mentioned) + Picks(b, mentioned)
    ensures SelectedIds(a + b, mentioned) == SelectedIds(a, mentioned) + SelectedIds(b, mentioned)
  {
    if b == [] {
      assert a + b == a;
    } else {
      var n := |b| - 1;
      LatestInOrder(a, b[..n], mentioned);
      assert (a + b)[..|a + b| - 1] == a + b[..n] && (a + b)[|a + b| - 1] == b[n];
      Associative(Picks(a, mentioned), Picks(b[..n], mentioned), if Selected(b[n], mentioned) && Pick(b[n]).Some? then [Pick(b[n]).value] else []);
      Associative(SelectedIds(a, mentioned), SelectedIds(b[..n], mentioned), if Selected(b[n], mentioned) then [b[n].id] else []);
    }
  }

  /** What is available at all, and which labels are offered when a label fits nothing. */
  lemma AvailableMeans(c: Catalog, chosen: set<string>, d: string, v: string)
    ensures d in Available(c) <==> exists l, m :: l in c && m in l.members && m.available && m.document == d
    ensures v in AvailableVersions(c, chosen) <==>
              exists l, m :: l in c && (chosen == {} || l.id in chosen) && m in l.members && m.available && m.version == Some(v)
  {
    if l, m :| l in c && m in l.members && m.available && m.document == d {
      assert d in AvailableIn(l.members);
    }
    if l, m :| l in c && (chosen == {} || l.id in chosen) && m in l.members && m.available && m.version == Some(v) {
      assert v in VersionsOf(l.members);
    }
  }

  /** A filter that asks for a lineage nobody knows gets nothing. */
  lemma UnknownLineage(t: Text, question: string, conversation: Option<Scope>, filter: Filter, c: Catalog, s: Scope, l: string)
    requires IsResolution(t, question, conversation, Some(filter), c, s) && filter.documents == []
    requires l in filter.lineages && forall k :: k in c ==> k.id != l
    ensures s.status == Unavailable && s.allowed == {} && s.preferred == []
  {
  }

  /** A filter that names documents gets those of them that are available, in its order. */
  lemma NamedDocuments(t: Text, question: string, conversation: Option<Scope>, filter: Filter, c: Catalog, s: Scope, d: string)
    requires IsResolution(t, question, conversation, Some(filter), c, s) && filter.documents != []
    ensures d in s.allowed <==> d in filter.documents && exists l, m :: l in c && m in l.members && m.available && m.document == d
    ensures d in s.preferred <==> d in s.allowed
    ensures s.status == (if s.allowed == {} then Unavailable else Resolved)
  {
    AvailableMeans(c, {}, d, "");
    KeptAre(filter.documents, Available(c), d);
  }
}
