/** Confirming document lineages: the catalog tables, the checks of one decision and the
    transaction that applies it.

    Every document has one membership row from its import on, and a lineage row of its own
    that bears its identifier. */
module VersionCatalog {
  import opened Ordering
  import opened Values
  import opened VersionLabels
  import opened Predecessors

  datatype SnapshotKind = FullSnapshot | Delta | Unknown

  datatype MemberDecision = MemberDecision(
    document: string, version: string, branch: string, predecessor: Option<string>, kind: SnapshotKind)

  /** Without expected revisions the decision skips the concurrency check. */
  datatype Decision = Decision(
    name: string, scheme: Scheme, members: seq<MemberDecision>, current: string,
    aliases: set<string>, lineage: Option<string>, expected: map<string, nat>)

  datatype Document = Document(name: string, created: string, available: bool)
  datatype LineageState = Singleton | Confirmed | NeedsOrderReview
  datatype Lineage = Lineage(
    name: string, state: LineageState, scheme: Scheme, current: Option<string>, revision: nat, aliases: set<string>)
  datatype Member = Member(
    lineage: string, version: Option<string>, normalized: Option<string>, branch: Option<string>,
    predecessor: Option<string>, kind: SnapshotKind)
  datatype Catalog = Catalog(
    documents: map<string, Document>, lineages: map<string, Lineage>, members: map<string, Member>)

  /** Text rules outside this model: label parsing, trimming and name normalisation. */
  datatype Rules = Rules(parser: Parser, strip: string -> string, normalize: string -> string)

  datatype Error =
    | InvalidLineage | CandidateUnavailable | InvalidCurrent | InvalidLabel | LabelConflict
    | InvalidPredecessor | InvalidOrder | PredecessorCycle | RevisionConflict | Integrity

  // ------------------------------------------------------------ the decision's members

  function Ids(ms: seq<MemberDecision>): (r: seq<string>)
    ensures |r| == |ms| && forall i :: 0 <= i < |ms| ==> r[i] == ms[i].document
  {
    seq(|ms|, i requires 0 <= i < |ms| => ms[i].document)
  }

  /** One of the first `n` members is the document. */
  ghost predicate Lists(ms: seq<MemberDecision>, n: nat, document: string)
    requires n <= |ms|
  {
    exists i :: 0 <= i < n && ms[i].document == document
  }

  /** What is wrong with the label of member `k`, given those before it. */
  ghost function LabelFault(p: Parser, ms: seq<MemberDecision>, scheme: Scheme, k: nat): Option<Error>
    requires k < |ms|
  {
    match Parse(p, ms[k].version, scheme)
    case None => Some(InvalidLabel)
    case Some(parsed) =>
      if exists i :: 0 <= i < k && SameLabel(p, ms, scheme, i, parsed.normalized) then Some(LabelConflict) else None
  }

  ghost predicate SameLabel(p: Parser, ms: seq<MemberDecision>, scheme: Scheme, i: nat, normalized: string)
    requires i < |ms|
  {
    var other := Parse(p, ms[i].version, scheme);
    other.Some? && other.value.normalized == normalized
  }

  ghost predicate LabelsUpTo(p: Parser, ms: seq<MemberDecision>, scheme: Scheme, n: nat)
    requires n <= |ms|
  {
    forall k :: 0 <= k < n ==> LabelFault(p, ms, scheme, k) == None
  }

  ghost predicate LabelsOk(p: Parser, ms: seq<MemberDecision>, scheme: Scheme) {
    LabelsUpTo(p, ms, scheme, |ms|)
  }

  /** The labels are valid exactly when all parse and no two normalise alike; otherwise
      the first offending member decides the error. */
  method ParseLabels(p: Parser, ms: seq<MemberDecision>, scheme: Scheme) returns (fault: Option<Error>)
    requires Distinct(Ids(ms))
    ensures fault == None <==> LabelsOk(p, ms, scheme)
    ensures fault.Some? ==> exists k :: 0 <= k < |ms| && LabelsUpTo(p, ms, scheme, k) && LabelFault(p, ms, scheme, k) == fault
  {
    var seen: map<string, string> := map[];
    for k := 0 to |ms|
      invariant LabelsUpTo(p, ms, scheme, k)
      invariant forall n :: n in seen <==> exists i :: 0 <= i < k && SameLabel(p, ms, scheme, i, n)
      invariant forall n :: n in seen ==> seen[n] in Ids(ms)[..k]
    {
      var parsed := Parse(p, ms[k].version, scheme);
      if parsed == None {
        assert LabelFault(p, ms, scheme, k) == Some(InvalidLabel);
        return Some(InvalidLabel);
      }
      var n := parsed.value.normalized;
      if n in seen && seen[n] != ms[k].document {
        assert LabelFault(p, ms, scheme, k) == Some(LabelConflict);
        return Some(LabelConflict);
      }
      assert ms[k].document !in Ids(ms)[..k] by { assert Ids(ms)[k] == ms[k].document; }
      assert SameLabel(p, ms, scheme, k, n);
      seen := seen[n := ms[k].document];
    }
    fault := None;
  }

  /** Distinct labels: the meaning of a decision whose labels are all valid. */
  lemma LabelsDistinct(p: Parser, ms: seq<MemberDecision>, scheme: Scheme, i: nat, j: nat)
    requires LabelsOk(p, ms, scheme) && i < j < |ms|
    ensures Parse(p, ms[i].version, scheme).Some? && Parse(p, ms[j].version, scheme).Some?
    ensures Parse(p, ms[i].version, scheme).value.normalized != Parse(p, ms[j].version, scheme).value.normalized
  {
    assert LabelFault(p, ms, scheme, i) == None && LabelFault(p, ms, scheme, j) == None;
    if SameLabel(p, ms, scheme, i, Parse(p, ms[j].version, scheme).value.normalized) {
    }
  }

  // ------------------------------------------------------------ predecessors

  predicate Before(p: Parser, scheme: Scheme, a: MemberDecision, b: MemberDecision) {
    Compare(p, a.version, b.version, scheme) == Some(-1)
  }

  /** What is wrong with the predecessor of member `k`. */
  ghost function PredecessorFault(p: Parser, ms: seq<MemberDecision>, scheme: Scheme, k: nat): Option<Error>
    requires k < |ms|
  {
    match ms[k].predecessor
    case None => None
    case Some(d) =>
      if !exists m :: m in ms && m.document == d && m.branch == ms[k].branch then Some(InvalidPredecessor)
      else if scheme != Opaque && !exists m :: m in ms && m.document == d && Before(p, scheme, m, ms[k]) then Some(InvalidOrder)
      else None
  }

  ghost predicate LinksUpTo(p: Parser, ms: seq<MemberDecision>, scheme: Scheme, n: nat)
    requires n <= |ms|
  {
    forall k :: 0 <= k < n ==> PredecessorFault(p, ms, scheme, k) == None
  }

  ghost predicate LinksOk(p: Parser, ms: seq<MemberDecision>, scheme: Scheme) {
    LinksUpTo(p, ms, scheme, |ms|)
  }

  /** The predecessor of each member, keyed by document. */
  function ParentsOf(ms: seq<MemberDecision>): (parent: Parents)
    requires Distinct(Ids(ms))
    ensures forall d :: d in parent <==> d in Ids(ms)
    ensures forall i {:trigger parent[ms[i].document]} :: 0 <= i < |ms| && ms[i].document in parent ==> parent[ms[i].document] == ms[i].predecessor
  {
    if ms == [] then map[]
    else
      var front := ms[..|ms| - 1];
      assert Ids(front) == Ids(ms)[..|ms| - 1];
      ParentsOf(front)[ms[|ms| - 1].document := ms[|ms| - 1].predecessor]
  }

  lemma LinksClosed(p: Parser, ms: seq<MemberDecision>, scheme: Scheme)
    requires Distinct(Ids(ms)) && LinksOk(p, ms, scheme)
    ensures Closed(ParentsOf(ms))
  {
    var parent := ParentsOf(ms);
    forall d | d in parent && parent[d].Some? ensures parent[d].value in parent {
      var k :| 0 <= k < |ms| && ms[k].document == d;
      assert PredecessorFault(p, ms, scheme, k) == None;
    }
  }

  /** Follows the predecessors from one member until they end or repeat. */
  method WalkBack(parent: Parents, start: string) returns (ends: bool)
    requires Closed(parent) && start in parent
    ensures ends ==> Ends(parent, start)
    ensures !ends ==> Cyclic(parent)
  {
    var seen: set<string> := {};
    var current := Some(start);
    ghost var n := 0;
    while current.Some?
      invariant current == Walk(parent, start, n)
      invariant forall d :: d in seen ==> exists i: nat :: i < n && Walk(parent, start, i) == Some(d)
      invariant seen <= parent.Keys
      decreases parent.Keys - seen, current.Some?
    {
      if current.value in seen {
        ghost var i: nat :| i < n && Walk(parent, start, i) == current;
        RepeatMakesCycle(parent, start, i, n);
        return false;
      }
      seen := seen + {current.value};
      WalkAdds(parent, start, n, 1);
      assert Walk(parent, current.value, 1) == parent[current.value] by {
        if parent[current.value].Some? {
          assert Walk(parent, parent[current.value].value, 0) == parent[current.value];
        }
      }
      current := parent[current.value];
      n := n + 1;
    }
    ends := true;
  }

  method CheckLink(p: Parser, ms: seq<MemberDecision>, scheme: Scheme, k: nat) returns (fault: Option<Error>)
    requires Distinct(Ids(ms)) && k < |ms|
    ensures fault == PredecessorFault(p, ms, scheme, k)
  {
    var member := ms[k];
    if member.predecessor == None {
      return None;
    }
    var found := Find(ms, member.predecessor.value);
    if found == None || found.value.branch != member.branch {
      return Some(InvalidPredecessor);
    }
    if scheme != Opaque && !Before(p, scheme, found.value, member) {
      return Some(InvalidOrder);
    }
    fault := None;
  }

  /** The walk always terminates, and rejects exactly the cyclic decisions among those whose
      links pass one by one. */
  method ValidatePredecessors(p: Parser, ms: seq<MemberDecision>, scheme: Scheme) returns (fault: Option<Error>)
    requires Distinct(Ids(ms))
    ensures !LinksOk(p, ms, scheme) ==> fault.Some? && exists k :: 0 <= k < |ms| && LinksUpTo(p, ms, scheme, k) && PredecessorFault(p, ms, scheme, k) == fault
    ensures LinksOk(p, ms, scheme) ==> Closed(ParentsOf(ms)) && fault == if Cyclic(ParentsOf(ms)) then Some(PredecessorCycle) else None
  {
    for k := 0 to |ms|
      invariant LinksUpTo(p, ms, scheme, k)
    {
      fault := CheckLink(p, ms, scheme, k);
      if fault.Some? {
        return;
      }
    }
    LinksClosed(p, ms, scheme);
    fault := CycleFault(ParentsOf(ms), Ids(ms));
  }

  method CycleFault(parent: Parents, starts: seq<string>) returns (fault: Option<Error>)
    requires Closed(parent) && forall d :: d in starts <==> d in parent
    ensures fault == if Cyclic(parent) then Some(PredecessorCycle) else None
  {
    for k := 0 to |starts|
      invariant forall i :: 0 <= i < k ==> Ends(parent, starts[i])
    {
      var ends := WalkBack(parent, starts[k]);
      if !ends {
        return Some(PredecessorCycle);
      }
    }
    AcyclicIffEnds(parent);
    fault := None;
  }

  /** The member with an identifier, if the decision lists it. */
  function Find(ms: seq<MemberDecision>, d: string): (r: Option<MemberDecision>)
    requires Distinct(Ids(ms))
    ensures forall m :: m in ms && m.document == d <==> r == Some(m)
  {
    if ms == [] then None
    else if ms[0].document == d then
      assert forall i :: 0 < i < |ms| ==> Ids(ms)[0] != Ids(ms)[i];
      Some(ms[0])
    else
      assert Ids(ms[1..]) == Ids(ms)[1..];
      assert ms == [ms[0]] + ms[1..];
      Find(ms[1..], d)
  }

  /** The order of two members named by their documents. */
  predicate BeforeById(p: Parser, ms: seq<MemberDecision>, scheme: Scheme, a: string, b: string)
    requires Distinct(Ids(ms))
  {
    var x, y := Find(ms, a), Find(ms, b);
    x.Some? && y.Some? && Before(p, scheme, x.value, y.value)
  }

  lemma LinkGoesBefore(p: Parser, ms: seq<MemberDecision>, scheme: Scheme, k: nat)
    requires Distinct(Ids(ms)) && LinksOk(p, ms, scheme) && scheme != Opaque && k < |ms| && ms[k].predecessor.Some?
    ensures BeforeById(p, ms, scheme, ms[k].predecessor.value, ms[k].document)
  {
    assert PredecessorFault(p, ms, scheme, k) == None;
    var b :| b in ms && b.document == ms[k].predecessor.value && Before(p, scheme, b, ms[k]);
    assert Find(ms, b.document) == Some(b) && Find(ms, ms[k].document) == Some(ms[k]);
  }

  lemma ByIdIsStrictOrder(p: Parser, ms: seq<MemberDecision>, scheme: Scheme, a: string, b: string, c: string)
    requires Sound(p) && Distinct(Ids(ms))
    ensures !BeforeById(p, ms, scheme, a, a)
    ensures BeforeById(p, ms, scheme, a, b) && BeforeById(p, ms, scheme, b, c) ==> BeforeById(p, ms, scheme, a, c)
  {
    var x, y, z := Find(ms, a), Find(ms, b), Find(ms, c);
    if x.Some? {
      BeforeIsStrictOrder(p, x.value.version, x.value.version, x.value.version, scheme);
      if y.Some? && z.Some? {
        BeforeIsStrictOrder(p, x.value.version, y.value.version, z.value.version, scheme);
      }
    }
  }

  lemma PointerGoesBefore(p: Parser, ms: seq<MemberDecision>, scheme: Scheme, d: string)
    requires Distinct(Ids(ms)) && LinksOk(p, ms, scheme) && scheme != Opaque
    requires d in ParentsOf(ms) && ParentsOf(ms)[d].Some?
    ensures BeforeById(p, ms, scheme, ParentsOf(ms)[d].value, d)
  {
    var k :| 0 <= k < |ms| && ms[k].document == d;
    LinkGoesBefore(p, ms, scheme, k);
  }

  /** `m` is what member `k` may name as its predecessor: of the same branch and, under an
      ordered scheme, an older version. */
  ghost predicate IsOlderNeighbour(p: Parser, ms: seq<MemberDecision>, scheme: Scheme, k: nat, m: MemberDecision)
    requires k < |ms|
  {
    && m in ms && Some(m.document) == ms[k].predecessor && m.branch == ms[k].branch
    && (scheme == Opaque
        || (var f, g := FieldsOf(p, m.version, scheme), FieldsOf(p, ms[k].version, scheme);
            f.Some? && g.Some? && p.normalize(m.version) != p.normalize(ms[k].version) && FieldsPrecede(f.value, g.value)))
  }

  /** The links of a decision pass exactly if every named predecessor is one of the listed
      members of the same branch and, under an ordered scheme, an older version. */
  lemma LinksGoBack(p: Parser, ms: seq<MemberDecision>, scheme: Scheme)
    requires Sound(p) && Distinct(Ids(ms))
    ensures LinksOk(p, ms, scheme) <==>
              forall k :: 0 <= k < |ms| && ms[k].predecessor.Some? ==> exists m :: IsOlderNeighbour(p, ms, scheme, k, m)
  {
    forall k | 0 <= k < |ms|
      ensures PredecessorFault(p, ms, scheme, k) == None <==> ms[k].predecessor == None || exists m :: IsOlderNeighbour(p, ms, scheme, k, m)
    {
      NeighbourIsOlder(p, ms, scheme, k);
    }
  }

  lemma NeighbourIsOlder(p: Parser, ms: seq<MemberDecision>, scheme: Scheme, k: nat)
    requires Sound(p) && Distinct(Ids(ms)) && k < |ms|
    ensures PredecessorFault(p, ms, scheme, k) == None <==> ms[k].predecessor == None || exists m :: IsOlderNeighbour(p, ms, scheme, k, m)
  {
    if ms[k].predecessor.Some? {
      var found := Find(ms, ms[k].predecessor.value);
      forall m | m in ms && m.document == ms[k].predecessor.value ensures found == Some(m) {}
      if found.Some? {
        CompareIsOrder(p, found.value.version, ms[k].version, scheme);
        assert IsOlderNeighbour(p, ms, scheme, k, found.value) <==>
                 found.value.branch == ms[k].branch && (scheme == Opaque || Before(p, scheme, found.value, ms[k]));
      }
    }
  }

  /** For the ordered schemes the comparison of neighbours alone rules out cycles. */
  lemma OrderRulesOutCycles(p: Parser, ms: seq<MemberDecision>, scheme: Scheme)
    requires Sound(p) && Distinct(Ids(ms)) && LinksOk(p, ms, scheme) && scheme != Opaque
    ensures Closed(ParentsOf(ms)) && !Cyclic(ParentsOf(ms))
  {
    LinksClosed(p, ms, scheme);
    var parent := ParentsOf(ms);
    var before := (a: string, b: string) => BeforeById(p, ms, scheme, a, b);
    assert Transitive(before) && forall d :: !before(d, d) by {
      forall a, b, c ensures !before(a, a) && (before(a, b) && before(b, c) ==> before(a, c)) {
        ByIdIsStrictOrder(p, ms, scheme, a, b, c);
      }
    }
    forall d {:trigger parent[d]} | d in parent && parent[d].Some? ensures before(parent[d].value, d) {
      PointerGoesBefore(p, ms, scheme, d);
    }
    OrderedIsAcyclic(parent, before);
  }

  // ------------------------------------------------------------ the transaction

  predicate HasMember(members: map<string, Member>, l: string) {
    exists m :: m in members && members[m].lineage == l
  }

  /** Every document has a membership, every membership a lineage, every lineage a member. */
  ghost predicate Partitioned(c: Catalog) {
    && c.documents.Keys == c.members.Keys
    && (forall m {:trigger c.members[m].lineage} :: m in c.members ==> c.members[m].lineage in c.lineages)
    && forall l {:trigger HasMember(c.members, l)} :: l in c.lineages ==> HasMember(c.members, l)
  }

  ghost predicate CurrentInside(c: Catalog, l: string)
    requires l in c.lineages
  {
    var current := c.lineages[l].current;
    current.Some? ==> current.value in c.members && c.members[current.value].lineage == l
  }

  ghost predicate CurrentsInside(c: Catalog) {
    forall l :: l in c.lineages ==> CurrentInside(c, l)
  }

  function Touched(c: Catalog, ms: seq<MemberDecision>): set<string> {
    set m | m in Ids(ms) && m in c.members :: c.members[m].lineage
  }

  function TouchedRevisions(c: Catalog, ms: seq<MemberDecision>): set<nat> {
    set l | l in Touched(c, ms) && l in c.lineages :: c.lineages[l].revision
  }

  predicate Earlier(c: Catalog, a: string, b: string)
    requires a in c.documents && b in c.documents
  {
    StringLess(c.documents[a].created, c.documents[b].created) || (c.documents[a].created == c.documents[b].created && StringLess(a, b))
  }

  function Oldest(c: Catalog, ids: seq<string>): (d: string)
    requires ids != [] && forall d :: d in ids ==> d in c.documents
    ensures d in ids
  {
    if |ids| == 1 then ids[0]
    else
      var rest := Oldest(c, ids[1..]);
      if Earlier(c, rest, ids[0]) then rest else ids[0]
  }

  lemma EarlierOrder(c: Catalog, a: string, b: string, x: string)
    requires a in c.documents && b in c.documents && x in c.documents
    ensures Earlier(c, a, b) ==> !Earlier(c, b, a)
    ensures Earlier(c, x, a) && !Earlier(c, x, b) ==> Earlier(c, b, a)
  {
    var s, t, u := c.documents[a].created, c.documents[b].created, c.documents[x].created;
    Asymmetric(s, t);
    Asymmetric(a, b);
    Between(u, s, t);
    Between(x, a, b);
    Asymmetric(u, t);
    StringLessTotal(u, t);
  }

  lemma Asymmetric(a: string, b: string)
    ensures !(StringLess(a, b) && StringLess(b, a)) && !StringLess(a, a)
  {
    StringLessIrreflexive(a);
    if StringLess(a, b) && StringLess(b, a) {
      StringLessTransitive(a, b, a);
    }
  }

  lemma Between(x: string, a: string, b: string)
    ensures StringLess(x, a) && !StringLess(x, b) ==> StringLess(b, a)
    ensures StringLess(b, x) && StringLess(x, a) ==> StringLess(b, a)
  {
    StringLessTotal(x, b);
    if StringLess(b, x) && StringLess(x, a) {
      StringLessTransitive(b, x, a);
    }
  }

  /** No listed document is older than the one that names the lineage. */
  lemma {:induction false} OldestIsFirst(c: Catalog, ids: seq<string>, x: string)
    requires ids != [] && x in ids && forall d :: d in ids ==> d in c.documents
    ensures !Earlier(c, x, Oldest(c, ids))
  {
    if |ids| == 1 {
      Asymmetric(x, x);
      Asymmetric(c.documents[x].created, x);
    } else {
      var rest := Oldest(c, ids[1..]);
      assert ids == [ids[0]] + ids[1..];
      if x in ids[1..] {
        OldestIsFirst(c, ids[1..], x);
      }
      EarlierOrder(c, rest, ids[0], ids[0]);
      EarlierOrder(c, ids[0], rest, x);
      EarlierOrder(c, x, x, x);
    }
  }

  /** A decision without a lineage goes to the lineage of its oldest document. */
  function Target(c: Catalog, d: Decision): string
    requires d.members != [] && Partitioned(c) && AllAvailable(c, d)
  {
    if d.lineage.Some? && d.lineage.value != "" then d.lineage.value
    else c.members[Oldest(c, Ids(d.members))].lineage
  }

  /** The decision goes where it says; otherwise to the lineage of the listed document created
      first, the smallest identifier deciding between equally old ones. */
  lemma TargetMeans(c: Catalog, d: Decision)
    requires d.members != [] && Partitioned(c) && AllAvailable(c, d)
    ensures d.lineage.Some? && d.lineage.value != "" ==> Target(c, d) == d.lineage.value
    ensures d.lineage == None || d.lineage.value == "" ==>
              exists x :: x in Ids(d.members) && c.members[x].lineage == Target(c, d) && IsOldest(c, d, x)
  {
    var x := Oldest(c, Ids(d.members));
    forall y | y in Ids(d.members) ensures !Earlier(c, y, x) {
      OldestIsFirst(c, Ids(d.members), y);
    }
    forall y | y in Ids(d.members) ensures StringAtMost(c.documents[x].created, c.documents[y].created)
      && (c.documents[x].created == c.documents[y].created ==> StringAtMost(x, y)) {}
  }

  ghost predicate IsOldest(c: Catalog, d: Decision, x: string) {
    forall y :: y in Ids(d.members) && x in c.documents && y in c.documents ==>
      && StringAtMost(c.documents[x].created, c.documents[y].created)
      && (c.documents[x].created == c.documents[y].created ==> StringAtMost(x, y))
  }

  predicate AllAvailable(c: Catalog, d: Decision) {
    forall m :: m in Ids(d.members) ==> m in c.documents && c.documents[m].available
  }

  predicate CurrentOk(d: Decision) {
    exists m :: m in d.members && m.document == d.current && m.kind == FullSnapshot
  }

  ghost predicate Acyclic(ms: seq<MemberDecision>)
    requires Distinct(Ids(ms))
  {
    Closed(ParentsOf(ms)) && !Cyclic(ParentsOf(ms))
  }

  predicate RevisionsOk(c: Catalog, d: Decision) {
    d.expected == map[] || d.expected == map l | l in Touched(c, d.members) && l in c.lineages :: c.lineages[l].revision
  }

  function AliasNames(rules: Rules, c: Catalog, d: Decision): set<string> {
    {rules.strip(d.name)} + d.aliases + set m | m in Ids(d.members) && m in c.documents :: c.documents[m].name
  }

  predicate AliasesClash(rules: Rules, names: set<string>) {
    exists a, b :: a in names && b in names && a != b && rules.normalize(a) == rules.normalize(b) != ""
  }

  /** What the transaction checks, in its order; each stage includes the ones before. */
  ghost predicate Passes(rules: Rules, c: Catalog, d: Decision, stage: nat)
    requires Partitioned(c)
  {
    && (stage >= 1 ==> rules.strip(d.name) != "" && d.members != [] && Distinct(Ids(d.members)))
    && (stage >= 2 ==> AllAvailable(c, d))
    && (stage >= 3 ==> CurrentOk(d))
    && (stage >= 4 ==> LabelsOk(rules.parser, d.members, d.scheme))
    && (stage >= 5 ==> LinksOk(rules.parser, d.members, d.scheme))
    && (stage >= 6 ==> Acyclic(d.members))
    && (stage >= 7 ==> RevisionsOk(c, d))
    && (stage >= 8 ==> (Target(c, d) in Touched(c, d.members) || Target(c, d) !in c.lineages) && !AliasesClash(rules, AliasNames(rules, c, d)))
  }

  ghost predicate Acceptable(rules: Rules, c: Catalog, d: Decision)
    requires Partitioned(c)
  {
    Passes(rules, c, d, 8)
  }

  /** The stage at which an error is raised. */
  function StageOf(e: Error): nat {
    match e
    case InvalidLineage => 1
    case CandidateUnavailable => 2
    case InvalidCurrent => 3
    case InvalidLabel | LabelConflict => 4
    case InvalidPredecessor | InvalidOrder => 5
    case PredecessorCycle => 6
    case RevisionConflict => 7
    case Integrity => 8
  }

  /** Label and predecessor errors are those of the first offending member. */
  ghost predicate FirstFault(p: Parser, d: Decision, e: Error) {
    match StageOf(e)
    case 4 => exists k :: 0 <= k < |d.members| && LabelsUpTo(p, d.members, d.scheme, k) && LabelFault(p, d.members, d.scheme, k) == Some(e)
    case 5 => exists k :: 0 <= k < |d.members| && LinksUpTo(p, d.members, d.scheme, k) && PredecessorFault(p, d.members, d.scheme, k) == Some(e)
    case _ => true
  }

  /** The membership row a confirmed member gets. */
  function RowOf(rules: Rules, d: Decision, m: MemberDecision, target: string): (row: Member)
    ensures row.lineage == target
  {
    var parsed := Parse(rules.parser, m.version, d.scheme);
    var branch := rules.strip(m.branch);
    Member(target, Some(rules.strip(m.version)), if parsed.Some? then Some(parsed.value.normalized) else None,
           Some(if branch == "" then "main" else branch), m.predecessor, m.kind)
  }

  function RowsOf(rules: Rules, d: Decision, target: string): (rows: seq<Member>)
    ensures |rows| == |d.members| && forall i :: 0 <= i < |rows| ==> rows[i].lineage == target
  {
    seq(|d.members|, i requires 0 <= i < |d.members| => RowOf(rules, d, d.members[i], target))
  }

  ghost predicate HasRow(ms: seq<MemberDecision>, wanted: seq<Member>, i: nat, rows: map<string, Member>)
    requires i < |ms| == |wanted|
  {
    ms[i].document in rows && rows[ms[i].document] == wanted[i]
  }

  /** The first `n` members of the decision have their new rows. */
  ghost predicate Moved(before: map<string, Member>, ms: seq<MemberDecision>, wanted: seq<Member>, n: nat, rows: map<string, Member>)
    requires n <= |ms| == |wanted|
  {
    && rows.Keys == before.Keys
    && (forall i {:trigger HasRow(ms, wanted, i, rows)} :: 0 <= i < n ==> HasRow(ms, wanted, i, rows))
    && forall m :: m in rows && !Lists(ms, n, m) ==> rows[m] == before[m]
  }

  /** The tables after the decision committed. */
  ghost predicate Confirms(rules: Rules, c: Catalog, d: Decision, after: Catalog)
    requires Partitioned(c) && AllAvailable(c, d) && d.members != []
  {
    var target, touched := Target(c, d), Touched(c, d.members);
    && after.documents == c.documents
    && Moved(c.members, d.members, RowsOf(rules, d, target), |d.members|, after.members)
    && (forall l {:trigger l in after.lineages} :: l in after.lineages <==> l == target || (l in c.lineages && (l in touched ==> HasMember(after.members, l))))
    && (forall l :: l in after.lineages && l != target ==> after.lineages[l] == c.lineages[l])
    && IsNext(TouchedRevisions(c, d.members), 1, after.lineages[target].revision)
    && after.lineages[target] == Lineage(
                                   rules.strip(d.name), Confirmed, d.scheme, Some(d.current), after.lineages[target].revision,
                                   set a | a in AliasNames(rules, c, d) && rules.normalize(a) != "")
  }

  /** The labels of a decision: all of the scheme, and no two alike. */
  ghost predicate LabelsApart(p: Parser, ms: seq<MemberDecision>, scheme: Scheme) {
    && (forall k :: 0 <= k < |ms| ==> FieldsOf(p, ms[k].version, scheme).Some?)
    && forall j, k :: 0 <= j < k < |ms| ==> p.normalize(ms[j].version) != p.normalize(ms[k].version)
  }

  lemma LabelsOkIff(p: Parser, ms: seq<MemberDecision>, scheme: Scheme)
    ensures LabelsOk(p, ms, scheme) <==> LabelsApart(p, ms, scheme)
  {
    if LabelsOk(p, ms, scheme) {
      forall k | 0 <= k < |ms| ensures FieldsOf(p, ms[k].version, scheme).Some? {
        assert LabelFault(p, ms, scheme, k) == None;
      }
      forall j, k | 0 <= j < k < |ms| ensures p.normalize(ms[j].version) != p.normalize(ms[k].version) {
        LabelsDistinct(p, ms, scheme, j, k);
      }
    }
    if LabelsApart(p, ms, scheme) {
      forall k | 0 <= k < |ms| ensures LabelFault(p, ms, scheme, k) == None {
        assert FieldsOf(p, ms[k].version, scheme).Some?;
      }
    }
  }

  /** The decision expects the revision of every lineage it touches, and of no other. */
  ghost predicate ExpectsAll(c: Catalog, d: Decision)
    requires Partitioned(c)
  {
    && (forall m :: m in d.members && m.document in c.members ==>
          var l := c.members[m.document].lineage; l in d.expected && d.expected[l] == c.lineages[l].revision)
    && forall l :: l in d.expected ==> exists m :: m in d.members && m.document in c.members && c.members[m.document].lineage == l
  }

  lemma RevisionsOkIff(c: Catalog, d: Decision)
    requires Partitioned(c)
    ensures RevisionsOk(c, d) <==> d.expected == map[] || ExpectsAll(c, d)
  {
    forall l ensures l in Touched(c, d.members) <==> exists m :: m in d.members && m.document in c.members && c.members[m.document].lineage == l {
      if m :| m in d.members && m.document in c.members && c.members[m.document].lineage == l {
        var i :| 0 <= i < |d.members| && d.members[i] == m;
        assert Ids(d.members)[i] == m.document;
      }
      if x :| x in Ids(d.members) && x in c.members && c.members[x].lineage == l {
        var i :| 0 <= i < |d.members| && Ids(d.members)[i] == x;
        assert d.members[i] in d.members;
      }
    }
    if ExpectsAll(c, d) {
      assert d.expected == map l | l in Touched(c, d.members) && l in c.lineages :: c.lineages[l].revision;
    }
  }

  /** What a committed decision leaves in the rows of its members and of its lineage. */
  lemma ConfirmedRows(rules: Rules, c: Catalog, d: Decision, after: Catalog, m: MemberDecision)
    requires Partitioned(c) && Acceptable(rules, c, d) && Confirms(rules, c, d, after) && m in d.members
    ensures m.document in after.members
    ensures var row, branch := after.members[m.document], rules.strip(m.branch);
            && row.lineage == Target(c, d)
            && row.version == Some(rules.strip(m.version)) && row.normalized == Some(rules.parser.normalize(m.version))
            && row.branch == Some(if branch != "" then branch else "main")
            && row.predecessor == m.predecessor && row.kind == m.kind
  {
    var k :| 0 <= k < |d.members| && d.members[k] == m;
    assert LabelFault(rules.parser, d.members, d.scheme, k) == None;
    assert HasRow(d.members, RowsOf(rules, d, Target(c, d)), k, after.members);
  }

  /** What it leaves in the row of its lineage, and in those of all other documents. */
  lemma ConfirmedLineage(rules: Rules, c: Catalog, d: Decision, after: Catalog, x: string)
    requires Partitioned(c) && Acceptable(rules, c, d) && Confirms(rules, c, d, after) && x in c.members
    ensures after.documents == c.documents && x in after.members && Target(c, d) in after.lineages
    ensures var row := after.lineages[Target(c, d)];
            row.name == rules.strip(d.name) && row.state == Confirmed && row.scheme == d.scheme && row.current == Some(d.current)
    ensures (forall m :: m in d.members ==> m.document != x) ==> after.members[x] == c.members[x]
  {
    if !Lists(d.members, |d.members|, x) {
      assert after.members[x] == c.members[x];
    }
  }

  lemma ListedIds(ms: seq<MemberDecision>, x: string)
    ensures x in Ids(ms) <==> exists m :: m in ms && m.document == x
  {
    if m :| m in ms && m.document == x {
      var i :| 0 <= i < |ms| && ms[i] == m;
      assert Ids(ms)[i] == x;
    }
    if x in Ids(ms) {
      var i :| 0 <= i < |ms| && Ids(ms)[i] == x;
      assert ms[i] in ms;
    }
  }

  /** A name the confirmed lineage is known by. */
  ghost predicate IsAliasName(rules: Rules, c: Catalog, d: Decision, alias: string) {
    || alias == rules.strip(d.name) || alias in d.aliases
    || exists m :: m in d.members && m.document in c.documents && c.documents[m.document].name == alias
  }

  lemma AliasNamesAre(rules: Rules, c: Catalog, d: Decision, alias: string)
    ensures alias in AliasNames(rules, c, d) <==> IsAliasName(rules, c, d, alias)
  {
    if x :| x in Ids(d.members) && x in c.documents && c.documents[x].name == alias {
      ListedIds(d.members, x);
    }
    if m :| m in d.members && m.document in c.documents && c.documents[m.document].name == alias {
      ListedIds(d.members, m.document);
    }
  }

  /** The aliases of the confirmed lineage are its names as far as they normalise to anything. */
  lemma ConfirmedAliases(rules: Rules, c: Catalog, d: Decision, after: Catalog, alias: string)
    requires Partitioned(c) && d.members != [] && AllAvailable(c, d) && Confirms(rules, c, d, after)
    ensures alias in after.lineages[Target(c, d)].aliases <==> rules.normalize(alias) != "" && IsAliasName(rules, c, d, alias)
  {
    AliasNamesAre(rules, c, d, alias);
    var names := AliasNames(rules, c, d);
    assert after.lineages[Target(c, d)].aliases == set a | a in names && rules.normalize(a) != "";
  }

  // ------------------------------------------------------------ what is accepted

  /** Distinct available documents, one of them current as a full snapshot. */
  ghost predicate ListsDocuments(c: Catalog, d: Decision) {
    && (forall i, j :: 0 <= i < j < |d.members| ==> d.members[i].document != d.members[j].document)
    && (forall m :: m in d.members ==> m.document in c.documents && c.documents[m.document].available)
    && exists m :: m in d.members && m.document == d.current && m.kind == FullSnapshot
  }

  lemma ListsDocumentsIff(c: Catalog, d: Decision)
    ensures ListsDocuments(c, d) <==> Distinct(Ids(d.members)) && AllAvailable(c, d) && CurrentOk(d)
  {
    forall m | m in d.members ensures m.document in Ids(d.members) {
      ListedIds(d.members, m.document);
    }
    forall x | x in Ids(d.members) ensures exists m :: m in d.members && m.document == x {
      ListedIds(d.members, x);
    }
    assert forall i :: 0 <= i < |d.members| ==> Ids(d.members)[i] == d.members[i].document;
  }

  /** No two names the lineage is known by normalise alike. */
  ghost predicate NamesApart(rules: Rules, c: Catalog, d: Decision) {
    forall a, b :: IsAliasName(rules, c, d, a) && IsAliasName(rules, c, d, b) && rules.normalize(a) == rules.normalize(b) != "" ==> a == b
  }

  lemma NamesApartIff(rules: Rules, c: Catalog, d: Decision)
    ensures NamesApart(rules, c, d) <==> !AliasesClash(rules, AliasNames(rules, c, d))
  {
    forall a ensures a in AliasNames(rules, c, d) <==> IsAliasName(rules, c, d, a) {
      AliasNamesAre(rules, c, d, a);
    }
  }

  /** The lineage the decision names is new, or that of a listed document. */
  ghost predicate TargetFits(c: Catalog, d: Decision) {
    d.lineage.Some? && d.lineage.value != "" && d.lineage.value in c.lineages ==>
      exists m :: m in d.members && m.document in c.members && c.members[m.document].lineage == d.lineage.value
  }

  lemma TargetFitsIff(c: Catalog, d: Decision)
    requires d.members != [] && Partitioned(c) && AllAvailable(c, d)
    ensures TargetFits(c, d) <==> Target(c, d) in Touched(c, d.members) || Target(c, d) !in c.lineages
  {
    forall x ensures x in Ids(d.members) <==> exists m :: m in d.members && m.document == x {
      ListedIds(d.members, x);
    }
    if d.lineage == None || d.lineage == Some("") {
      assert Target(c, d) in Touched(c, d.members);
    }
  }

  /** Exactly these decisions commit: a name, distinct available documents with a full snapshot
      as current one, different labels of the scheme, predecessors that are older members of the
      same branch and never run in a circle, no expected revisions or exactly the stored ones,
      a fitting lineage, and names that normalise apart. */
  lemma AcceptableIff(rules: Rules, c: Catalog, d: Decision)
    requires Partitioned(c) && Sound(rules.parser)
    ensures Acceptable(rules, c, d) <==>
              && rules.strip(d.name) != "" && d.members != [] && ListsDocuments(c, d)
              && LabelsApart(rules.parser, d.members, d.scheme)
              && (forall k :: 0 <= k < |d.members| && d.members[k].predecessor.Some? ==> exists m :: IsOlderNeighbour(rules.parser, d.members, d.scheme, k, m))
              && Distinct(Ids(d.members)) && Acyclic(d.members)
              && (d.expected == map[] || ExpectsAll(c, d)) && TargetFits(c, d) && NamesApart(rules, c, d)
  {
    ListsDocumentsIff(c, d);
    LabelsOkIff(rules.parser, d.members, d.scheme);
    NamesApartIff(rules, c, d);
    RevisionsOkIff(c, d);
    if d.members != [] && ListsDocuments(c, d) {
      TargetFitsIff(c, d);
      LinksGoBack(rules.parser, d.members, d.scheme);
    }
  }

  class CatalogTables {
    var documents: map<string, Document>
    var lineages: map<string, Lineage>
    var members: map<string, Member>

    ghost function Tables(): Catalog
      reads this
    {
      Catalog(documents, lineages, members)
    }

    method Confirm(rules: Rules, d: Decision) returns (r: Result<string, Error>)
      requires Partitioned(Tables())
      modifies this
      ensures Transacted(rules, old(Tables()), d, r, Tables())
    {
      var after;
      r, after := Transact(rules, Catalog(documents, lineages, members), d);
      lineages, members := after.lineages, after.members;
    }
  }

  /** One transaction: an error is the first stage that fails and leaves the tables as they
      were. */
  ghost predicate Transacted(rules: Rules, c: Catalog, d: Decision, r: Result<string, Error>, after: Catalog)
    requires Partitioned(c)
  {
    match r
    case Err(e) => after == c && FirstFault(rules.parser, d, e) && Passes(rules, c, d, StageOf(e) - 1) && !Passes(rules, c, d, StageOf(e))
    case Ok(target) => Acceptable(rules, c, d) && target == Target(c, d) && Confirms(rules, c, d, after)
  }

  method Transact(rules: Rules, c: Catalog, d: Decision) returns (r: Result<string, Error>, after: Catalog)
    requires Partitioned(c)
    ensures Transacted(rules, c, d, r, after)
  {
    var fault := Validate(rules, c, d);
    if fault.Some? {
      return Err(fault.value), c;
    }
    var target := Target(c, d);
    if target !in Touched(c, d.members) && target in c.lineages {
      return Err(Integrity), c;
    }
    if AliasesClash(rules, AliasNames(rules, c, d)) {
      return Err(Integrity), c;
    }
    MembersReady(rules, c, d);
    after := Apply(rules, c, d, target);
    r := Ok(target);
  }

  lemma MembersReady(rules: Rules, c: Catalog, d: Decision)
    requires Partitioned(c) && AllAvailable(c, d) && LabelsOk(rules.parser, d.members, d.scheme)
    ensures forall m :: m in d.members ==> m.document in c.members && Parse(rules.parser, m.version, d.scheme).Some?
  {
    forall m | m in d.members ensures m.document in c.members && Parse(rules.parser, m.version, d.scheme).Some? {
      var k :| 0 <= k < |d.members| && d.members[k] == m;
      assert LabelFault(rules.parser, d.members, d.scheme, k) == None;
      assert Ids(d.members)[k] == m.document;
    }
  }

  method Apply(rules: Rules, c: Catalog, d: Decision, target: string) returns (after: Catalog)
    requires Partitioned(c) && AllAvailable(c, d) && d.members != [] && target == Target(c, d)
    requires Distinct(Ids(d.members)) && forall m :: m in d.members ==> m.document in c.members && Parse(rules.parser, m.version, d.scheme).Some?
    ensures Confirms(rules, c, d, after)
  {
    var touched := Touched(c, d.members);
    var revision := NextAfter(TouchedRevisions(c, d.members), 1);
    var rows := MoveMembers(rules, c, d, target);
    var names := AliasNames(rules, c, d);
    var aliases := set a | a in names && rules.normalize(a) != "";
    var kept := map l | l in c.lineages && (l in touched ==> HasMember(rows, l)) :: c.lineages[l];
    var row := Lineage(rules.strip(d.name), Confirmed, d.scheme, Some(d.current), revision, aliases);
    after := Catalog(c.documents, kept[target := row], rows);
  }

  method Validate(rules: Rules, c: Catalog, d: Decision) returns (fault: Option<Error>)
    requires Partitioned(c)
    ensures fault == None ==> Passes(rules, c, d, 7)
    ensures fault.Some? ==> StageOf(fault.value) <= 7 && FirstFault(rules.parser, d, fault.value)
    ensures fault.Some? ==> Passes(rules, c, d, StageOf(fault.value) - 1) && !Passes(rules, c, d, StageOf(fault.value))
  {
    var ids := Ids(d.members);
    if rules.strip(d.name) == "" || d.members == [] || !(forall i, j :: 0 <= i < j < |ids| ==> ids[i] != ids[j]) {
      return Some(InvalidLineage);
    }
    if !AllAvailable(c, d) {
      return Some(CandidateUnavailable);
    }
    if !CurrentOk(d) {
      return Some(InvalidCurrent);
    }
    fault := ParseLabels(rules.parser, d.members, d.scheme);
    if fault.Some? {
      return;
    }
    fault := ValidatePredecessors(rules.parser, d.members, d.scheme);
    if fault.Some? {
      return;
    }
    if !RevisionsOk(c, d) {
      return Some(RevisionConflict);
    }
  }

  method MoveMembers(rules: Rules, c: Catalog, d: Decision, target: string) returns (rows: map<string, Member>)
    requires Distinct(Ids(d.members)) && forall m :: m in d.members ==> m.document in c.members
    ensures Moved(c.members, d.members, RowsOf(rules, d, target), |d.members|, rows)
  {
    rows := c.members;
    for i := 0 to |d.members|
      invariant Moved(c.members, d.members, RowsOf(rules, d, target), i, rows)
    {
      var m := d.members[i];
      MovedStep(c.members, d.members, RowsOf(rules, d, target), i, rows);
      rows := rows[m.document := RowOf(rules, d, m, target)];
    }
  }

  lemma MovedStep(before: map<string, Member>, ms: seq<MemberDecision>, wanted: seq<Member>, i: nat, rows: map<string, Member>)
    requires i < |ms| == |wanted| && Distinct(Ids(ms)) && ms[i].document in before
    requires Moved(before, ms, wanted, i, rows)
    ensures Moved(before, ms, wanted, i + 1, rows[ms[i].document := wanted[i]])
  {
    var after := rows[ms[i].document := wanted[i]];
    forall j | 0 <= j < i ensures ms[j].document != ms[i].document {
      assert Ids(ms)[j] != Ids(ms)[i];
    }
    forall j | 0 <= j <= i ensures HasRow(ms, wanted, j, after) {
      assert j < i ==> HasRow(ms, wanted, j, rows);
    }
    forall m | m in after && !Lists(ms, i + 1, m) ensures after[m] == before[m] {
      assert m != ms[i].document && !Lists(ms, i, m);
    }
  }

  // ------------------------------------------------------------ what a commit keeps

  /** A decision seen from the lineages: which documents move where, and the new current one. */
  datatype Move = Move(ids: set<string>, target: string, current: string)

  function MoveOf(c: Catalog, d: Decision): Move
    requires d.members != [] && Partitioned(c) && AllAvailable(c, d)
  {
    Move((set m | m in Ids(d.members)), Target(c, d), d.current)
  }

  ghost predicate Touches(c: Catalog, v: Move, l: string) {
    exists m :: m in v.ids && m in c.members && c.members[m].lineage == l
  }

  /** What the move does to memberships, current documents and revisions. */
  ghost predicate Moves(c: Catalog, v: Move, after: Catalog)
    requires Partitioned(c)
  {
    && v.current in v.ids && v.ids <= c.members.Keys
    && (v.target in c.lineages ==> Touches(c, v, v.target))
    && after.documents == c.documents && after.members.Keys == c.members.Keys
    && (forall m :: m in c.members ==> after.members[m].lineage == if m in v.ids then v.target else c.members[m].lineage)
    && (forall m :: m in c.members && m !in v.ids ==> after.members[m] == c.members[m])
    && (forall l {:trigger l in after.lineages} :: l in after.lineages <==> l == v.target || (l in c.lineages && (Touches(c, v, l) ==> HasMember(after.members, l))))
    && (forall l :: l in after.lineages && l != v.target ==> after.lineages[l] == c.lineages[l])
    && after.lineages[v.target].current == Some(v.current)
    && forall m :: m in v.ids ==> c.lineages[c.members[m].lineage].revision < after.lineages[v.target].revision
  }

  lemma MovedLineages(before: map<string, Member>, ms: seq<MemberDecision>, wanted: seq<Member>, rows: map<string, Member>, target: string)
    requires |ms| == |wanted| && Moved(before, ms, wanted, |ms|, rows)
    requires forall i :: 0 <= i < |ms| ==> wanted[i].lineage == target
    ensures forall m :: m in rows && m in Ids(ms) ==> rows[m].lineage == target
    ensures forall m :: m in rows && m !in Ids(ms) ==> rows[m] == before[m]
  {
    forall m | m in rows && m !in Ids(ms) ensures rows[m] == before[m] {
      assert !Lists(ms, |ms|, m) by {
        forall i | 0 <= i < |ms| ensures ms[i].document != m {
          assert Ids(ms)[i] in Ids(ms);
        }
      }
    }
    forall m | m in rows && m in Ids(ms) ensures rows[m].lineage == target {
      var i :| 0 <= i < |ms| && Ids(ms)[i] == m;
      assert HasRow(ms, wanted, i, rows);
    }
  }

  lemma CurrentListed(d: Decision)
    requires CurrentOk(d)
    ensures d.current in Ids(d.members)
  {
    var i :| 0 <= i < |d.members| && d.members[i].document == d.current;
    assert Ids(d.members)[i] == d.current;
  }

  lemma RevisionAbove(c: Catalog, d: Decision, n: nat, m: string)
    requires Partitioned(c) && m in Ids(d.members) && m in c.members
    requires IsNext(TouchedRevisions(c, d.members), 1, n)
    ensures c.lineages[c.members[m].lineage].revision < n
  {
    assert c.members[m].lineage in Touched(c, d.members);
    assert c.lineages[c.members[m].lineage].revision in TouchedRevisions(c, d.members);
  }

  lemma TouchedTouches(c: Catalog, d: Decision, l: string)
    requires d.members != [] && Partitioned(c) && AllAvailable(c, d)
    ensures l in Touched(c, d.members) <==> Touches(c, MoveOf(c, d), l)
  {
  }

  /** A committed decision is such a move. */
  lemma ConfirmMoves(rules: Rules, c: Catalog, d: Decision, after: Catalog)
    requires Partitioned(c) && d.members != [] && AllAvailable(c, d) && CurrentOk(d) && Confirms(rules, c, d, after)
    requires Target(c, d) in Touched(c, d.members) || Target(c, d) !in c.lineages
    ensures Moves(c, MoveOf(c, d), after)
  {
    MovedLineages(c.members, d.members, RowsOf(rules, d, Target(c, d)), after.members, Target(c, d));
    CurrentListed(d);
    forall m | m in Ids(d.members) ensures c.lineages[c.members[m].lineage].revision < after.lineages[Target(c, d)].revision {
      RevisionAbove(c, d, after.lineages[Target(c, d)].revision, m);
    }
    forall l ensures l in Touched(c, d.members) <==> Touches(c, MoveOf(c, d), l) {
      TouchedTouches(c, d, l);
    }
  }

  /** Lineages stay a partition of the documents without an empty lineage. */
  lemma MoveKeepsPartition(c: Catalog, v: Move, after: Catalog)
    requires Partitioned(c) && Moves(c, v, after)
    ensures Partitioned(after)
  {
    forall m | m in after.members ensures after.members[m].lineage in after.lineages {
      if m !in v.ids {
        assert HasMember(after.members, c.members[m].lineage) by { assert after.members[m].lineage == c.members[m].lineage; }
      }
    }
    forall l | l in after.lineages ensures HasMember(after.members, l) {
      if l == v.target {
        assert after.members[v.current].lineage == l;
      } else if !Touches(c, v, l) {
        assert HasMember(c.members, l);
        var m :| m in c.members && c.members[m].lineage == l;
        assert after.members[m].lineage == l;
      }
    }
  }

  ghost predicate KeepsMember(c: Catalog, v: Move, l: string) {
    exists m :: m in c.members && c.members[m].lineage == l && m !in v.ids
  }

  /** The move takes the current document of `l` away while `l` keeps other members. */
  ghost predicate Strands(c: Catalog, v: Move, l: string) {
    && l in c.lineages && l != v.target && KeepsMember(c, v, l)
    && c.lineages[l].current.Some? && c.lineages[l].current.value in v.ids
  }

  lemma RemainsIffKeeps(c: Catalog, v: Move, after: Catalog, l: string)
    requires Partitioned(c) && Moves(c, v, after) && l != v.target
    ensures l in after.lineages <==> l in c.lineages && KeepsMember(c, v, l)
  {
    MoveKeepsPartition(c, v, after);
    if l in after.lineages {
      assert HasMember(after.members, l);
      var m :| m in after.members && after.members[m].lineage == l;
      assert m in c.members && m !in v.ids;
    }
    if l in c.lineages && KeepsMember(c, v, l) {
      var m :| m in c.members && c.members[m].lineage == l && m !in v.ids;
      assert after.members[m].lineage == l;
    }
  }

  /** Current documents stay inside their lineages exactly when none is stranded. */
  lemma CurrentsStayInside(c: Catalog, v: Move, after: Catalog)
    requires Partitioned(c) && CurrentsInside(c) && Moves(c, v, after)
    ensures CurrentsInside(after) <==> forall l :: !Strands(c, v, l)
  {
    forall l | Strands(c, v, l) ensures l in after.lineages && !CurrentInside(after, l) {
      RemainsIffKeeps(c, v, after, l);
    }
    forall l | l in after.lineages && !Strands(c, v, l) ensures CurrentInside(after, l) {
      if l != v.target {
        RemainsIffKeeps(c, v, after, l);
        assert CurrentInside(c, l);
      }
    }
  }

  /** A decision the transaction accepts and that strands a current document: of two versions
      in lineage `a`, the current one moves to a lineage of its own. */
  lemma StrandingDecision(rules: Rules, c: Catalog, d: Decision)
    requires rules.strip("Other") == "Other" && rules.normalize("Other") != rules.normalize("two")
    requires Parse(rules.parser, "2", Opaque).Some?
    requires IsTwoVersions(c) && d == Decision("Other", Opaque, [MemberDecision("b", "2", "main", None, FullSnapshot)], "b", {}, Some("new"), map["a" := 2])
    ensures Partitioned(c) && CurrentsInside(c) && Acceptable(rules, c, d) && Strands(c, MoveOf(c, d), "a")
  {
    TwoVersions(c);
    OnlySecond(c, d);
    AloneIsSound(rules.parser, d.members);
    assert Target(c, d) == "new";
    assert c.members["a"].lineage == "a" && "a" !in Ids(d.members);
    assert KeepsMember(c, MoveOf(c, d), "a");
  }

  lemma OnlySecond(c: Catalog, d: Decision)
    requires IsTwoVersions(c) && d.members == [MemberDecision("b", "2", "main", None, FullSnapshot)] && d.current == "b"
    ensures Ids(d.members) == ["b"] && Touched(c, d.members) == {"a"} && CurrentOk(d)
  {
    assert Ids(d.members) == ["b"];
    assert c.members["b"].lineage == "a";
    assert d.members[0] in d.members;
  }

  ghost predicate IsSecondOnly(rules: Rules, c: Catalog, d: Decision) {
    && rules.strip("Spec") == "Spec" && rules.normalize("Spec") != rules.normalize("two") && Parse(rules.parser, "2", Opaque).Some?
    && IsTwoVersions(c)
    && d == Decision("Spec", Opaque, [MemberDecision("b", "2", "main", None, FullSnapshot)], "b", {}, None, map["a" := 2])
  }

  lemma SecondOnlyAccepted(rules: Rules, c: Catalog, d: Decision)
    requires IsSecondOnly(rules, c, d)
    ensures Partitioned(c) && Acceptable(rules, c, d) && Target(c, d) == "a"
  {
    TwoVersions(c);
    OnlySecond(c, d);
    AloneIsSound(rules.parser, d.members);
    assert Oldest(c, Ids(d.members)) == "b";
  }

  /** A decision the transaction accepts and whose lineage nobody finds afterwards: it lists
      only the second of two versions and keeps their lineage as its target. */
  lemma UnfoundDecision(rules: Rules, c: Catalog, d: Decision, after: Catalog)
    requires IsSecondOnly(rules, c, d)
    ensures Partitioned(c) && Acceptable(rules, c, d)
    ensures Confirms(rules, c, d, after) ==> forall l :: !HasExactly(after, l, {"b"})
  {
    SecondOnlyAccepted(rules, c, d);
    OnlySecond(c, d);
    if Confirms(rules, c, d, after) {
      NobodyFindsSecond(rules, c, d, after);
    }
  }

  lemma NobodyFindsSecond(rules: Rules, c: Catalog, d: Decision, after: Catalog)
    requires IsTwoVersions(c) && Partitioned(c) && d.members != [] && AllAvailable(c, d) && CurrentOk(d) && Confirms(rules, c, d, after)
    requires Ids(d.members) == ["b"] && Target(c, d) == "a" && "a" in Touched(c, d.members)
    ensures forall l :: !HasExactly(after, l, {"b"})
  {
    ConfirmMoves(rules, c, d, after);
    SecondLeavesFirst(c, d);
    ExactLineageFound(c, MoveOf(c, d), after);
  }

  lemma SecondLeavesFirst(c: Catalog, d: Decision)
    requires IsTwoVersions(c) && Ids(d.members) == ["b"] && Partitioned(c) && AllAvailable(c, d) && Target(c, d) == "a"
    ensures MoveOf(c, d).ids == {"b"} && KeepsMember(c, MoveOf(c, d), "a")
  {
    assert c.members["a"].lineage == "a" && "a" !in MoveOf(c, d).ids;
  }

  ghost predicate IsTwoVersions(c: Catalog) {
    && c.documents == map["a" := Document("one", "t1", true), "b" := Document("two", "t2", true)]
    && c.lineages == map["a" := Lineage("Spec", Confirmed, Opaque, Some("b"), 2, {"Spec", "one", "two"})]
    && c.members == map["a" := Member("a", Some("1"), Some("1"), Some("main"), None, FullSnapshot),
                        "b" := Member("a", Some("2"), Some("2"), Some("main"), Some("a"), FullSnapshot)]
  }

  lemma TwoVersions(c: Catalog)
    requires IsTwoVersions(c)
    ensures Partitioned(c) && CurrentsInside(c)
  {
    assert HasMember(c.members, "a") by { assert c.members["a"].lineage == "a"; }
  }

  lemma AloneIsSound(p: Parser, ms: seq<MemberDecision>)
    requires |ms| == 1 && ms[0].predecessor == None && Parse(p, ms[0].version, Opaque).Some?
    ensures Distinct(Ids(ms)) && LabelsOk(p, ms, Opaque) && LinksOk(p, ms, Opaque) && Acyclic(ms)
  {
    assert LabelFault(p, ms, Opaque, 0) == None;
    assert PredecessorFault(p, ms, Opaque, 0) == None;
    var parent := ParentsOf(ms);
    assert Ids(ms) == [ms[0].document];
    assert parent[ms[0].document] == None;
    forall x, n: nat | x in parent && n >= 1 ensures Walk(parent, x, n) == None {
    }
  }

  /** A decision is complete when it lists every member of every lineage it touches. */
  ghost predicate Complete(c: Catalog, v: Move) {
    forall m :: m in c.members && Touches(c, v, c.members[m].lineage) ==> m in v.ids
  }

  lemma CompleteStrandsNothing(c: Catalog, v: Move, l: string)
    requires CurrentsInside(c) && Complete(c, v)
    ensures !Strands(c, v, l)
  {
    if Strands(c, v, l) {
      assert CurrentInside(c, l);
      assert Touches(c, v, l);
    }
  }

  /** The revision a document shows to a reader. */
  function Seen(c: Catalog, m: string): nat
    requires Partitioned(c) && m in c.documents
  {
    c.lineages[c.members[m].lineage].revision
  }

  /** Every listed document, and every other member of the target, sees a revision above all
      revisions the move touched; nobody else sees a change. */
  lemma RevisionsRise(c: Catalog, v: Move, after: Catalog, m: string)
    requires Partitioned(c) && Partitioned(after) && Moves(c, v, after) && m in c.documents
    ensures m in v.ids || c.members[m].lineage == v.target ==>
              Seen(after, m) > Seen(c, m) && forall x :: x in v.ids ==> Seen(after, m) > Seen(c, x)
    ensures m !in v.ids && c.members[m].lineage != v.target ==>
              after.members[m] == c.members[m] && after.lineages[c.members[m].lineage] == c.lineages[c.members[m].lineage]
  {
    if m !in v.ids && c.members[m].lineage == v.target {
      var x :| x in v.ids && x in c.members && c.members[x].lineage == v.target;
      assert Seen(c, x) == Seen(c, m);
    }
  }

  ghost predicate HasExactly(c: Catalog, l: string, ids: set<string>) {
    l in c.lineages && forall m :: m in c.members ==> (c.members[m].lineage == l <==> m in ids)
  }

  /** The lineage a caller looks up after the commit, the one with exactly the listed
      members, is there if and only if the target kept no other member. */
  lemma ExactLineageFound(c: Catalog, v: Move, after: Catalog)
    requires Partitioned(c) && Moves(c, v, after)
    ensures (exists l :: HasExactly(after, l, v.ids)) <==> !KeepsMember(c, v, v.target)
  {
    if KeepsMember(c, v, v.target) {
      var m :| m in c.members && c.members[m].lineage == v.target && m !in v.ids;
      forall l ensures !HasExactly(after, l, v.ids) {
        assert after.members[m].lineage == v.target && after.members[v.current].lineage == v.target;
      }
    } else {
      assert HasExactly(after, v.target, v.ids);
    }
  }

  // ------------------------------------------------------------ runs

  datatype Step =
    | Import(document: string, row: Document)
    | Quarantine(document: string)
    | Commit(decision: Decision)

  ghost predicate Next(rules: Rules, c: Catalog, step: Step, after: Catalog)
    requires Partitioned(c)
  {
    match step
    case Import(m, row) =>
      && m !in c.documents && m !in c.lineages
      && after == Catalog(c.documents[m := row], c.lineages[m := Lineage(row.name, Singleton, Opaque, Some(m), 1, {})],
                          c.members[m := Member(m, None, None, None, None, FullSnapshot)])
    case Quarantine(m) =>
      m in c.documents && after == c.(documents := c.documents[m := c.documents[m].(available := false)])
    case Commit(d) =>
      Acceptable(rules, c, d) && Confirms(rules, c, d, after)
  }

  lemma CommitMoves(rules: Rules, c: Catalog, d: Decision, after: Catalog)
    requires Partitioned(c) && Next(rules, c, Commit(d), after)
    ensures d.members != [] && AllAvailable(c, d) && Moves(c, MoveOf(c, d), after)
  {
    ConfirmMoves(rules, c, d, after);
  }

  lemma NextKeepsPartition(rules: Rules, c: Catalog, step: Step, after: Catalog)
    requires Partitioned(c) && Next(rules, c, step, after)
    ensures Partitioned(after)
  {
    match step
    case Import(m, row) =>
      forall l | l in after.lineages ensures HasMember(after.members, l) {
        if l == m {
          assert after.members[m].lineage == l;
        } else {
          assert HasMember(c.members, l);
          var x :| x in c.members && c.members[x].lineage == l;
          assert after.members[x].lineage == l;
        }
      }
    case Quarantine(_) =>
    case Commit(d) =>
      CommitMoves(rules, c, d, after);
      MoveKeepsPartition(c, MoveOf(c, d), after);
  }

  ghost predicate CompleteStep(c: Catalog, step: Step)
    requires Partitioned(c)
  {
    step.Commit? && step.decision.members != [] && AllAvailable(c, step.decision) ==> Complete(c, MoveOf(c, step.decision))
  }

  lemma NextKeepsCurrents(rules: Rules, c: Catalog, step: Step, after: Catalog)
    requires Partitioned(c) && CurrentsInside(c) && Next(rules, c, step, after) && CompleteStep(c, step)
    ensures CurrentsInside(after)
  {
    match step
    case Import(m, row) =>
      forall l | l in after.lineages ensures CurrentInside(after, l) {
        if l != m {
          assert CurrentInside(c, l);
        }
      }
    case Quarantine(_) =>
      forall l | l in after.lineages ensures CurrentInside(after, l) {
        assert CurrentInside(c, l);
      }
    case Commit(d) =>
      CommitMoves(rules, c, d, after);
      forall l ensures !Strands(c, MoveOf(c, d), l) {
        CompleteStrandsNothing(c, MoveOf(c, d), l);
      }
      CurrentsStayInside(c, MoveOf(c, d), after);
  }

  /** A run is a sequence of states, each the outcome of a step from the one before. */
  ghost predicate Run(rules: Rules, cs: seq<Catalog>, steps: seq<Step>) {
    && |cs| == |steps| + 1 && cs[0] == Catalog(map[], map[], map[])
    && forall i {:trigger Leads(rules, cs[i], steps[i], cs[i + 1])} :: 0 <= i < |steps| ==> Leads(rules, cs[i], steps[i], cs[i + 1])
  }

  ghost predicate Leads(rules: Rules, c: Catalog, step: Step, after: Catalog) {
    Partitioned(c) && Next(rules, c, step, after)
  }

  lemma StepInvariant(rules: Rules, cs: seq<Catalog>, steps: seq<Step>, i: nat)
    requires Run(rules, cs, steps) && i < |steps|
    ensures Partitioned(cs[i]) && Partitioned(cs[i + 1])
    ensures CurrentsInside(cs[i]) && CompleteStep(cs[i], steps[i]) ==> CurrentsInside(cs[i + 1])
  {
    assert Leads(rules, cs[i], steps[i], cs[i + 1]);
    NextKeepsPartition(rules, cs[i], steps[i], cs[i + 1]);
    if CurrentsInside(cs[i]) && CompleteStep(cs[i], steps[i]) {
      NextKeepsCurrents(rules, cs[i], steps[i], cs[i + 1]);
    }
  }

  /** Every state of a run is a partition; its current documents lie inside their lineages
      as long as every decision was complete when it committed. */
  lemma {:induction false} RunInvariant(rules: Rules, cs: seq<Catalog>, steps: seq<Step>, n: nat)
    requires Run(rules, cs, steps) && n <= |steps|
    ensures Partitioned(cs[n])
    ensures (forall i :: 0 <= i < n ==> Partitioned(cs[i]) && CompleteStep(cs[i], steps[i])) ==> CurrentsInside(cs[n])
  {
    if n > 0 {
      RunInvariant(rules, cs, steps, n - 1);
      StepInvariant(rules, cs, steps, n - 1);
    }
  }

  lemma SeenStep(rules: Rules, c: Catalog, step: Step, after: Catalog, m: string)
    requires Partitioned(c) && Partitioned(after) && Next(rules, c, step, after) && m in c.documents
    ensures m in after.documents && Seen(c, m) <= Seen(after, m)
  {
    if step.Commit? {
      CommitMoves(rules, c, step.decision, after);
      RevisionsRise(c, MoveOf(c, step.decision), after, m);
    }
  }

  lemma SeenStepAt(rules: Rules, cs: seq<Catalog>, steps: seq<Step>, i: nat, m: string)
    requires Run(rules, cs, steps) && i < |steps| && m in cs[i].documents
    ensures Partitioned(cs[i]) && Partitioned(cs[i + 1]) && m in cs[i + 1].documents && Seen(cs[i], m) <= Seen(cs[i + 1], m)
  {
    StepInvariant(rules, cs, steps, i);
    assert Leads(rules, cs[i], steps[i], cs[i + 1]);
    SeenStep(rules, cs[i], steps[i], cs[i + 1], m);
  }

  /** The revision a document shows never falls. */
  lemma {:induction false} SeenNeverFalls(rules: Rules, cs: seq<Catalog>, steps: seq<Step>, i: nat, j: nat, m: string)
    requires Run(rules, cs, steps) && i <= j < |cs| && m in cs[i].documents
    ensures Partitioned(cs[i]) && Partitioned(cs[j]) && m in cs[j].documents && Seen(cs[i], m) <= Seen(cs[j], m)
    decreases j
  {
    RunInvariant(rules, cs, steps, i);
    if i < j {
      SeenNeverFalls(rules, cs, steps, i, j - 1, m);
      SeenStepAt(rules, cs, steps, j - 1, m);
    }
  }

  /** A decision that lists the expected revisions of an earlier commit and shares a document
      with it is out of date. */
  lemma OutOfDate(c: Catalog, now: Catalog, first: Decision, d: Decision, m: string)
    requires Partitioned(c) && Partitioned(now) && RevisionsOk(c, first) && d.expected == first.expected != map[]
    requires forall x :: x in Ids(first.members) ==> x in c.members && x in c.documents
    requires m in Ids(d.members) && m in now.documents
    requires forall x :: x in Ids(first.members) && x in c.documents ==> Seen(now, m) > Seen(c, x)
    ensures !RevisionsOk(now, d)
  {
    if RevisionsOk(now, d) {
      ExpectedSeen(now, d, m);
    }
    ExpectedTouched(c, first, now.members[m].lineage);
  }

  lemma ExpectedSeen(c: Catalog, d: Decision, m: string)
    requires Partitioned(c) && m in Ids(d.members) && m in c.documents
    requires RevisionsOk(c, d) && d.expected != map[]
    ensures c.members[m].lineage in d.expected && d.expected[c.members[m].lineage] == Seen(c, m)
  {
    assert c.members[m].lineage in Touched(c, d.members);
  }

  lemma ExpectedTouched(c: Catalog, d: Decision, l: string)
    requires Partitioned(c) && RevisionsOk(c, d)
    requires forall x :: x in Ids(d.members) ==> x in c.documents
    ensures l in d.expected ==> exists x :: x in Ids(d.members) && x in c.documents && Seen(c, x) == d.expected[l]
  {
    if l in d.expected {
      assert l in Touched(c, d.members);
      var x :| x in Ids(d.members) && x in c.members && c.members[x].lineage == l;
      assert Seen(c, x) == d.expected[l];
    }
  }

  lemma CommitRaises(rules: Rules, c: Catalog, d: Decision, after: Catalog, m: string)
    requires Partitioned(c) && Partitioned(after) && Next(rules, c, Commit(d), after) && m in Ids(d.members)
    ensures RevisionsOk(c, d) && m in after.documents
    ensures forall x :: x in Ids(d.members) ==> x in c.members && x in c.documents && Seen(after, m) > Seen(c, x)
  {
    CommitMoves(rules, c, d, after);
    RevisionsRise(c, MoveOf(c, d), after, m);
  }

  lemma CommitAt(rules: Rules, cs: seq<Catalog>, steps: seq<Step>, i: nat)
    requires Run(rules, cs, steps) && i < |steps|
    ensures Partitioned(cs[i]) && Partitioned(cs[i + 1]) && Next(rules, cs[i], steps[i], cs[i + 1])
  {
    StepInvariant(rules, cs, steps, i);
    assert Leads(rules, cs[i], steps[i], cs[i + 1]);
  }

  /** Of two decisions that list the same expected revisions and share a document, the second
      is refused in every state after the first committed. */
  lemma OneOfTwoCommits(rules: Rules, cs: seq<Catalog>, steps: seq<Step>, i: nat, j: nat, d: Decision, m: string)
    requires Run(rules, cs, steps) && i < j < |cs| && steps[i].Commit?
    requires d.expected == steps[i].decision.expected != map[]
    requires m in Ids(d.members) && m in Ids(steps[i].decision.members)
    ensures Partitioned(cs[j]) && !RevisionsOk(cs[j], d)
  {
    var c, next, now, first := cs[i], cs[i + 1], cs[j], steps[i].decision;
    assert Partitioned(c) && Partitioned(next) && Next(rules, c, Commit(first), next) by {
      CommitAt(rules, cs, steps, i);
    }
    assert forall x :: x in Ids(first.members) ==> x in c.members && x in c.documents && Seen(next, m) > Seen(c, x) by {
      CommitRaises(rules, c, first, next, m);
    }
    assert RevisionsOk(c, first) && m in next.documents by {
      CommitRaises(rules, c, first, next, m);
    }
    assert Partitioned(now) && m in now.documents && Seen(next, m) <= Seen(now, m) by {
      SeenNeverFalls(rules, cs, steps, i + 1, j, m);
    }
    OutOfDate(c, now, first, d, m);
  }

  /** A refused expectation refuses the decision. */
  lemma OutOfDateIsRefused(rules: Rules, c: Catalog, d: Decision)
    requires Partitioned(c) && !RevisionsOk(c, d)
    ensures !Acceptable(rules, c, d)
  {
  }

  /** Complete decisions drawn up in one state that touch a common lineage share a document. */
  lemma SharedLineageSharesDocument(c: Catalog, a: Move, b: Move, l: string)
    requires Complete(c, b) && Touches(c, a, l) && Touches(c, b, l)
    ensures exists m :: m in a.ids && m in b.ids
  {
    var m :| m in a.ids && m in c.members && c.members[m].lineage == l;
    assert m in b.ids;
  }

  /** The decision was drawn up in a state: it lists the revisions seen there, and all members
      of the lineages it touches. */
  ghost predicate DrawnIn(c: Catalog, d: Decision) {
    && Partitioned(c) && d.members != [] && AllAvailable(c, d)
    && d.expected != map[] && RevisionsOk(c, d) && Complete(c, MoveOf(c, d))
  }

  /** Of two decisions drawn up in one state over a common lineage at most one ever commits,
      and that one at most once. */
  lemma AtMostOneCommits(rules: Rules, c: Catalog, a: Decision, b: Decision, l: string, cs: seq<Catalog>, steps: seq<Step>, i: nat, j: nat)
    requires DrawnIn(c, a) && DrawnIn(c, b) && a.expected == b.expected && Touches(c, MoveOf(c, a), l) && Touches(c, MoveOf(c, b), l)
    requires Run(rules, cs, steps) && i < j < |steps|
    requires steps[i] == Commit(a) || steps[i] == Commit(b)
    ensures steps[j] != Commit(a) && steps[j] != Commit(b)
  {
    SharedLineageSharesDocument(c, MoveOf(c, a), MoveOf(c, b), l);
    var m :| m in Ids(a.members) && m in Ids(b.members);
    CommitAt(rules, cs, steps, j);
    OneOfTwoCommits(rules, cs, steps, i, j, a, m);
    OneOfTwoCommits(rules, cs, steps, i, j, b, m);
    OutOfDateIsRefused(rules, cs[j], a);
    OutOfDateIsRefused(rules, cs[j], b);
  }

  // ------------------------------------------------ deleted and recreated lineages

  /** A lineage that a document stays in without seeing a new revision gains no member. */
  lemma QuietLineageStep(rules: Rules, c: Catalog, step: Step, after: Catalog, m: string, x: string)
    requires Partitioned(c) && Partitioned(after) && Next(rules, c, step, after)
    requires m in c.documents && m in after.documents && Seen(c, m) == Seen(after, m)
    requires x in c.documents && x in after.documents && after.members[x].lineage == after.members[m].lineage
    ensures after.members[m].lineage == c.members[m].lineage == c.members[x].lineage
  {
    if step.Commit? {
      var v := MoveOf(c, step.decision);
      CommitMoves(rules, c, step.decision, after);
      RevisionsRise(c, v, after, m);
      RevisionsRise(c, v, after, x);
    }
  }

  lemma {:induction false} QuietLineage(rules: Rules, cs: seq<Catalog>, steps: seq<Step>, i: nat, j: nat, m: string, x: string)
    requires Run(rules, cs, steps) && i <= j < |cs| && m in cs[i].documents && x in cs[i].documents
    requires Partitioned(cs[i]) && Partitioned(cs[j]) && m in cs[j].documents && x in cs[j].documents
    requires Seen(cs[i], m) == Seen(cs[j], m) && cs[j].members[x].lineage == cs[j].members[m].lineage
    ensures cs[i].members[x].lineage == cs[i].members[m].lineage == cs[j].members[m].lineage
    decreases j
  {
    if i < j {
      SeenNeverFalls(rules, cs, steps, i, j - 1, m);
      SeenNeverFalls(rules, cs, steps, i, j - 1, x);
      SeenStepAt(rules, cs, steps, j - 1, m);
      CommitAt(rules, cs, steps, j - 1);
      QuietLineageStep(rules, cs[j - 1], steps[j - 1], cs[j], m, x);
      QuietLineage(rules, cs, steps, i, j - 1, m, x);
    }
  }

  /** Whatever was deleted and recreated under the same identifier in between: if a decision's
      expectation holds in two states of a run, then all its documents are where they were and
      see the same revisions. */
  lemma ExpectationIsNotFooled(rules: Rules, cs: seq<Catalog>, steps: seq<Step>, i: nat, j: nat, d: Decision, m: string)
    requires Run(rules, cs, steps) && i <= j < |cs| && Partitioned(cs[i]) && Partitioned(cs[j])
    requires d.expected != map[] && RevisionsOk(cs[i], d) && RevisionsOk(cs[j], d)
    requires m in Ids(d.members) && forall x :: x in Ids(d.members) ==> x in cs[i].documents
    ensures m in cs[j].documents && Seen(cs[j], m) == Seen(cs[i], m)
    ensures cs[j].members[m].lineage == cs[i].members[m].lineage
  {
    forall x | x in Ids(d.members) ensures x in cs[j].documents && Seen(cs[i], x) <= Seen(cs[j], x) {
      SeenNeverFalls(rules, cs, steps, i, j, x);
    }
    NothingRose(rules, cs, steps, i, j, d, m);
    QuietLineage(rules, cs, steps, i, j, m, m);
  }

  /** The documents that see a new revision, the highest first: the one with the highest would
      have joined a lineage whose revision nobody raised. */
  lemma {:induction false} NothingRose(rules: Rules, cs: seq<Catalog>, steps: seq<Step>, i: nat, j: nat, d: Decision, m: string)
    requires Run(rules, cs, steps) && i <= j < |cs| && Partitioned(cs[i]) && Partitioned(cs[j])
    requires d.expected != map[] && RevisionsOk(cs[i], d) && RevisionsOk(cs[j], d) && m in Ids(d.members)
    requires forall x :: x in Ids(d.members) ==> x in cs[i].documents && x in cs[j].documents && Seen(cs[i], x) <= Seen(cs[j], x)
    ensures Seen(cs[j], m) == Seen(cs[i], m)
    decreases Bound(cs[j], Ids(d.members)) - Seen(cs[j], m)
  {
    if Seen(cs[j], m) > Seen(cs[i], m) {
      var x := HolderThen(cs[i], cs[j], d, m);
      BoundHolds(cs[j], Ids(d.members), x);
      BoundHolds(cs[j], Ids(d.members), m);
      if Seen(cs[j], x) > Seen(cs[i], x) {
        NothingRose(rules, cs, steps, i, j, d, x);
      } else {
        QuietLineage(rules, cs, steps, i, j, x, x);
        QuietLineage(rules, cs, steps, i, j, x, m);
      }
    }
  }

  /** The lineage a listed document is in now was held, at the same revision, by a listed
      document then. */
  lemma HolderThen(then_: Catalog, now: Catalog, d: Decision, m: string) returns (x: string)
    requires Partitioned(then_) && Partitioned(now) && d.expected != map[] && RevisionsOk(then_, d) && RevisionsOk(now, d)
    requires m in Ids(d.members) && forall y :: y in Ids(d.members) ==> y in then_.documents && y in now.documents
    ensures x in Ids(d.members) && then_.members[x].lineage == now.members[m].lineage && Seen(then_, x) == Seen(now, m)
  {
    var l := now.members[m].lineage;
    ExpectedSeen(now, d, m);
    assert l in Touched(then_, d.members);
    x :| x in Ids(d.members) && x in then_.members && then_.members[x].lineage == l;
  }

  function Bound(c: Catalog, ids: seq<string>): nat
    requires Partitioned(c) && forall m :: m in ids ==> m in c.documents
  {
    if ids == [] then 0
    else
      assert ids[0] in ids;
      var rest := Bound(c, ids[1..]);
      if Seen(c, ids[0]) > rest then Seen(c, ids[0]) else rest
  }

  lemma {:induction false} BoundHolds(c: Catalog, ids: seq<string>, m: string)
    requires Partitioned(c) && (forall x :: x in ids ==> x in c.documents) && m in ids
    ensures Seen(c, m) <= Bound(c, ids)
  {
    if m != ids[0] {
      assert ids == [ids[0]] + ids[1..];
      BoundHolds(c, ids[1..], m);
    }
  }

  // ------------------------------------------------------------ a run to two versions

  /** Texts without surrounding white space, with names that normalise apart. */
  predicate PlainTexts(rules: Rules) {
    && (forall x :: x in {"Spec", "1", "2", "main"} ==> rules.strip(x) == x)
    && rules.normalize("Spec") != "" && rules.normalize("one") != "" && rules.normalize("two") != ""
    && rules.normalize("Spec") != rules.normalize("one") && rules.normalize("Spec") != rules.normalize("two")
    && rules.normalize("one") != rules.normalize("two")
    && Parse(rules.parser, "1", Opaque) == Some(Parsed("1", None)) && Parse(rules.parser, "2", Opaque) == Some(Parsed("2", None))
  }

  ghost predicate IsImported(c: Catalog) {
    && c.documents == map["a" := Document("one", "t1", true), "b" := Document("two", "t2", true)]
    && c.lineages == map["a" := Lineage("one", Singleton, Opaque, Some("a"), 1, {}), "b" := Lineage("two", Singleton, Opaque, Some("b"), 1, {})]
    && c.members == map["a" := Member("a", None, None, None, None, FullSnapshot), "b" := Member("b", None, None, None, None, FullSnapshot)]
  }

  ghost predicate IsFirstDecision(d: Decision) {
    && d.name == "Spec" && d.scheme == Opaque && d.current == "b" && d.aliases == {} && d.lineage == None && d.expected == map[]
    && d.members == [MemberDecision("a", "1", "main", None, FullSnapshot), MemberDecision("b", "2", "main", Some("a"), FullSnapshot)]
  }

  lemma FirstMembers(p: Parser, ms: seq<MemberDecision>)
    requires Parse(p, "1", Opaque) == Some(Parsed("1", None)) && Parse(p, "2", Opaque) == Some(Parsed("2", None))
    requires ms == [MemberDecision("a", "1", "main", None, FullSnapshot), MemberDecision("b", "2", "main", Some("a"), FullSnapshot)]
    ensures Ids(ms) == ["a", "b"] && Distinct(Ids(ms)) && LabelsOk(p, ms, Opaque) && LinksOk(p, ms, Opaque) && Acyclic(ms)
  {
    assert Ids(ms) == ["a", "b"];
    assert LabelFault(p, ms, Opaque, 0) == None && LabelFault(p, ms, Opaque, 1) == None;
    assert ms[0] in ms;
    assert PredecessorFault(p, ms, Opaque, 0) == None && PredecessorFault(p, ms, Opaque, 1) == None;
    LinksClosed(p, ms, Opaque);
    var parent := ParentsOf(ms);
    assert parent[ms[0].document] == None && parent[ms[1].document] == Some("a");
    OrderedIsAcyclic(parent, (x, y) => x == "a" && y == "b");
  }

  lemma ImportedSound(c: Catalog)
    requires IsImported(c)
    ensures Partitioned(c)
  {
    assert HasMember(c.members, "a") by { assert c.members["a"].lineage == "a"; }
    assert HasMember(c.members, "b") by { assert c.members["b"].lineage == "b"; }
  }

  lemma FirstTouched(c: Catalog, ms: seq<MemberDecision>)
    requires IsImported(c) && Ids(ms) == ["a", "b"]
    ensures Touched(c, ms) == {"a", "b"} && TouchedRevisions(c, ms) == {1}
  {
    assert c.members["a"].lineage == "a" && c.members["b"].lineage == "b";
    assert "a" in Touched(c, ms) && c.lineages["a"].revision == 1;
  }

  lemma FirstOldest(c: Catalog)
    requires IsImported(c)
    ensures Oldest(c, ["a", "b"]) == "a"
  {
    assert StringLess("t1", "t2") by { assert "t1"[1..] == "1" && "t2"[1..] == "2"; }
    OldestIsFirst(c, ["a", "b"], "a");
  }

  lemma FirstNames(rules: Rules, c: Catalog, d: Decision)
    requires PlainTexts(rules) && IsImported(c) && IsFirstDecision(d) && Ids(d.members) == ["a", "b"]
    ensures AllAvailable(c, d) && CurrentOk(d)
    ensures AliasNames(rules, c, d) == {"Spec", "one", "two"} && !AliasesClash(rules, AliasNames(rules, c, d))
  {
    assert d.members[1] in d.members;
    assert c.documents["a"].name == "one" && c.documents["b"].name == "two";
    assert (set m | m in ["a", "b"] && m in c.documents :: c.documents[m].name) == {"one", "two"};
  }

  lemma FirstAccepted(rules: Rules, c: Catalog, d: Decision)
    requires PlainTexts(rules) && IsImported(c) && IsFirstDecision(d)
    ensures Partitioned(c) && Acceptable(rules, c, d) && Target(c, d) == "a"
    ensures AliasNames(rules, c, d) == {"Spec", "one", "two"} && Touched(c, d.members) == {"a", "b"} && TouchedRevisions(c, d.members) == {1}
  {
    ImportedSound(c);
    FirstMembers(rules.parser, d.members);
    FirstTouched(c, d.members);
    FirstOldest(c);
    FirstNames(rules, c, d);
  }

  lemma FirstConfirms(rules: Rules, c: Catalog, d: Decision, after: Catalog)
    requires Partitioned(c) && AllAvailable(c, d) && d.members != [] && d.scheme == Opaque && d.current == "b" && rules.strip(d.name) == "Spec"
    requires Target(c, d) == "a" && Touched(c, d.members) == {"a", "b"} && TouchedRevisions(c, d.members) == {1}
    requires c.lineages.Keys == {"a", "b"} && after.lineages.Keys == {"a"} && after.documents == c.documents
    requires after.lineages["a"] == Lineage("Spec", Confirmed, Opaque, Some("b"), 2, set a | a in AliasNames(rules, c, d) && rules.normalize(a) != "")
    requires Moved(c.members, d.members, RowsOf(rules, d, "a"), |d.members|, after.members) && !HasMember(after.members, "b")
    ensures Confirms(rules, c, d, after)
  {
    assert IsNext({1}, 1, 2);
  }

  lemma FirstAliases(rules: Rules)
    requires PlainTexts(rules)
    ensures (set a | a in {"Spec", "one", "two"} && rules.normalize(a) != "") == {"Spec", "one", "two"}
  {
  }

  lemma FirstTables(rules: Rules, c: Catalog, after: Catalog)
    requires PlainTexts(rules) && IsImported(c) && IsTwoVersions(after)
    ensures c.lineages.Keys == {"a", "b"} && after.lineages.Keys == {"a"} && after.documents == c.documents
    ensures after.lineages["a"] == Lineage("Spec", Confirmed, Opaque, Some("b"), 2, set a | a in {"Spec", "one", "two"} && rules.normalize(a) != "")
  {
    FirstAliases(rules);
  }

  lemma FirstEffect(rules: Rules, c: Catalog, d: Decision, after: Catalog)
    requires PlainTexts(rules) && IsImported(c) && IsFirstDecision(d) && IsTwoVersions(after)
    requires Partitioned(c) && AllAvailable(c, d) && Target(c, d) == "a"
    requires AliasNames(rules, c, d) == {"Spec", "one", "two"} && Touched(c, d.members) == {"a", "b"} && TouchedRevisions(c, d.members) == {1}
    ensures Confirms(rules, c, d, after)
  {
    FirstTables(rules, c, after);
    FirstRows(rules, c, d, after);
    FirstConfirms(rules, c, d, after);
  }

  lemma FirstDecisionCommits(rules: Rules, c: Catalog, d: Decision, after: Catalog)
    requires PlainTexts(rules) && IsImported(c) && IsFirstDecision(d) && IsTwoVersions(after)
    ensures Leads(rules, c, Commit(d), after)
  {
    FirstAccepted(rules, c, d);
    FirstEffect(rules, c, d, after);
  }

  lemma FirstRows(rules: Rules, c: Catalog, d: Decision, after: Catalog)
    requires PlainTexts(rules) && IsImported(c) && IsFirstDecision(d) && IsTwoVersions(after)
    ensures Moved(c.members, d.members, RowsOf(rules, d, "a"), 2, after.members) && !HasMember(after.members, "b")
  {
    var wanted := RowsOf(rules, d, "a");
    assert HasRow(d.members, wanted, 0, after.members) && HasRow(d.members, wanted, 1, after.members);
    assert d.members[0].document == "a" && d.members[1].document == "b";
    assert Lists(d.members, 2, "a") && Lists(d.members, 2, "b");
  }

  lemma BothImported(rules: Rules) returns (empty: Catalog, first: Catalog, both: Catalog)
    ensures empty == Catalog(map[], map[], map[]) && IsImported(both)
    ensures Leads(rules, empty, Import("a", Document("one", "t1", true)), first)
    ensures Leads(rules, first, Import("b", Document("two", "t2", true)), both)
  {
    var a, b := Document("one", "t1", true), Document("two", "t2", true);
    empty := Catalog(map[], map[], map[]);
    first := Catalog(map["a" := a], map["a" := Lineage("one", Singleton, Opaque, Some("a"), 1, {})],
                     map["a" := Member("a", None, None, None, None, FullSnapshot)]);
    both := Catalog(first.documents["b" := b], first.lineages["b" := Lineage("two", Singleton, Opaque, Some("b"), 1, {})],
                    first.members["b" := Member("b", None, None, None, None, FullSnapshot)]);
    assert HasMember(first.members, "a") by { assert first.members["a"].lineage == "a"; }
  }

  lemma RunThen(rules: Rules, cs: seq<Catalog>, steps: seq<Step>, step: Step, after: Catalog)
    requires Run(rules, cs, steps) && Leads(rules, cs[|steps|], step, after)
    ensures Run(rules, cs + [after], steps + [step])
  {
    var cs', steps' := cs + [after], steps + [step];
    forall i | 0 <= i < |steps'| ensures Leads(rules, cs'[i], steps'[i], cs'[i + 1]) {
      if i < |steps| {
        assert Leads(rules, cs[i], steps[i], cs[i + 1]);
      }
    }
  }

  lemma ImportedRun(rules: Rules) returns (cs: seq<Catalog>, steps: seq<Step>)
    ensures Run(rules, cs, steps) && |steps| == 2 && IsImported(cs[2]) && steps[0].Import? && steps[1].Import?
  {
    var empty, first, both := BothImported(rules);
    cs, steps := [empty, first], [Import("a", Document("one", "t1", true))];
    assert Run(rules, cs, steps);
    RunThen(rules, cs, steps, Import("b", Document("two", "t2", true)), both);
    cs, steps := cs + [both], steps + [Import("b", Document("two", "t2", true))];
  }

  /** The lineage of two versions is what importing them and confirming both leaves. */
  lemma TwoVersionsReached(rules: Rules, c: Catalog) returns (cs: seq<Catalog>, steps: seq<Step>)
    requires PlainTexts(rules) && IsTwoVersions(c)
    ensures Run(rules, cs, steps) && |steps| == 3 && cs[3] == c
    ensures steps[0].Import? && steps[1].Import? && steps[2].Commit?
  {
    var members := [MemberDecision("a", "1", "main", None, FullSnapshot), MemberDecision("b", "2", "main", Some("a"), FullSnapshot)];
    var d := Decision("Spec", Opaque, members, "b", {}, None, map[]);
    cs, steps := ImportedRun(rules);
    FirstDecisionCommits(rules, cs[2], d, c);
    RunThen(rules, cs, steps, Commit(d), c);
    cs, steps := cs + [c], steps + [Commit(d)];
  }
}
