/** Matching the blocks of two versions of a document.

    The declarative part says which blocks belong together, on sets of blocks; the
    methods below it find the pairs by grouping, ranking and scanning. Fingerprints
    and similarity scores are arbitrary functions; scores count millionths. */
module VersionDiff {
  import opened Ordering
  import opened Values

  const MODIFIED_THRESHOLD := 580_000
  const AMBIGUITY_MARGIN := 60_000
  const FULL_SCORE := 1_000_000
  const UNMATCHED_ORDINAL := 1_000_000_000_000

  datatype Block = Block(
    id: string,
    evidence: string,
    ordinal: int,
    kind: string,
    text: string,
    path: seq<string>,
    locator: Option<string>,
    media: Option<string>)

  /** How blocks are compared: the strict body fingerprint and the rounded score. */
  datatype Measure = Measure(fingerprint: Block -> string, similarity: (Block, Block) -> int)

  datatype Reason = StrictBody | BoundedSimilarity
  datatype Match =
    | Paired(left: Block, right: Block, reason: Reason, score: int)
    | Removed(left: Block)
    | Added(right: Block)

  datatype ContentChange = Unchanged | Modified | AddedContent | RemovedContent
  datatype LocationChange = SameLocation | Moved | UnknownLocation

  datatype Item = Item(
    oldId: Option<string>,
    newId: Option<string>,
    oldEvidence: Option<string>,
    newEvidence: Option<string>,
    content: ContentChange,
    location: LocationChange,
    score: int,
    reason: Option<Reason>,
    oldLocator: Option<string>,
    newLocator: Option<string>)

  function Render(m: Measure, x: Match): Item {
    match x
    case Paired(l, r, reason, score) =>
      Item(Some(l.id), Some(r.id), Some(l.evidence), Some(r.evidence),
           if m.fingerprint(l) == m.fingerprint(r) then Unchanged else Modified,
           if l.path == r.path then SameLocation else Moved,
           score, Some(reason), l.locator, r.locator)
    case Removed(l) =>
      Item(Some(l.id), None, Some(l.evidence), None, RemovedContent, UnknownLocation, 0, None, l.locator, None)
    case Added(r) =>
      Item(None, Some(r.id), None, Some(r.evidence), AddedContent, UnknownLocation, 0, None, None, r.locator)
  }

  function RenderAll(m: Measure, xs: seq<Match>): (items: seq<Item>)
    ensures |items| == |xs|
  {
    seq(|xs|, i requires 0 <= i < |xs| => Render(m, xs[i]))
  }

  // ---------------------------------------------------------------- specification

  predicate BlockLess(a: Block, b: Block) {
    a.ordinal < b.ordinal || (a.ordinal == b.ordinal && StringLess(a.id, b.id))
  }

  ghost predicate UniqueIds(s: set<Block>) {
    forall a, b :: a in s && b in s && a.id == b.id ==> a == b
  }

  ghost function WithFingerprint(m: Measure, s: set<Block>, f: string): set<Block> {
    set b | b in s && m.fingerprint(b) == f
  }

  /** How many blocks with the same fingerprint come before `b` in document order. */
  ghost function Rank(m: Measure, s: set<Block>, b: Block): nat {
    |set c | c in WithFingerprint(m, s, m.fingerprint(b)) && BlockLess(c, b)|
  }

  ghost predicate SameCount(m: Measure, old_: set<Block>, new_: set<Block>, f: string) {
    |WithFingerprint(m, old_, f)| == |WithFingerprint(m, new_, f)|
  }

  /** The two blocks hold the same place among equally many blocks with the same body. */
  ghost predicate StrictPair(m: Measure, old_: set<Block>, new_: set<Block>, l: Block, r: Block) {
    && l in old_ && r in new_
    && m.fingerprint(l) == m.fingerprint(r)
    && SameCount(m, old_, new_, m.fingerprint(l))
    && Rank(m, old_, l) == Rank(m, new_, r)
  }

  ghost predicate Shared(m: Measure, s: set<Block>, f: string) {
    exists b :: b in s && m.fingerprint(b) == f
  }

  /** The blocks whose body does not occur on the other side. */
  ghost function Remaining(m: Measure, s: set<Block>, other: set<Block>): set<Block> {
    set b | b in s && !Shared(m, other, m.fingerprint(b))
  }

  /** `l` and `r` are similar enough, and each is the other's clear favourite. */
  ghost predicate BestPair(m: Measure, old_: set<Block>, new_: set<Block>, l: Block, r: Block) {
    && l in old_ && r in new_ && l.kind == r.kind
    && MODIFIED_THRESHOLD <= m.similarity(l, r)
    && (forall c :: c in new_ && c != r && c.kind == l.kind ==> AMBIGUITY_MARGIN <= m.similarity(l, r) - m.similarity(l, c))
    && (forall c :: c in old_ && c != l && c.kind == r.kind ==> AMBIGUITY_MARGIN <= m.similarity(l, r) - m.similarity(c, r))
  }

  ghost predicate SimilarPair(m: Measure, old_: set<Block>, new_: set<Block>, l: Block, r: Block) {
    BestPair(m, Remaining(m, old_, new_), Remaining(m, new_, old_), l, r)
  }

  ghost predicate Partners(m: Measure, old_: set<Block>, new_: set<Block>, l: Block, r: Block) {
    StrictPair(m, old_, new_, l, r) || SimilarPair(m, old_, new_, l, r)
  }

  datatype Side = Old | New

  ghost predicate HasStrict(m: Measure, old_: set<Block>, new_: set<Block>, side: Side, b: Block) {
    match side
    case Old => exists c :: StrictPair(m, old_, new_, b, c)
    case New => exists c :: StrictPair(m, old_, new_, c, b)
  }

  ghost predicate HasSimilar(m: Measure, old_: set<Block>, new_: set<Block>, side: Side, b: Block) {
    match side
    case Old => exists c :: SimilarPair(m, old_, new_, b, c)
    case New => exists c :: SimilarPair(m, old_, new_, c, b)
  }

  /** `b` has a partner on the other side. */
  ghost predicate HasPartner(m: Measure, old_: set<Block>, new_: set<Block>, side: Side, b: Block) {
    HasStrict(m, old_, new_, side, b) || HasSimilar(m, old_, new_, side, b)
  }

  ghost predicate IsMatch(m: Measure, old_: set<Block>, new_: set<Block>, x: Match) {
    match x
    case Paired(l, r, StrictBody, score) => StrictPair(m, old_, new_, l, r) && score == FULL_SCORE
    case Paired(l, r, BoundedSimilarity, score) => SimilarPair(m, old_, new_, l, r) && score == m.similarity(l, r)
    case Removed(l) => l in old_ && !HasPartner(m, old_, new_, Old, l)
    case Added(r) => r in new_ && !HasPartner(m, old_, new_, New, r)
  }

  datatype Key = Key(oldOrdinal: int, newOrdinal: int, oldId: string, newId: string)

  predicate KeyLess(a: Key, b: Key) {
    if a.oldOrdinal != b.oldOrdinal then a.oldOrdinal < b.oldOrdinal
    else if a.newOrdinal != b.newOrdinal then a.newOrdinal < b.newOrdinal
    else if a.oldId != b.oldId then StringLess(a.oldId, b.oldId)
    else StringLess(a.newId, b.newId)
  }

  function IdOrEmpty(id: Option<string>): string {
    match id case Some(v) => v case None => ""
  }

  function Lookup(ordinals: map<string, int>, id: string, otherwise: int): int {
    if id in ordinals then ordinals[id] else otherwise
  }

  function ItemKey(oldOrdinals: map<string, int>, newOrdinals: map<string, int>, it: Item): Key {
    var o, n := IdOrEmpty(it.oldId), IdOrEmpty(it.newId);
    Key(Lookup(oldOrdinals, o, UNMATCHED_ORDINAL + Lookup(newOrdinals, n, 0)), Lookup(newOrdinals, n, 0), o, n)
  }

  ghost function OrdinalsOf(s: set<Block>): map<string, int>
    requires UniqueIds(s)
  {
    map b | b in s :: b.id := b.ordinal
  }

  /** The order of the result: by key, an unmatched new block after anything of equal key. */
  ghost predicate MatchLess(m: Measure, oldOrdinals: map<string, int>, newOrdinals: map<string, int>, x: Match, y: Match) {
    var kx, ky := ItemKey(oldOrdinals, newOrdinals, Render(m, x)), ItemKey(oldOrdinals, newOrdinals, Render(m, y));
    KeyLess(kx, ky) || (kx == ky && !x.Added? && y.Added?)
  }

  ghost predicate InOrder(m: Measure, old_: set<Block>, new_: set<Block>, xs: seq<Match>)
    requires UniqueIds(old_) && UniqueIds(new_)
  {
    forall i, j :: 0 <= i < j < |xs| ==> MatchLess(m, OrdinalsOf(old_), OrdinalsOf(new_), xs[i], xs[j])
  }

  /** `xs` is the diff of the two block sets. */
  ghost predicate IsDiff(m: Measure, old_: set<Block>, new_: set<Block>, xs: seq<Match>)
    requires UniqueIds(old_) && UniqueIds(new_)
  {
    && (forall x :: x in xs <==> IsMatch(m, old_, new_, x))
    && InOrder(m, old_, new_, xs)
  }

  ghost function Elements(s: seq<Block>): set<Block> {
    set b | b in s
  }

  // ------------------------------------------------------------------ orders

  lemma BlockLessTransitive()
    ensures Transitive(BlockLess)
  {
    forall a, b, c | BlockLess(a, b) && BlockLess(b, c) ensures BlockLess(a, c) {
      if a.ordinal == b.ordinal == c.ordinal {
        StringLessTransitive(a.id, b.id, c.id);
      }
    }
  }

  lemma KeyLessTransitive(a: Key, b: Key, c: Key)
    requires KeyLess(a, b) && KeyLess(b, c)
    ensures KeyLess(a, c)
  {
    if a.oldId == b.oldId == c.oldId {
      if StringLess(a.newId, b.newId) && StringLess(b.newId, c.newId) {
        StringLessTransitive(a.newId, b.newId, c.newId);
      }
    } else if StringLess(a.oldId, b.oldId) && StringLess(b.oldId, c.oldId) {
      StringLessTransitive(a.oldId, b.oldId, c.oldId);
      StringLessIrreflexive(a.oldId);
    }
  }

  lemma KeyLessTotal(a: Key, b: Key)
    ensures KeyLess(a, b) || a == b || KeyLess(b, a)
    ensures !KeyLess(a, a)
  {
    StringLessTotal(a.oldId, b.oldId);
    StringLessTotal(a.newId, b.newId);
    StringLessIrreflexive(a.newId);
  }

  ghost function MatchOrder(m: Measure, old_: set<Block>, new_: set<Block>): (Match, Match) -> bool
    requires UniqueIds(old_) && UniqueIds(new_)
  {
    (x, y) => MatchLess(m, OrdinalsOf(old_), OrdinalsOf(new_), x, y)
  }

  lemma MatchOrderTransitive(m: Measure, old_: set<Block>, new_: set<Block>)
    requires UniqueIds(old_) && UniqueIds(new_)
    ensures Transitive(MatchOrder(m, old_, new_))
    ensures forall x :: !MatchOrder(m, old_, new_)(x, x)
  {
    var oo, nn := OrdinalsOf(old_), OrdinalsOf(new_);
    forall x, y, z | MatchLess(m, oo, nn, x, y) && MatchLess(m, oo, nn, y, z) ensures MatchLess(m, oo, nn, x, z) {
      var kx, ky, kz := ItemKey(oo, nn, Render(m, x)), ItemKey(oo, nn, Render(m, y)), ItemKey(oo, nn, Render(m, z));
      if KeyLess(kx, ky) && KeyLess(ky, kz) {
        KeyLessTransitive(kx, ky, kz);
      }
    }
    forall x ensures !MatchLess(m, oo, nn, x, x) {
      KeyLessTotal(ItemKey(oo, nn, Render(m, x)), ItemKey(oo, nn, Render(m, x)));
    }
  }

  /** The blocks with the same fingerprint that have a smaller ordinal, or the same one and a
      smaller identifier. */
  ghost function SmallerTwins(m: Measure, s: set<Block>, b: Block): set<Block> {
    set c | c in s && m.fingerprint(c) == m.fingerprint(b) && (c.ordinal < b.ordinal || (c.ordinal == b.ordinal && StringLess(c.id, b.id)))
  }

  lemma RankMeans(m: Measure, s: set<Block>, b: Block)
    ensures Rank(m, s, b) == |SmallerTwins(m, s, b)|
  {
    var below := set c | c in WithFingerprint(m, s, m.fingerprint(b)) && BlockLess(c, b);
    assert below == SmallerTwins(m, s, b);
    assert Rank(m, s, b) == |below|;
  }

  /** By what the matches are sorted: old ordinal, new ordinal, old identifier, new identifier. A
      new block without partner counts as behind all old ones, a missing block as the smallest. */
  lemma KeyMeans(m: Measure, old_: set<Block>, new_: set<Block>, x: Match)
    requires UniqueIds(old_) && UniqueIds(new_) && IsMatch(m, old_, new_, x)
    requires forall b :: b in old_ || b in new_ ==> b.id != ""
    ensures ItemKey(OrdinalsOf(old_), OrdinalsOf(new_), Render(m, x)) ==
            match x
            case Paired(l, r, _, _) => Key(l.ordinal, r.ordinal, l.id, r.id)
            case Removed(l) => Key(l.ordinal, 0, l.id, "")
            case Added(r) => Key(1_000_000_000_000 + r.ordinal, r.ordinal, "", r.id)
  {
    assert "" !in OrdinalsOf(old_) && "" !in OrdinalsOf(new_);
  }

  // -------------------------------------------------------- the diff is determined

  /** The two block sets determine the diff: neither the order in which the blocks
      are given nor any tie-break inside the search can change it. */
  lemma DiffUnique(m: Measure, old_: set<Block>, new_: set<Block>, xs: seq<Match>, ys: seq<Match>)
    requires UniqueIds(old_) && UniqueIds(new_)
    requires IsDiff(m, old_, new_, xs) && IsDiff(m, old_, new_, ys)
    ensures xs == ys
  {
    MatchOrderTransitive(m, old_, new_);
    AscendingUnique(xs, ys, MatchOrder(m, old_, new_));
  }

  // ------------------------------------------------------------- exact cover

  /** Strict partners have equal ranks, and two blocks of one side with the same
      body have different ranks. */
  lemma RankInjective(m: Measure, s: set<Block>, a: Block, b: Block)
    requires UniqueIds(s) && a in s && b in s
    requires m.fingerprint(a) == m.fingerprint(b) && Rank(m, s, a) == Rank(m, s, b)
    ensures a == b
  {
    StringLessTotal(a.id, b.id);
    if BlockLess(a, b) {
      RankStrict(m, s, a, b);
    } else if BlockLess(b, a) {
      RankStrict(m, s, b, a);
    }
  }

  lemma RankStrict(m: Measure, s: set<Block>, a: Block, b: Block)
    requires a in s && b in s && m.fingerprint(a) == m.fingerprint(b) && BlockLess(a, b)
    ensures Rank(m, s, a) < Rank(m, s, b)
  {
    BlockLessTransitive();
    StringLessIrreflexive(a.id);
    var below := set c | c in WithFingerprint(m, s, m.fingerprint(a)) && BlockLess(c, a);
    var above := set c | c in WithFingerprint(m, s, m.fingerprint(b)) && BlockLess(c, b);
    assert a in above && a !in below;
    assert below <= above;
    assert below <= above - {a};
    SubsetSize(below, above - {a});
  }

  /** No block has two partners, on either side. */
  lemma PartnersUnique(m: Measure, old_: set<Block>, new_: set<Block>, l: Block, r: Block, l': Block, r': Block)
    requires UniqueIds(old_) && UniqueIds(new_)
    requires Partners(m, old_, new_, l, r) && Partners(m, old_, new_, l', r')
    ensures l == l' <==> r == r'
  {
    if l == l' {
      if StrictPair(m, old_, new_, l, r) && StrictPair(m, old_, new_, l, r') {
        RankInjective(m, new_, r, r');
      }
    } else if r == r' {
      if StrictPair(m, old_, new_, l, r) && StrictPair(m, old_, new_, l', r) {
        RankInjective(m, old_, l, l');
      }
    }
  }

  /** A pair found by similarity never has equal bodies, so `Unchanged` marks exactly
      the strict pairs. */
  lemma UnchangedIffStrict(m: Measure, old_: set<Block>, new_: set<Block>, x: Match)
    requires IsMatch(m, old_, new_, x)
    ensures Render(m, x).content == Unchanged <==> x.Paired? && x.reason == StrictBody
    ensures Render(m, x).content == Modified <==> x.Paired? && x.reason == BoundedSimilarity
    ensures Render(m, x).content == RemovedContent <==> x.Removed?
    ensures Render(m, x).content == AddedContent <==> x.Added?
  {
  }

  /** The block of one version that a match speaks about, if any. */
  function BlockOn(side: Side, x: Match): Option<Block> {
    match side
    case Old => if x.Added? then None else Some(x.left)
    case New => if x.Removed? then None else Some(x.right)
  }

  ghost function BlocksOf(side: Side, old_: set<Block>, new_: set<Block>): set<Block> {
    match side case Old => old_ case New => new_
  }

  lemma SomeMatchCovers(m: Measure, old_: set<Block>, new_: set<Block>, side: Side, b: Block) returns (x: Match)
    requires b in BlocksOf(side, old_, new_)
    ensures IsMatch(m, old_, new_, x) && BlockOn(side, x) == Some(b)
  {
    if l, r :| l in old_ && r in new_ && b == (if side.Old? then l else r) && StrictPair(m, old_, new_, l, r) {
      x := Paired(l, r, StrictBody, FULL_SCORE);
    } else if l, r :| l in old_ && r in new_ && b == (if side.Old? then l else r) && SimilarPair(m, old_, new_, l, r) {
      x := Paired(l, r, BoundedSimilarity, m.similarity(l, r));
    } else {
      x := if side.Old? then Removed(b) else Added(b);
    }
  }

  lemma CoverUnique(m: Measure, old_: set<Block>, new_: set<Block>, side: Side, x: Match, y: Match)
    requires UniqueIds(old_) && UniqueIds(new_)
    requires IsMatch(m, old_, new_, x) && IsMatch(m, old_, new_, y)
    requires BlockOn(side, x).Some? && BlockOn(side, x) == BlockOn(side, y)
    ensures x == y
  {
    if x.Paired? && y.Paired? {
      PartnersUnique(m, old_, new_, x.left, x.right, y.left, y.right);
    }
  }

  /** Every block of either version occurs in exactly one place of the diff, and the
      diff speaks about no other block. */
  lemma ExactCover(m: Measure, old_: set<Block>, new_: set<Block>, xs: seq<Match>, side: Side)
    requires UniqueIds(old_) && UniqueIds(new_) && IsDiff(m, old_, new_, xs)
    ensures forall b :: b in BlocksOf(side, old_, new_) ==> exists i :: 0 <= i < |xs| && BlockOn(side, xs[i]) == Some(b)
    ensures forall i, j :: 0 <= i < j < |xs| && BlockOn(side, xs[i]).Some? ==> BlockOn(side, xs[i]) != BlockOn(side, xs[j])
    ensures forall i :: 0 <= i < |xs| && BlockOn(side, xs[i]).Some? ==> BlockOn(side, xs[i]).value in BlocksOf(side, old_, new_)
  {
    DiffDistinct(m, old_, new_, xs);
    forall i | 0 <= i < |xs| ensures IsMatch(m, old_, new_, xs[i]) {
      assert xs[i] in xs;
    }
    forall b | b in BlocksOf(side, old_, new_) ensures exists i :: 0 <= i < |xs| && BlockOn(side, xs[i]) == Some(b) {
      var x := SomeMatchCovers(m, old_, new_, side, b);
      var i :| 0 <= i < |xs| && xs[i] == x;
    }
    forall i, j | 0 <= i < j < |xs| && BlockOn(side, xs[i]).Some? ensures BlockOn(side, xs[i]) != BlockOn(side, xs[j]) {
      if BlockOn(side, xs[i]) == BlockOn(side, xs[j]) {
        CoverUnique(m, old_, new_, side, xs[i], xs[j]);
      }
    }
  }

  lemma DiffDistinct(m: Measure, old_: set<Block>, new_: set<Block>, xs: seq<Match>)
    requires UniqueIds(old_) && UniqueIds(new_) && InOrder(m, old_, new_, xs)
    ensures Distinct(xs)
  {
    MatchOrderTransitive(m, old_, new_);
    forall i, j | 0 <= i < j < |xs| ensures xs[i] != xs[j] {
      assert MatchOrder(m, old_, new_)(xs[i], xs[j]);
    }
  }

  // ------------------------------------------------------------------ mirror

  function MirrorMatch(x: Match): Match {
    match x
    case Paired(l, r, reason, score) => Paired(r, l, reason, score)
    case Removed(l) => Added(l)
    case Added(r) => Removed(r)
  }

  /** Comparing the versions the other way round, with the scores read the other way
      round, finds the mirror image of every match and nothing else. */
  lemma MirrorDiff(m: Measure, m': Measure, old_: set<Block>, new_: set<Block>, xs: seq<Match>, ys: seq<Match>)
    requires UniqueIds(old_) && UniqueIds(new_)
    requires m'.fingerprint == m.fingerprint && forall a, b :: m'.similarity(a, b) == m.similarity(b, a)
    requires IsDiff(m, old_, new_, xs) && IsDiff(m', new_, old_, ys)
    ensures forall x :: x in xs <==> MirrorMatch(x) in ys
  {
    forall x ensures IsMatch(m, old_, new_, x) <==> IsMatch(m', new_, old_, MirrorMatch(x)) {
      MirrorIsMatch(m, m', old_, new_, x);
    }
  }

  lemma MirrorIsMatch(m: Measure, m': Measure, old_: set<Block>, new_: set<Block>, x: Match)
    requires m'.fingerprint == m.fingerprint && forall a, b :: m'.similarity(a, b) == m.similarity(b, a)
    ensures IsMatch(m, old_, new_, x) <==> IsMatch(m', new_, old_, MirrorMatch(x))
  {
    match x
    case Paired(l, r, _, _) =>
      MirrorPartners(m, m', old_, new_, l, r);
    case Removed(l) =>
      forall r ensures StrictPair(m, old_, new_, l, r) <==> StrictPair(m', new_, old_, r, l) {
        MirrorPartners(m, m', old_, new_, l, r);
      }
      forall r ensures SimilarPair(m, old_, new_, l, r) <==> SimilarPair(m', new_, old_, r, l) {
        MirrorPartners(m, m', old_, new_, l, r);
      }
    case Added(r) =>
      forall l ensures StrictPair(m, old_, new_, l, r) <==> StrictPair(m', new_, old_, r, l) {
        MirrorPartners(m, m', old_, new_, l, r);
      }
      forall l ensures SimilarPair(m, old_, new_, l, r) <==> SimilarPair(m', new_, old_, r, l) {
        MirrorPartners(m, m', old_, new_, l, r);
      }
  }

  lemma MirrorPartners(m: Measure, m': Measure, old_: set<Block>, new_: set<Block>, l: Block, r: Block)
    requires m'.fingerprint == m.fingerprint && forall a, b :: m'.similarity(a, b) == m.similarity(b, a)
    ensures StrictPair(m, old_, new_, l, r) <==> StrictPair(m', new_, old_, r, l)
    ensures SimilarPair(m, old_, new_, l, r) <==> SimilarPair(m', new_, old_, r, l)
  {
    forall s, f ensures WithFingerprint(m, s, f) == WithFingerprint(m', s, f) {}
    assert Remaining(m, old_, new_) == Remaining(m', old_, new_);
    assert Remaining(m, new_, old_) == Remaining(m', new_, old_);
  }

  // ------------------------------------------------------------ order of the result

  ghost predicate PlainOrdinals(s: set<Block>) {
    && (forall b :: b in s ==> 0 <= b.ordinal < UNMATCHED_ORDINAL)
    && (forall a, b :: a in s && b in s && a.ordinal == b.ordinal ==> a == b)
  }

  lemma KeyOrdinal(m: Measure, old_: set<Block>, new_: set<Block>, x: Match)
    requires UniqueIds(old_) && UniqueIds(new_) && PlainOrdinals(old_) && PlainOrdinals(new_)
    requires (forall b :: b in old_ ==> b.id != "") && IsMatch(m, old_, new_, x)
    ensures ItemKey(OrdinalsOf(old_), OrdinalsOf(new_), Render(m, x)).oldOrdinal
         == if x.Added? then UNMATCHED_ORDINAL + x.right.ordinal else x.left.ordinal
  {
    if x.Added? {
      assert "" !in OrdinalsOf(old_);
    }
  }

  lemma OrderStep(m: Measure, old_: set<Block>, new_: set<Block>, x: Match, y: Match)
    requires UniqueIds(old_) && UniqueIds(new_) && PlainOrdinals(old_) && PlainOrdinals(new_)
    requires (forall b :: b in old_ ==> b.id != "")
    requires IsMatch(m, old_, new_, x) && IsMatch(m, old_, new_, y) && x != y
    requires MatchLess(m, OrdinalsOf(old_), OrdinalsOf(new_), x, y)
    ensures !y.Added? ==> !x.Added? && x.left.ordinal < y.left.ordinal
    ensures x.Added? ==> y.Added? && x.right.ordinal < y.right.ordinal
  {
    KeyOrdinal(m, old_, new_, x);
    KeyOrdinal(m, old_, new_, y);
    assert x.Added? || x.left in old_;
    assert y.Added? || y.left in old_;
    if !x.Added? && !y.Added? && x.left.ordinal == y.left.ordinal {
      CoverUnique(m, old_, new_, Old, x, y);
    }
  }

  /** With distinct ordinals below the offset and no empty old identifier, the items of the
      old version come first, in old order, and the additions follow in new order. */
  lemma ResultOrder(m: Measure, old_: set<Block>, new_: set<Block>, xs: seq<Match>)
    requires UniqueIds(old_) && UniqueIds(new_) && PlainOrdinals(old_) && PlainOrdinals(new_)
    requires (forall b :: b in old_ ==> b.id != "") && IsDiff(m, old_, new_, xs)
    ensures forall i, j :: 0 <= i < j < |xs| && !xs[j].Added? ==> !xs[i].Added? && xs[i].left.ordinal < xs[j].left.ordinal
    ensures forall i, j :: 0 <= i < j < |xs| && xs[i].Added? ==> xs[j].Added? && xs[i].right.ordinal < xs[j].right.ordinal
  {
    DiffDistinct(m, old_, new_, xs);
    forall i, j | 0 <= i < j < |xs|
      ensures !xs[j].Added? ==> !xs[i].Added? && xs[i].left.ordinal < xs[j].left.ordinal
      ensures xs[i].Added? ==> xs[j].Added? && xs[i].right.ordinal < xs[j].right.ordinal
    {
      assert xs[i] in xs && xs[j] in xs;
      OrderStep(m, old_, new_, xs[i], xs[j]);
    }
  }

  // ---------------------------------------------------------------- statistics

  function Count(items: seq<Item>, k: ContentChange): nat {
    if items == [] then 0
    else Count(items[..|items| - 1], k) + if items[|items| - 1].content == k then 1 else 0
  }

  function CountMoved(items: seq<Item>): nat {
    if items == [] then 0
    else CountMoved(items[..|items| - 1]) + if items[|items| - 1].location == Moved then 1 else 0
  }

  /** The per-kind counters kept with a stored diff: only kinds that occur have one. */
  method ChangeStats(items: seq<Item>) returns (counts: map<ContentChange, nat>, moved: nat)
    ensures forall k :: k in counts <==> 0 < Count(items, k)
    ensures forall k :: k in counts ==> counts[k] == Count(items, k)
    ensures moved == CountMoved(items)
  {
    counts, moved := map[], 0;
    for i := 0 to |items|
      invariant forall k :: k in counts <==> 0 < Count(items[..i], k)
      invariant forall k :: k in counts ==> counts[k] == Count(items[..i], k)
      invariant moved == CountMoved(items[..i])
    {
      assert items[..i + 1][..i] == items[..i];
      var k := items[i].content;
      counts := counts[k := (if k in counts then counts[k] else 0) + 1];
      moved := moved + if items[i].location == Moved then 1 else 0;
    }
    assert items[..|items|] == items;
  }

  ghost function SideBlocks(side: Side, xs: seq<Match>): seq<Block> {
    if xs == [] then []
    else SideBlocks(side, xs[..|xs| - 1])
         + match BlockOn(side, xs[|xs| - 1]) case Some(b) => [b] case None => []
  }

  lemma {:induction false} SideBlocksCounted(m: Measure, side: Side, xs: seq<Match>)
    ensures |SideBlocks(side, xs)|
         == Count(RenderAll(m, xs), Unchanged) + Count(RenderAll(m, xs), Modified)
            + Count(RenderAll(m, xs), if side.Old? then RemovedContent else AddedContent)
  {
    if xs != [] {
      SideBlocksCounted(m, side, xs[..|xs| - 1]);
      assert RenderAll(m, xs)[..|xs| - 1] == RenderAll(m, xs[..|xs| - 1]);
    }
  }

  lemma {:induction false} SideBlocksElements(side: Side, xs: seq<Match>)
    requires forall i, j :: 0 <= i < j < |xs| && BlockOn(side, xs[i]).Some? ==> BlockOn(side, xs[i]) != BlockOn(side, xs[j])
    ensures Distinct(SideBlocks(side, xs))
    ensures forall b :: b in SideBlocks(side, xs) <==> exists i :: 0 <= i < |xs| && BlockOn(side, xs[i]) == Some(b)
  {
    if xs != [] {
      var front := xs[..|xs| - 1];
      SideBlocksElements(side, front);
      forall b ensures b in SideBlocks(side, xs) <==> exists i :: 0 <= i < |xs| && BlockOn(side, xs[i]) == Some(b) {
        if i :| 0 <= i < |xs| && BlockOn(side, xs[i]) == Some(b) {
          assert i == |xs| - 1 || BlockOn(side, front[i]) == Some(b);
        }
        if i :| 0 <= i < |front| && BlockOn(side, front[i]) == Some(b) {
          assert BlockOn(side, xs[i]) == Some(b);
        }
      }
    }
  }

  /** The counts add up to the number of blocks of each version. */
  lemma CountsAddUp(m: Measure, old_: set<Block>, new_: set<Block>, xs: seq<Match>, side: Side)
    requires UniqueIds(old_) && UniqueIds(new_) && IsDiff(m, old_, new_, xs)
    ensures Count(RenderAll(m, xs), Unchanged) + Count(RenderAll(m, xs), Modified)
            + Count(RenderAll(m, xs), if side.Old? then RemovedContent else AddedContent)
         == |BlocksOf(side, old_, new_)|
  {
    ExactCover(m, old_, new_, xs, side);
    SideBlocksCounted(m, side, xs);
    SideBlocksElements(side, xs);
    DistinctCardinality(SideBlocks(side, xs));
    assert (set b | b in SideBlocks(side, xs)) == BlocksOf(side, old_, new_);
  }

  // -------------------------------------------------------------- strict groups

  function Group(m: Measure, s: seq<Block>, f: string): seq<Block> {
    if s == [] then []
    else Group(m, s[..|s| - 1], f)
         + if m.fingerprint(s[|s| - 1]) == f then [s[|s| - 1]] else []
  }

  lemma {:induction false} GroupElements(m: Measure, s: seq<Block>, f: string)
    requires Ascending(s, BlockLess)
    ensures Ascending(Group(m, s, f), BlockLess)
    ensures forall b :: b in Group(m, s, f) <==> b in s && m.fingerprint(b) == f
  {
    if s != [] {
      GroupElements(m, s[..|s| - 1], f);
      var g := Group(m, s[..|s| - 1], f);
      forall b | b in g ensures BlockLess(b, s[|s| - 1]) {
        var k :| 0 <= k < |s| - 1 && s[k] == b;
      }
      forall k | 0 <= k < |g| ensures BlockLess(g[k], s[|s| - 1]) {
        assert g[k] in g;
      }
      forall b ensures b in s <==> b in s[..|s| - 1] || b == s[|s| - 1] {
        if b in s {
          var k :| 0 <= k < |s| && s[k] == b;
          assert k == |s| - 1 || s[..|s| - 1][k] == b;
        }
      }
    }
  }

  lemma AscendingDistinct(s: seq<Block>)
    requires Ascending(s, BlockLess)
    ensures Distinct(s)
  {
    forall i, j | 0 <= i < j < |s| ensures s[i] != s[j] {
      StringLessIrreflexive(s[i].id);
      assert BlockLess(s[i], s[j]);
    }
  }

  /** In a group the rank of a block is its index. */
  lemma GroupRanks(m: Measure, s: seq<Block>, f: string)
    requires Ascending(s, BlockLess)
    ensures |WithFingerprint(m, Elements(s), f)| == |Group(m, s, f)|
    ensures forall i :: 0 <= i < |Group(m, s, f)| ==> Rank(m, Elements(s), Group(m, s, f)[i]) == i
  {
    var g := Group(m, s, f);
    GroupElements(m, s, f);
    AscendingDistinct(g);
    DistinctCardinality(g);
    assert WithFingerprint(m, Elements(s), f) == set b | b in g;
    forall i | 0 <= i < |g| ensures Rank(m, Elements(s), g[i]) == i {
      assert g[i] in g;
      DistinctCardinality(g[..i]);
      var below := set c | c in WithFingerprint(m, Elements(s), f) && BlockLess(c, g[i]);
      forall c ensures c in below <==> c in g[..i] {
        RankPosition(g, i, c);
      }
      assert below == set c | c in g[..i];
    }
  }

  lemma RankPosition(g: seq<Block>, i: nat, c: Block)
    requires Ascending(g, BlockLess) && i < |g|
    ensures c in g && BlockLess(c, g[i]) <==> c in g[..i]
  {
    BlockLessTransitive();
    StringLessIrreflexive(g[i].id);
    if c in g {
      var k :| 0 <= k < |g| && g[k] == c;
      assert k >= i || g[..i][k] == c;
      assert k <= i || BlockLess(g[i], g[k]);
    }
    if c in g[..i] {
      var k :| 0 <= k < i && g[..i][k] == c;
      assert g[k] == c;
    }
  }

  method FingerprintGroups(m: Measure, blocks: seq<Block>) returns (groups: map<string, seq<Block>>)
    ensures forall f :: f in groups <==> Group(m, blocks, f) != []
    ensures forall f :: f in groups ==> groups[f] == Group(m, blocks, f)
  {
    groups := map[];
    for i := 0 to |blocks|
      invariant forall f :: f in groups <==> Group(m, blocks[..i], f) != []
      invariant forall f :: f in groups ==> groups[f] == Group(m, blocks[..i], f)
    {
      assert blocks[..i + 1][..i] == blocks[..i];
      var f := m.fingerprint(blocks[i]);
      groups := groups[f := (if f in groups then groups[f] else []) + [blocks[i]]];
    }
    assert blocks[..|blocks|] == blocks;
  }

  // ------------------------------------------------------------ similar pairs

  predicate RankedBefore(scoreA: int, a: Block, scoreB: int, b: Block) {
    scoreA > scoreB || (scoreA == scoreB && !BlockLess(b, a))
  }

  function OfKind(s: seq<Block>, kind: string): seq<Block> {
    if s == [] then []
    else (if s[0].kind == kind then [s[0]] else []) + OfKind(s[1..], kind)
  }

  lemma {:induction false} OfKindElements(s: seq<Block>, kind: string)
    requires Distinct(s)
    ensures Distinct(OfKind(s, kind))
    ensures forall b :: b in OfKind(s, kind) <==> b in s && b.kind == kind
  {
    if s != [] {
      OfKindElements(s[1..], kind);
      assert s == [s[0]] + s[1..];
      assert s[0] !in s[1..];
    }
  }

  /** The blocks of one kind, best score first, ties in document order. */
  function Ranking(s: seq<Block>, kind: string, score: Block -> int): seq<Block> {
    Sort(OfKind(s, kind), (a, b) => RankedBefore(score(a), a, score(b), b))
  }

  lemma RankingProperties(s: seq<Block>, kind: string, score: Block -> int)
    requires Distinct(s)
    ensures Distinct(Ranking(s, kind, score))
    ensures forall b :: b in Ranking(s, kind, score) <==> b in s && b.kind == kind
    ensures forall i, j :: 0 <= i < j < |Ranking(s, kind, score)| ==> score(Ranking(s, kind, score)[i]) >= score(Ranking(s, kind, score)[j])
  {
    var le := (a: Block, b: Block) => RankedBefore(score(a), a, score(b), b);
    var ge := (a: Block, b: Block) => score(a) >= score(b);
    OfKindElements(s, kind);
    SortPermutes(OfKind(s, kind), le);
    SortSeparates(OfKind(s, kind), le, (a, b) => a != b);
    SortAscending(OfKind(s, kind), le, ge);
  }

  /** The head of a ranking leads by the margin. */
  predicate ClearLead(ranked: seq<Block>, score: Block -> int) {
    |ranked| <= 1 || AMBIGUITY_MARGIN <= score(ranked[0]) - score(ranked[1])
  }

  /** A block beats every rival by the margin exactly when it heads the ranking with a
      clear lead: the tie-breaks of the ranking never decide. */
  lemma ClearLeadMeansBest(s: seq<Block>, kind: string, score: Block -> int, b: Block)
    requires Distinct(s) && b in s && b.kind == kind
    ensures var ranked := Ranking(s, kind, score);
            ranked != []
            && (ranked[0] == b && ClearLead(ranked, score)
                <==> forall c :: c in s && c != b && c.kind == kind ==> AMBIGUITY_MARGIN <= score(b) - score(c))
  {
    var ranked := Ranking(s, kind, score);
    RankingProperties(s, kind, score);
    var k :| 0 <= k < |ranked| && ranked[k] == b;
    if ranked[0] == b && ClearLead(ranked, score) {
      forall c | c in s && c != b && c.kind == kind ensures AMBIGUITY_MARGIN <= score(b) - score(c) {
        var j :| 0 <= j < |ranked| && ranked[j] == c;
        assert j == 1 || score(ranked[1]) >= score(ranked[j]);
      }
    }
    if forall c :: c in s && c != b && c.kind == kind ==> AMBIGUITY_MARGIN <= score(b) - score(c) {
      assert ranked[0] in ranked;
      assert |ranked| <= 1 || (ranked[1] in ranked && ranked[1] != ranked[0]);
    }
  }

  function ScoresOfLeft(m: Measure, left: Block): Block -> int {
    right => m.similarity(left, right)
  }

  function ScoresOfRight(m: Measure, right: Block): Block -> int {
    left => m.similarity(left, right)
  }

  ghost predicate UniqueIdsIn(s: seq<Block>) {
    Distinct(s) && UniqueIds(Elements(s))
  }

  lemma BestByRanking(m: Measure, old_: seq<Block>, new_: seq<Block>, left: Block, right: Block)
    requires Distinct(old_) && Distinct(new_)
    requires left in old_ && right in new_ && left.kind == right.kind
    ensures var ranked := Ranking(new_, left.kind, ScoresOfLeft(m, left));
            var reverse := Ranking(old_, right.kind, ScoresOfRight(m, right));
            && ranked != [] && reverse != []
            && (BestPair(m, Elements(old_), Elements(new_), left, right) <==>
                && MODIFIED_THRESHOLD <= m.similarity(left, right)
                && ranked[0] == right && ClearLead(ranked, ScoresOfLeft(m, left))
                && reverse[0] == left && ClearLead(reverse, ScoresOfRight(m, right)))
  {
    ClearLeadMeansBest(new_, left.kind, ScoresOfLeft(m, left), right);
    ClearLeadMeansBest(old_, right.kind, ScoresOfRight(m, right), left);
  }

  /** One step of the scan: the favourite of `left`, unless a threshold or margin fails. */
  method ClearFavourite(m: Measure, old_: seq<Block>, new_: seq<Block>, left: Block) returns (best: Option<Block>)
    requires UniqueIdsIn(old_) && UniqueIdsIn(new_) && left in old_
    ensures forall r :: BestPair(m, Elements(old_), Elements(new_), left, r) <==> best == Some(r)
  {
    var ranked := Ranking(new_, left.kind, ScoresOfLeft(m, left));
    RankingProperties(new_, left.kind, ScoresOfLeft(m, left));
    forall r | r in new_ && r.kind == left.kind
      ensures ranked != []
      ensures BestPair(m, Elements(old_), Elements(new_), left, r) ==> r == ranked[0]
    {
      BestByRanking(m, old_, new_, left, r);
    }
    if ranked == [] {
      return None;
    }
    var right := ranked[0];
    assert right in ranked;
    var score := m.similarity(left, right);
    var reverse := Ranking(old_, right.kind, ScoresOfRight(m, right));
    BestByRanking(m, old_, new_, left, right);
    RankingProperties(old_, right.kind, ScoresOfRight(m, right));
    assert reverse[0] in reverse;
    if score < MODIFIED_THRESHOLD || reverse == [] || reverse[0].id != left.id
       || (|ranked| > 1 && score - m.similarity(left, ranked[1]) < AMBIGUITY_MARGIN)
       || (|reverse| > 1 && score - m.similarity(reverse[1], right) < AMBIGUITY_MARGIN)
    {
      return None;
    }
    best := Some(right);
  }

  method ModifiedPairs(m: Measure, old_: seq<Block>, new_: seq<Block>) returns (pairs: seq<(Block, Block, int)>)
    requires UniqueIdsIn(old_) && UniqueIdsIn(new_)
    ensures forall p :: p in pairs <==> BestPair(m, Elements(old_), Elements(new_), p.0, p.1) && p.2 == m.similarity(p.0, p.1)
    ensures forall i, j :: 0 <= i < j < |pairs| ==> pairs[i].0 != pairs[j].0
  {
    var candidates: seq<(Block, Block, int)> := [];
    for i := 0 to |old_|
      invariant forall p :: p in candidates <==> p.0 in old_[..i] && BestPair(m, Elements(old_), Elements(new_), p.0, p.1) && p.2 == m.similarity(p.0, p.1)
      invariant forall a, b :: 0 <= a < b < |candidates| ==> candidates[a].0 != candidates[b].0
    {
      var left := old_[i];
      assert forall b :: b in old_[..i + 1] <==> b in old_[..i] || b == left;
      assert left !in old_[..i];
      var best := ClearFavourite(m, old_, new_, left);
      if best.Some? {
        candidates := candidates + [(left, best.value, m.similarity(left, best.value))];
      }
    }
    assert old_[..|old_|] == old_;
    var le := (p: (Block, Block, int), q: (Block, Block, int)) =>
      p.0.ordinal < q.0.ordinal || (p.0.ordinal == q.0.ordinal && p.1.ordinal <= q.1.ordinal);
    var apart := (p: (Block, Block, int), q: (Block, Block, int)) => p.0 != q.0;
    SortPermutes(candidates, le);
    SortSeparates(candidates, le, apart);
    pairs := Sort(candidates, le);
    assert forall i, j :: 0 <= i < j < |pairs| ==> apart(pairs[i], pairs[j]);
  }

  // ------------------------------------------------------------------ strict pass

  ghost predicate EqualGroups(m: Measure, os: seq<Block>, ns: seq<Block>, f: string) {
    Group(m, os, f) != [] && |Group(m, os, f)| == |Group(m, ns, f)|
  }

  ghost predicate UnequalGroups(m: Measure, os: seq<Block>, ns: seq<Block>, f: string) {
    Group(m, os, f) != [] && Group(m, ns, f) != [] && |Group(m, os, f)| != |Group(m, ns, f)|
  }

  lemma GroupIndex(m: Measure, s: seq<Block>, f: string, b: Block)
    requires Ascending(s, BlockLess)
    requires b in s && m.fingerprint(b) == f
    ensures Rank(m, Elements(s), b) < |Group(m, s, f)| && Group(m, s, f)[Rank(m, Elements(s), b)] == b
  {
    GroupElements(m, s, f);
    GroupRanks(m, s, f);
  }

  lemma GroupPairs(m: Measure, os: seq<Block>, ns: seq<Block>, f: string, l: Block, r: Block)
    requires Ascending(os, BlockLess) && Ascending(ns, BlockLess)
    requires |Group(m, os, f)| == |Group(m, ns, f)|
    ensures StrictPair(m, Elements(os), Elements(ns), l, r) && m.fingerprint(l) == f
       <==> exists i :: 0 <= i < |Group(m, os, f)| && Group(m, os, f)[i] == l && Group(m, ns, f)[i] == r
  {
    var go, gn := Group(m, os, f), Group(m, ns, f);
    if i :| 0 <= i < |go| && go[i] == l && gn[i] == r {
      IndexedPair(m, os, ns, f, i);
    }
    if StrictPair(m, Elements(os), Elements(ns), l, r) && m.fingerprint(l) == f {
      GroupIndex(m, os, f, l);
      GroupIndex(m, ns, f, r);
    }
  }

  lemma IndexedPair(m: Measure, os: seq<Block>, ns: seq<Block>, f: string, i: nat)
    requires Ascending(os, BlockLess) && Ascending(ns, BlockLess)
    requires i < |Group(m, os, f)| == |Group(m, ns, f)|
    ensures StrictPair(m, Elements(os), Elements(ns), Group(m, os, f)[i], Group(m, ns, f)[i])
    ensures m.fingerprint(Group(m, os, f)[i]) == f
  {
    GroupRanks(m, os, f);
    GroupRanks(m, ns, f);
    GroupElements(m, os, f);
    GroupElements(m, ns, f);
    assert Group(m, os, f)[i] in Group(m, os, f) && Group(m, ns, f)[i] in Group(m, ns, f);
  }

  ghost predicate StrictMatch(m: Measure, os: seq<Block>, ns: seq<Block>, x: Match) {
    && x.Paired? && x.reason == StrictBody && x.score == FULL_SCORE
    && StrictPair(m, Elements(os), Elements(ns), x.left, x.right)
  }

  function ZipPairs(go: seq<Block>, gn: seq<Block>): (pairs: seq<Match>)
    requires |go| == |gn|
    ensures |pairs| == |go|
    ensures forall i :: 0 <= i < |go| ==> pairs[i] == Paired(go[i], gn[i], StrictBody, FULL_SCORE)
  {
    seq(|go|, i requires 0 <= i < |go| => Paired(go[i], gn[i], StrictBody, FULL_SCORE))
  }

  ghost predicate DistinctLefts(pairs: seq<Match>) {
    && (forall i :: 0 <= i < |pairs| ==> pairs[i].Paired?)
    && (forall i, j :: 0 <= i < j < |pairs| ==> pairs[i].left != pairs[j].left)
  }

  lemma ZipPairsStrict(m: Measure, os: seq<Block>, ns: seq<Block>, f: string)
    requires Ascending(os, BlockLess) && Ascending(ns, BlockLess)
    requires |Group(m, os, f)| == |Group(m, ns, f)|
    ensures forall x :: x in ZipPairs(Group(m, os, f), Group(m, ns, f))
                   <==> StrictMatch(m, os, ns, x) && m.fingerprint(x.left) == f
    ensures DistinctLefts(ZipPairs(Group(m, os, f), Group(m, ns, f)))
  {
    var go, gn := Group(m, os, f), Group(m, ns, f);
    GroupElements(m, os, f);
    AscendingDistinct(go);
    forall x ensures x in ZipPairs(go, gn) <==> StrictMatch(m, os, ns, x) && m.fingerprint(x.left) == f {
      if x.Paired? {
        GroupPairs(m, os, ns, f, x.left, x.right);
        if i :| 0 <= i < |go| && go[i] == x.left && gn[i] == x.right {
          assert ZipPairs(go, gn)[i] in ZipPairs(go, gn);
        }
      }
    }
  }

  /** What the strict pass has found and marked. */
  datatype Pass = Pass(
    pairs: seq<Match>,
    pairedOld: set<string>,
    pairedNew: set<string>,
    ambiguousOld: set<string>,
    ambiguousNew: set<string>)

  ghost predicate Marked(m: Measure, os: seq<Block>, ns: seq<Block>, done: set<string>, p: Pass) {
    && (forall b :: b in os ==> (b.id in p.pairedOld <==> m.fingerprint(b) in done && EqualGroups(m, os, ns, m.fingerprint(b))))
    && (forall b :: b in ns ==> (b.id in p.pairedNew <==> m.fingerprint(b) in done && EqualGroups(m, os, ns, m.fingerprint(b))))
    && (forall b :: b in os ==> (b.id in p.ambiguousOld <==> m.fingerprint(b) in done && UnequalGroups(m, os, ns, m.fingerprint(b))))
    && (forall b :: b in ns ==> (b.id in p.ambiguousNew <==> m.fingerprint(b) in done && UnequalGroups(m, os, ns, m.fingerprint(b))))
  }

  ghost predicate PassInvariant(m: Measure, os: seq<Block>, ns: seq<Block>, done: set<string>, p: Pass) {
    && (forall x :: x in p.pairs <==> StrictMatch(m, os, ns, x) && m.fingerprint(x.left) in done)
    && DistinctLefts(p.pairs)
    && Marked(m, os, ns, done, p)
  }

  /** One fingerprint that occurs in both versions. */
  method PassStep(m: Measure, os: seq<Block>, ns: seq<Block>, f: string, go: seq<Block>, gn: seq<Block>, ghost done: set<string>, p: Pass)
    returns (q: Pass)
    requires Ascending(os, BlockLess) && Ascending(ns, BlockLess)
    requires UniqueIds(Elements(os)) && UniqueIds(Elements(ns))
    requires go == Group(m, os, f) != [] && gn == Group(m, ns, f) != [] && f !in done
    requires PassInvariant(m, os, ns, done, p)
    ensures PassInvariant(m, os, ns, done + {f}, q)
  {
    q := p;
    if |go| == |gn| {
      ZippedPairs(m, os, ns, f, done, p.pairs);
      q := q.(pairs := p.pairs + ZipPairs(go, gn), pairedOld := Mark(m, os, f, p.pairedOld), pairedNew := Mark(m, ns, f, p.pairedNew));
      MarkedStep(m, os, ns, f, done, p, q);
    } else if |go| > 1 || |gn| > 1 {
      UnzippedPairs(m, os, ns, f);
      q := q.(ambiguousOld := Mark(m, os, f, p.ambiguousOld), ambiguousNew := Mark(m, ns, f, p.ambiguousNew));
      MarkedStep(m, os, ns, f, done, p, q);
    }
  }

  lemma MarkedStep(m: Measure, os: seq<Block>, ns: seq<Block>, f: string, done: set<string>, p: Pass, q: Pass)
    requires Ascending(os, BlockLess) && Ascending(ns, BlockLess)
    requires UniqueIds(Elements(os)) && UniqueIds(Elements(ns))
    requires Group(m, os, f) != [] && Group(m, ns, f) != [] && Marked(m, os, ns, done, p)
    requires if EqualGroups(m, os, ns, f)
             then q == p.(pairs := q.pairs, pairedOld := Mark(m, os, f, p.pairedOld), pairedNew := Mark(m, ns, f, p.pairedNew))
             else q == p.(ambiguousOld := Mark(m, os, f, p.ambiguousOld), ambiguousNew := Mark(m, ns, f, p.ambiguousNew))
    ensures Marked(m, os, ns, done + {f}, q)
  {
    assert EqualGroups(m, os, ns, f) != UnequalGroups(m, os, ns, f);
  }

  lemma ZippedPairs(m: Measure, os: seq<Block>, ns: seq<Block>, f: string, done: set<string>, pairs: seq<Match>)
    requires Ascending(os, BlockLess) && Ascending(ns, BlockLess)
    requires |Group(m, os, f)| == |Group(m, ns, f)| && f !in done
    requires forall x :: x in pairs <==> StrictMatch(m, os, ns, x) && m.fingerprint(x.left) in done
    requires DistinctLefts(pairs)
    ensures var r := pairs + ZipPairs(Group(m, os, f), Group(m, ns, f));
            && DistinctLefts(r)
            && forall x :: x in r <==> StrictMatch(m, os, ns, x) && m.fingerprint(x.left) in done + {f}
  {
    ZipPairsStrict(m, os, ns, f);
    var zipped := ZipPairs(Group(m, os, f), Group(m, ns, f));
    forall i, j | 0 <= i < |pairs| && 0 <= j < |zipped| ensures pairs[i].left != zipped[j].left {
      assert pairs[i] in pairs && zipped[j] in zipped;
    }
  }

  lemma UnzippedPairs(m: Measure, os: seq<Block>, ns: seq<Block>, f: string)
    requires Ascending(os, BlockLess) && Ascending(ns, BlockLess)
    requires |Group(m, os, f)| != |Group(m, ns, f)|
    ensures forall x :: StrictMatch(m, os, ns, x) ==> m.fingerprint(x.left) != f
  {
    GroupRanks(m, os, f);
    GroupRanks(m, ns, f);
  }

  /** Pairs equally large groups in order; marks the blocks of unequal ones ambiguous. */
  method StrictPass(m: Measure, os: seq<Block>, ns: seq<Block>) returns (p: Pass)
    requires Ascending(os, BlockLess) && Ascending(ns, BlockLess)
    requires UniqueIds(Elements(os)) && UniqueIds(Elements(ns))
    ensures forall x :: x in p.pairs <==> StrictMatch(m, os, ns, x)
    ensures DistinctLefts(p.pairs)
    ensures forall b :: b in os ==> (b.id in p.pairedOld <==> EqualGroups(m, os, ns, m.fingerprint(b)))
    ensures forall b :: b in ns ==> (b.id in p.pairedNew <==> EqualGroups(m, os, ns, m.fingerprint(b)))
    ensures forall b :: b in os ==> (b.id in p.ambiguousOld <==> UnequalGroups(m, os, ns, m.fingerprint(b)))
    ensures forall b :: b in ns ==> (b.id in p.ambiguousNew <==> UnequalGroups(m, os, ns, m.fingerprint(b)))
  {
    var oldGroups := FingerprintGroups(m, os);
    var newGroups := FingerprintGroups(m, ns);
    p := Pass([], {}, {}, {}, {});
    var todo := oldGroups.Keys * newGroups.Keys;
    ghost var all := todo;
    while todo != {}
      invariant todo <= all
      invariant PassInvariant(m, os, ns, all - todo, p)
      decreases todo
    {
      var f :| f in todo;
      p := PassStep(m, os, ns, f, oldGroups[f], newGroups[f], all - todo, p);
      assert all - (todo - {f}) == all - todo + {f};
      todo := todo - {f};
    }
    forall x | StrictMatch(m, os, ns, x) ensures m.fingerprint(x.left) in all {
      GroupIndex(m, os, m.fingerprint(x.left), x.left);
      GroupIndex(m, ns, m.fingerprint(x.left), x.right);
    }
  }

  /** Adds the identifiers of one group. */
  function Mark(m: Measure, s: seq<Block>, f: string, ids: set<string>): (r: set<string>)
    requires Ascending(s, BlockLess) && UniqueIds(Elements(s))
    ensures forall b :: b in s ==> (b.id in r <==> b.id in ids || m.fingerprint(b) == f)
  {
    GroupElements(m, s, f);
    ids + set b | b in Group(m, s, f) :: b.id
  }

  /** Which blocks find a strict partner, in terms of the groups. */
  lemma StrictPartnerExists(m: Measure, os: seq<Block>, ns: seq<Block>, side: Side, b: Block)
    requires Ascending(os, BlockLess) && Ascending(ns, BlockLess)
    requires b in if side.Old? then os else ns
    ensures EqualGroups(m, os, ns, m.fingerprint(b)) <==> HasStrict(m, Elements(os), Elements(ns), side, b)
  {
    var f := m.fingerprint(b);
    var go, gn := Group(m, os, f), Group(m, ns, f);
    GroupRanks(m, os, f);
    GroupRanks(m, ns, f);
    GroupIndex(m, if side.Old? then os else ns, f, b);
    if |go| == |gn| {
      IndexedPair(m, os, ns, f, Rank(m, Elements(if side.Old? then os else ns), b));
    }
  }

  lemma SharedGroups(m: Measure, os: seq<Block>, ns: seq<Block>)
    requires Ascending(os, BlockLess) && Ascending(ns, BlockLess)
    ensures forall b :: b in os ==> (EqualGroups(m, os, ns, m.fingerprint(b)) || UnequalGroups(m, os, ns, m.fingerprint(b)) <==> Shared(m, Elements(ns), m.fingerprint(b)))
    ensures forall b :: b in ns ==> (EqualGroups(m, os, ns, m.fingerprint(b)) || UnequalGroups(m, os, ns, m.fingerprint(b)) <==> Shared(m, Elements(os), m.fingerprint(b)))
  {
    forall f ensures Group(m, os, f) != [] <==> Shared(m, Elements(os), f) {
      GroupShared(m, os, f);
    }
    forall f ensures Group(m, ns, f) != [] <==> Shared(m, Elements(ns), f) {
      GroupShared(m, ns, f);
    }
    assert forall b :: b in os ==> Shared(m, Elements(os), m.fingerprint(b));
    assert forall b :: b in ns ==> Shared(m, Elements(ns), m.fingerprint(b));
  }

  lemma GroupShared(m: Measure, s: seq<Block>, f: string)
    requires Ascending(s, BlockLess)
    ensures Group(m, s, f) != [] <==> Shared(m, Elements(s), f)
  {
    GroupElements(m, s, f);
    if Group(m, s, f) != [] {
      assert Group(m, s, f)[0] in Group(m, s, f);
    }
  }

  // -------------------------------------------------------------- what an item says

  /** The item names a block of one side with its evidence and locator, or none. */
  ghost predicate NamesBlock(s: set<Block>, id: Option<string>, evidence: Option<string>, locator: Option<string>) {
    match id
    case None => evidence == None && locator == None
    case Some(i) => exists b :: b in s && b.id == i && evidence == Some(b.evidence) && locator == b.locator
  }

  ghost predicate IsIn(s: set<Block>, b: Block, id: Option<string>) {
    b in s && id == Some(b.id)
  }

  /** What an item with two blocks says about them. */
  ghost predicate TellsPair(m: Measure, old_: set<Block>, new_: set<Block>, it: Item, l: Block, r: Block) {
    && Partners(m, old_, new_, l, r)
    && (it.location == SameLocation <==> l.path == r.path) && (it.location == Moved <==> l.path != r.path)
    && (StrictPair(m, old_, new_, l, r) ==> it.content == Unchanged && it.score == FULL_SCORE && it.reason == Some(StrictBody))
    && (SimilarPair(m, old_, new_, l, r) ==> it.content == Modified && it.score == m.similarity(l, r) && it.reason == Some(BoundedSimilarity))
  }

  /** What an item says about its blocks. */
  ghost predicate TellsTruth(m: Measure, old_: set<Block>, new_: set<Block>, it: Item) {
    && (it.oldId.Some? || it.newId.Some?)
    && NamesBlock(old_, it.oldId, it.oldEvidence, it.oldLocator) && NamesBlock(new_, it.newId, it.newEvidence, it.newLocator)
    && (forall l, r :: IsIn(old_, l, it.oldId) && IsIn(new_, r, it.newId) ==> TellsPair(m, old_, new_, it, l, r))
    && (it.oldId == None || it.newId == None ==> it.location == UnknownLocation && it.score == 0 && it.reason == None)
    && (it.newId == None ==> it.content == RemovedContent && forall l, r :: IsIn(old_, l, it.oldId) ==> !Partners(m, old_, new_, l, r))
    && (it.oldId == None ==> it.content == AddedContent && forall l, r :: IsIn(new_, r, it.newId) ==> !Partners(m, old_, new_, l, r))
  }

  /** Every item says what is true of its blocks. */
  lemma ItemsTellTruth(m: Measure, old_: set<Block>, new_: set<Block>, xs: seq<Match>, it: Item)
    requires UniqueIds(old_) && UniqueIds(new_) && IsDiff(m, old_, new_, xs) && it in RenderAll(m, xs)
    ensures TellsTruth(m, old_, new_, it)
  {
    var i :| 0 <= i < |xs| && Render(m, xs[i]) == it;
    assert xs[i] in xs;
    match xs[i]
    case Paired(l, r, _, _) => PairTellsTruth(m, old_, new_, xs[i]);
    case _ => LoneTellsTruth(m, old_, new_, xs[i]);
  }

  lemma PairTellsTruth(m: Measure, old_: set<Block>, new_: set<Block>, x: Match)
    requires UniqueIds(old_) && UniqueIds(new_) && IsMatch(m, old_, new_, x) && x.Paired?
    ensures TellsTruth(m, old_, new_, Render(m, x))
  {
    var it := Render(m, x);
    assert TellsPair(m, old_, new_, it, x.left, x.right);
    forall l, r | IsIn(old_, l, it.oldId) && IsIn(new_, r, it.newId) ensures l == x.left && r == x.right {}
    assert NamesBlock(old_, it.oldId, it.oldEvidence, it.oldLocator);
    assert NamesBlock(new_, it.newId, it.newEvidence, it.newLocator);
  }

  lemma LoneTellsTruth(m: Measure, old_: set<Block>, new_: set<Block>, x: Match)
    requires UniqueIds(old_) && UniqueIds(new_) && IsMatch(m, old_, new_, x) && !x.Paired?
    ensures TellsTruth(m, old_, new_, Render(m, x))
  {
    var it := Render(m, x);
    if x.Removed? {
      assert NamesBlock(old_, it.oldId, it.oldEvidence, it.oldLocator);
      forall l, r | IsIn(old_, l, it.oldId) ensures !Partners(m, old_, new_, l, r) {
        assert l == x.left;
      }
    } else {
      assert NamesBlock(new_, it.newId, it.newEvidence, it.newLocator);
      forall l, r | IsIn(new_, r, it.newId) ensures !Partners(m, old_, new_, l, r) {
        assert r == x.right;
      }
    }
  }

  /** The old blocks whose partner stands under another heading. */
  ghost function MovedBlocks(m: Measure, old_: set<Block>, new_: set<Block>): set<Block> {
    set l | l in old_ && exists r :: Partners(m, old_, new_, l, r) && l.path != r.path
  }

  ghost function MovedLefts(xs: seq<Match>): set<Block> {
    set x | x in xs && x.Paired? && x.left.path != x.right.path :: x.left
  }

  lemma MovedLeftsStep(front: seq<Match>, last: Match)
    requires forall x :: x in front && x.Paired? && last.Paired? ==> x.left != last.left
    ensures |MovedLefts(front + [last])| == |MovedLefts(front)| + if last.Paired? && last.left.path != last.right.path then 1 else 0
  {
    var moved := if last.Paired? && last.left.path != last.right.path then {last.left} else {};
    assert MovedLefts(front + [last]) == MovedLefts(front) + moved;
    assert MovedLefts(front) !! moved;
  }

  lemma {:induction false} MovedLeftsCounted(m: Measure, xs: seq<Match>)
    requires forall i, j :: 0 <= i < j < |xs| && xs[i].Paired? && xs[j].Paired? ==> xs[i].left != xs[j].left
    ensures CountMoved(RenderAll(m, xs)) == |MovedLefts(xs)|
  {
    if xs != [] {
      var n := |xs| - 1;
      MovedLeftsCounted(m, xs[..n]);
      assert RenderAll(m, xs)[..n] == RenderAll(m, xs[..n]);
      MovedLeftsStep(xs[..n], xs[n]);
      assert xs == xs[..n] + [xs[n]];
    }
  }

  lemma LeftsDiffer(m: Measure, old_: set<Block>, new_: set<Block>, xs: seq<Match>)
    requires UniqueIds(old_) && UniqueIds(new_) && IsDiff(m, old_, new_, xs)
    ensures forall i, j :: 0 <= i < j < |xs| && xs[i].Paired? && xs[j].Paired? ==> xs[i].left != xs[j].left
  {
    ExactCover(m, old_, new_, xs, Old);
    forall i, j | 0 <= i < j < |xs| && xs[i].Paired? && xs[j].Paired? ensures xs[i].left != xs[j].left {
      assert BlockOn(Old, xs[i]) != BlockOn(Old, xs[j]);
    }
  }

  lemma MovedIff(m: Measure, old_: set<Block>, new_: set<Block>, xs: seq<Match>, l: Block)
    requires UniqueIds(old_) && UniqueIds(new_) && IsDiff(m, old_, new_, xs)
    ensures l in MovedLefts(xs) <==> l in MovedBlocks(m, old_, new_)
  {
    if r :| Partners(m, old_, new_, l, r) && l.path != r.path {
      var x := if StrictPair(m, old_, new_, l, r) then Paired(l, r, StrictBody, FULL_SCORE) else Paired(l, r, BoundedSimilarity, m.similarity(l, r));
      assert IsMatch(m, old_, new_, x) && x in xs;
    }
    if x :| x in xs && x.Paired? && x.left.path != x.right.path && x.left == l {
      assert IsMatch(m, old_, new_, x);
      assert Partners(m, old_, new_, l, x.right);
    }
  }

  /** The counter of moved items is the number of paired blocks whose heading path changed. */
  lemma MovedCounted(m: Measure, old_: set<Block>, new_: set<Block>, xs: seq<Match>)
    requires UniqueIds(old_) && UniqueIds(new_) && IsDiff(m, old_, new_, xs)
    ensures CountMoved(RenderAll(m, xs)) == |MovedBlocks(m, old_, new_)|
  {
    LeftsDiffer(m, old_, new_, xs);
    MovedLeftsCounted(m, xs);
    forall l ensures l in MovedLefts(xs) <==> l in MovedBlocks(m, old_, new_) {
      MovedIff(m, old_, new_, xs, l);
    }
    assert MovedLefts(xs) == MovedBlocks(m, old_, new_);
  }

  // ------------------------------------------------------------- the whole search

  /** The blocks whose identifier is not in `ids`, in order. */
  function Without(s: seq<Block>, ids: set<string>): (r: seq<Block>)
    ensures forall b :: b in r <==> b in s && b.id !in ids
    ensures Distinct(s) ==> Distinct(r)
  {
    if s == [] then []
    else
      assert s == [s[0]] + s[1..];
      (if s[0].id in ids then [] else [s[0]]) + Without(s[1..], ids)
  }

  lemma KeysDiffer(m: Measure, old_: set<Block>, new_: set<Block>, x: Match, y: Match)
    requires UniqueIds(old_) && UniqueIds(new_)
    requires IsMatch(m, old_, new_, x) && IsMatch(m, old_, new_, y) && x != y
    requires IdOrEmpty(Render(m, x).oldId) == IdOrEmpty(Render(m, y).oldId)
    requires IdOrEmpty(Render(m, x).newId) == IdOrEmpty(Render(m, y).newId)
    ensures x.Added? != y.Added?
  {
    if !x.Added? && !y.Added? {
      CoverUnique(m, old_, new_, Old, x, y);
    } else if x.Added? && y.Added? {
      CoverUnique(m, old_, new_, New, x, y);
    }
  }

  function KeyAtMost(m: Measure, oo: map<string, int>, nn: map<string, int>): (Match, Match) -> bool {
    (x, y) => !KeyLess(ItemKey(oo, nn, Render(m, y)), ItemKey(oo, nn, Render(m, x)))
  }

  /** Sorting by key alone puts the matches in order, because the sort is stable. */
  lemma SortedInOrder(m: Measure, old_: set<Block>, new_: set<Block>, xs: seq<Match>)
    requires UniqueIds(old_) && UniqueIds(new_)
    requires Distinct(xs) && forall x :: x in xs <==> IsMatch(m, old_, new_, x)
    requires forall i, j :: 0 <= i < j < |xs| && xs[i].Added? ==> xs[j].Added?
    ensures IsDiff(m, old_, new_, Sort(xs, KeyAtMost(m, OrdinalsOf(old_), OrdinalsOf(new_))))
  {
    var oo, nn := OrdinalsOf(old_), OrdinalsOf(new_);
    var le, lt := KeyAtMost(m, oo, nn), MatchOrder(m, old_, new_);
    SortPermutes(xs, le);
    MatchOrderTransitive(m, old_, new_);
    forall i, j | 0 <= i < j < |xs| && le(xs[i], xs[j]) ensures lt(xs[i], xs[j]) {
      assert xs[i] in xs && xs[j] in xs;
      KeyLessTotal(ItemKey(oo, nn, Render(m, xs[i])), ItemKey(oo, nn, Render(m, xs[j])));
      if ItemKey(oo, nn, Render(m, xs[i])) == ItemKey(oo, nn, Render(m, xs[j])) {
        KeysDiffer(m, old_, new_, xs[i], xs[j]);
      }
    }
    SortAscending(xs, le, lt);
    var r := Sort(xs, le);
    forall i, j | 0 <= i < j < |r| ensures MatchLess(m, oo, nn, r[i], r[j]) {
      assert lt(r[i], r[j]);
    }
  }

  datatype Error = RepeatedBlockId

  predicate RepeatedIds(s: seq<Block>) {
    exists i, j :: 0 <= i < j < |s| && s[i].id == s[j].id
  }

  lemma RepeatsMore(front: seq<Block>, last: Block)
    ensures RepeatedIds(front + [last]) <==> RepeatedIds(front) || last.id in IdsOf(front)
  {
    var s := front + [last];
    if i, j :| 0 <= i < j < |s| && s[i].id == s[j].id {
      assert front[i] in front;
      assert j < |front| ==> front[i].id == front[j].id;
    }
    if i, j :| 0 <= i < j < |front| && front[i].id == front[j].id {
      assert s[i].id == s[j].id;
    }
    if last.id in IdsOf(front) {
      var i :| 0 <= i < |front| && front[i].id == last.id;
      assert s[i].id == s[|front|].id;
    }
  }

  /** Identifiers repeat exactly if there are fewer of them than blocks. */
  lemma {:induction false} RepeatedIff(s: seq<Block>)
    ensures RepeatedIds(s) <==> |IdsOf(s)| < |s|
    ensures |IdsOf(s)| <= |s|
  {
    if s != [] {
      var front, last := s[..|s| - 1], s[|s| - 1];
      RepeatedIff(front);
      RepeatsMore(front, last);
      assert s == front + [last];
      assert IdsOf(s) == IdsOf(front) + {last.id};
    }
  }

  ghost function IdsOf(s: seq<Block>): set<string> {
    set b | b in s :: b.id
  }

  lemma RepeatsInAnyOrder(a: seq<Block>, b: seq<Block>)
    requires multiset(a) == multiset(b) && RepeatedIds(a)
    ensures RepeatedIds(b)
  {
    var i, j :| 0 <= i < j < |a| && a[i].id == a[j].id;
    assert a[i] in multiset(b) && a[j] in multiset(b);
    if a[i] == a[j] {
      assert a == a[..j] + [a[j]] + a[j + 1..];
      assert a[..j][i] == a[i];
      assert multiset(a)[a[i]] >= 2;
      if Distinct(b) {
        DistinctCountsOnce(b, a[i]);
      }
    } else {
      var k :| 0 <= k < |b| && b[k] == a[i];
      var l :| 0 <= l < |b| && b[l] == a[j];
      assert b[k].id == b[l].id && k != l;
    }
  }

  /** Giving the blocks of either version in another order changes neither the outcome nor
      the diff. */
  lemma InputOrderIrrelevant(m: Measure, a: seq<Block>, a': seq<Block>, b: seq<Block>, b': seq<Block>, xs: seq<Match>, ys: seq<Match>)
    requires multiset(a) == multiset(a') && multiset(b) == multiset(b')
    ensures RepeatedIds(a) <==> RepeatedIds(a')
    ensures Elements(a) == Elements(a') && Elements(b) == Elements(b')
    ensures (&& UniqueIds(Elements(a)) && UniqueIds(Elements(b))
             && IsDiff(m, Elements(a), Elements(b), xs) && IsDiff(m, Elements(a'), Elements(b'), ys)) ==> xs == ys
  {
    if RepeatedIds(a) {
      RepeatsInAnyOrder(a, a');
    }
    if RepeatedIds(a') {
      RepeatsInAnyOrder(a', a);
    }
    assert Elements(a) == Elements(a') by {
      assert forall x :: x in a <==> x in multiset(a);
      assert forall x :: x in a' <==> x in multiset(a');
    }
    assert Elements(b) == Elements(b') by {
      assert forall x :: x in b <==> x in multiset(b);
      assert forall x :: x in b' <==> x in multiset(b');
    }
    if UniqueIds(Elements(a)) && UniqueIds(Elements(b)) && IsDiff(m, Elements(a), Elements(b), xs) && IsDiff(m, Elements(a), Elements(b), ys) {
      DiffUnique(m, Elements(a), Elements(b), xs, ys);
    }
  }

  lemma SortBlocks(s: seq<Block>)
    requires !RepeatedIds(s)
    ensures UniqueIds(Elements(s))
    ensures var os := Sort(s, (a, b) => !BlockLess(b, a));
            Ascending(os, BlockLess) && Distinct(os) && Elements(os) == Elements(s)
  {
    var le := (a: Block, b: Block) => !BlockLess(b, a);
    SortPermutes(s, le);
    BlockLessTransitive();
    forall i, j | 0 <= i < j < |s| && le(s[i], s[j]) ensures BlockLess(s[i], s[j]) {
      StringLessTotal(s[i].id, s[j].id);
      StringLessIrreflexive(s[i].id);
    }
    SortAscending(s, le, BlockLess);
    AscendingDistinct(Sort(s, le));
  }

  function SimilarMatches(pairs: seq<(Block, Block, int)>): (r: seq<Match>)
    ensures |r| == |pairs|
    ensures forall i :: 0 <= i < |r| ==> r[i] == Paired(pairs[i].0, pairs[i].1, BoundedSimilarity, pairs[i].2)
  {
    seq(|pairs|, i requires 0 <= i < |pairs| => Paired(pairs[i].0, pairs[i].1, BoundedSimilarity, pairs[i].2))
  }

  function Unpaired(s: seq<Block>, oldSide: bool): (r: seq<Match>)
    ensures |r| == |s|
    ensures forall i :: 0 <= i < |r| ==> r[i] == if oldSide then Removed(s[i]) else Added(s[i])
  {
    seq(|s|, i requires 0 <= i < |s| => if oldSide then Removed(s[i]) else Added(s[i]))
  }

  /** The pass over similar blocks, added to the strict pairs. */
  method PairedMatches(m: Measure, os: seq<Block>, ns: seq<Block>) returns (pairs: seq<Match>, pairedOld: set<string>, pairedNew: set<string>)
    requires Ascending(os, BlockLess) && Ascending(ns, BlockLess) && Distinct(os) && Distinct(ns)
    requires UniqueIds(Elements(os)) && UniqueIds(Elements(ns))
    ensures DistinctLefts(pairs)
    ensures forall x :: x in pairs <==> x.Paired? && IsMatch(m, Elements(os), Elements(ns), x)
    ensures forall b :: b in os ==> (b.id in pairedOld <==> HasPartner(m, Elements(os), Elements(ns), Old, b))
    ensures forall b :: b in ns ==> (b.id in pairedNew <==> HasPartner(m, Elements(os), Elements(ns), New, b))
  {
    var p := StrictPass(m, os, ns);
    var remainingOld := Without(os, p.pairedOld + p.ambiguousOld);
    var remainingNew := Without(ns, p.pairedNew + p.ambiguousNew);
    assert Elements(remainingOld) == Remaining(m, Elements(os), Elements(ns)) &&
           Elements(remainingNew) == Remaining(m, Elements(ns), Elements(os)) by {
      SharedGroups(m, os, ns);
    }
    var similar := ModifiedPairs(m, remainingOld, remainingNew);
    pairs := p.pairs + SimilarMatches(similar);
    pairedOld := p.pairedOld + set q | q in similar :: q.0.id;
    pairedNew := p.pairedNew + set q | q in similar :: q.1.id;
    MorePairs(m, os, ns, p.pairs, similar);
    JoinMarks(m, os, ns, p, similar);
  }

  lemma JoinMarks(m: Measure, os: seq<Block>, ns: seq<Block>, p: Pass, similar: seq<(Block, Block, int)>)
    requires Ascending(os, BlockLess) && Ascending(ns, BlockLess)
    requires UniqueIds(Elements(os)) && UniqueIds(Elements(ns))
    requires forall b :: b in os ==> (b.id in p.pairedOld <==> EqualGroups(m, os, ns, m.fingerprint(b)))
    requires forall b :: b in ns ==> (b.id in p.pairedNew <==> EqualGroups(m, os, ns, m.fingerprint(b)))
    requires forall q :: q in similar <==> SimilarPair(m, Elements(os), Elements(ns), q.0, q.1) && q.2 == m.similarity(q.0, q.1)
    ensures forall b :: b in os ==> (b.id in p.pairedOld + (set q | q in similar :: q.0.id) <==> HasPartner(m, Elements(os), Elements(ns), Old, b))
    ensures forall b :: b in ns ==> (b.id in p.pairedNew + (set q | q in similar :: q.1.id) <==> HasPartner(m, Elements(os), Elements(ns), New, b))
  {
    forall b | b in os ensures b.id in p.pairedOld + (set q | q in similar :: q.0.id) <==> HasPartner(m, Elements(os), Elements(ns), Old, b) {
      StrictPartnerExists(m, os, ns, Old, b);
      MoreMarks(m, Elements(os), Elements(ns), similar, Old, b);
    }
    forall b | b in ns ensures b.id in p.pairedNew + (set q | q in similar :: q.1.id) <==> HasPartner(m, Elements(os), Elements(ns), New, b) {
      StrictPartnerExists(m, os, ns, New, b);
      MoreMarks(m, Elements(os), Elements(ns), similar, New, b);
    }
  }

  lemma MorePairs(m: Measure, os: seq<Block>, ns: seq<Block>, pairs: seq<Match>, similar: seq<(Block, Block, int)>)
    requires forall x :: x in pairs <==> StrictMatch(m, os, ns, x)
    requires DistinctLefts(pairs)
    requires forall q :: q in similar <==> SimilarPair(m, Elements(os), Elements(ns), q.0, q.1) && q.2 == m.similarity(q.0, q.1)
    requires forall i, j :: 0 <= i < j < |similar| ==> similar[i].0 != similar[j].0
    ensures DistinctLefts(pairs + SimilarMatches(similar))
    ensures forall x :: x in pairs + SimilarMatches(similar) <==> x.Paired? && IsMatch(m, Elements(os), Elements(ns), x)
  {
    var more := SimilarMatches(similar);
    forall i, j | 0 <= i < |pairs| && 0 <= j < |more| ensures pairs[i].left != more[j].left {
      assert pairs[i] in pairs && similar[j] in similar;
    }
    forall x ensures x in more <==> x.Paired? && x.reason == BoundedSimilarity && IsMatch(m, Elements(os), Elements(ns), x) {
      if x.Paired? && x.reason == BoundedSimilarity && (x.left, x.right, x.score) in similar {
        var i :| 0 <= i < |similar| && similar[i] == (x.left, x.right, x.score);
        assert more[i] == x;
      }
      if x in more {
        var i :| 0 <= i < |more| && more[i] == x;
        assert similar[i] in similar;
      }
    }
  }

  lemma MoreMarks(m: Measure, old_: set<Block>, new_: set<Block>, similar: seq<(Block, Block, int)>, side: Side, b: Block)
    requires UniqueIds(old_) && UniqueIds(new_) && b in BlocksOf(side, old_, new_)
    requires forall q :: q in similar <==> SimilarPair(m, old_, new_, q.0, q.1) && q.2 == m.similarity(q.0, q.1)
    ensures b.id in (if side.Old? then set q | q in similar :: q.0.id else set q | q in similar :: q.1.id)
       <==> HasSimilar(m, old_, new_, side, b)
  {
    match side
    case Old =>
      if c :| SimilarPair(m, old_, new_, b, c) {
        assert (b, c, m.similarity(b, c)) in similar;
      }
    case New =>
      if c :| SimilarPair(m, old_, new_, c, b) {
        assert (c, b, m.similarity(c, b)) in similar;
      }
  }

  function OrdinalMap(s: seq<Block>): (r: map<string, int>)
    requires UniqueIds(Elements(s))
    ensures r == OrdinalsOf(Elements(s))
  {
    map b | b in s :: b.id := b.ordinal
  }

  /** The diff of two versions, whatever the order in which their blocks are given. */
  method MatchVersionBlocks(m: Measure, oldBlocks: seq<Block>, newBlocks: seq<Block>)
    returns (r: Result<seq<Item>, Error>, ghost matches: seq<Match>)
    ensures r.Err? <==> RepeatedIds(oldBlocks) || RepeatedIds(newBlocks)
    ensures r.Ok? ==> UniqueIds(Elements(oldBlocks)) && UniqueIds(Elements(newBlocks))
                      && IsDiff(m, Elements(oldBlocks), Elements(newBlocks), matches)
                      && r.value == RenderAll(m, matches)
    ensures r.Ok? ==> forall it :: it in r.value ==> TellsTruth(m, Elements(oldBlocks), Elements(newBlocks), it)
  {
    matches := [];
    if RepeatedIds(oldBlocks) || RepeatedIds(newBlocks) {
      return Err(RepeatedBlockId), [];
    }
    SortBlocks(oldBlocks);
    SortBlocks(newBlocks);
    var os := Sort(oldBlocks, (a, b) => !BlockLess(b, a));
    var ns := Sort(newBlocks, (a, b) => !BlockLess(b, a));
    var pairs, pairedOld, pairedNew := PairedMatches(m, os, ns);
    var removed := Unpaired(Without(os, pairedOld), true);
    var added := Unpaired(Without(ns, pairedNew), false);
    var all := pairs + removed + added;
    AllMatches(m, os, ns, pairs, Without(os, pairedOld), Without(ns, pairedNew));
    var oo, nn := OrdinalMap(os), OrdinalMap(ns);
    SortedInOrder(m, Elements(os), Elements(ns), all);
    var ordered := Sort(all, KeyAtMost(m, oo, nn));
    matches := ordered;
    r := Ok(RenderAll(m, ordered));
    forall it | it in r.value {
      ItemsTellTruth(m, Elements(oldBlocks), Elements(newBlocks), matches, it);
    }
  }

  lemma AllMatches(m: Measure, os: seq<Block>, ns: seq<Block>, pairs: seq<Match>, freeOld: seq<Block>, freeNew: seq<Block>)
    requires DistinctLefts(pairs) && Distinct(freeOld) && Distinct(freeNew)
    requires forall x :: x in pairs <==> x.Paired? && IsMatch(m, Elements(os), Elements(ns), x)
    requires forall b :: b in freeOld <==> b in os && !HasPartner(m, Elements(os), Elements(ns), Old, b)
    requires forall b :: b in freeNew <==> b in ns && !HasPartner(m, Elements(os), Elements(ns), New, b)
    ensures var all := pairs + Unpaired(freeOld, true) + Unpaired(freeNew, false);
            && Distinct(all)
            && (forall x :: x in all <==> IsMatch(m, Elements(os), Elements(ns), x))
            && (forall i, j :: 0 <= i < j < |all| && all[i].Added? ==> all[j].Added?)
  {
    var removed, added := Unpaired(freeOld, true), Unpaired(freeNew, false);
    forall x ensures x in removed <==> x.Removed? && IsMatch(m, Elements(os), Elements(ns), x) {
      if x.Removed? && x.left in freeOld {
        var i :| 0 <= i < |freeOld| && freeOld[i] == x.left;
        assert removed[i] == x;
      }
      if x in removed {
        var i :| 0 <= i < |removed| && removed[i] == x;
        assert freeOld[i] in freeOld;
      }
    }
    forall x ensures x in added <==> x.Added? && IsMatch(m, Elements(os), Elements(ns), x) {
      if x.Added? && x.right in freeNew {
        var i :| 0 <= i < |freeNew| && freeNew[i] == x.right;
        assert added[i] == x;
      }
      if x in added {
        var i :| 0 <= i < |added| && added[i] == x;
        assert freeNew[i] in freeNew;
      }
    }
  }
}
