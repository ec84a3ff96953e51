/** The bounded window of source blocks around an anchor block.

    Rows carry their text already stripped; they come in the order of their ordinals, which
    are unique within a document. */
module SourceWindow {
  import opened Ordering
  import opened Values

  const SECTION_MAX := 12_000
  const FULL_SOURCE_MAX := 6_000

  type Path = seq<string>

  datatype Row = Row(ordinal: int, heading: bool, text: string, path: Path)

  predicate OrdinalBefore(a: Row, b: Row) {
    a.ordinal < b.ordinal
  }

  function Total(rows: seq<Row>): nat {
    if rows == [] then 0 else Total(rows[..|rows| - 1]) + |rows[|rows| - 1].text|
  }

  /** The length of the texts joined by blank lines. */
  function CharacterCount(rows: seq<Row>): nat {
    if rows == [] then 0 else Total(rows) + (|rows| - 1) * 2
  }

  /** The texts with a blank line between each two. */
  function JoinedText(rows: seq<Row>): string {
    if rows == [] then ""
    else if |rows| == 1 then rows[0].text
    else JoinedText(rows[..|rows| - 1]) + "\n\n" + rows[|rows| - 1].text
  }

  lemma {:induction false} CountIsLength(rows: seq<Row>)
    ensures CharacterCount(rows) == |JoinedText(rows)|
  {
    if |rows| > 1 {
      CountIsLength(rows[..|rows| - 1]);
    } else if |rows| == 1 {
      assert rows[..|rows| - 1] == [] && Total(rows) == Total([]) + |rows[0].text|;
    }
  }

  // ------------------------------------------------------------ nearest first

  function Distance(a: int, b: int): nat { if a <= b then b - a else a - b }

  /** Closer to the anchor, or as close but behind it. */
  predicate Nearer(anchor: nat, i: nat, j: nat) {
    Distance(anchor, i) < Distance(anchor, j) || (Distance(anchor, i) == Distance(anchor, j) && i > j)
  }

  ghost predicate Covers(order: seq<nat>, length: nat) {
    Distinct(order) && forall i: nat :: i in order <==> i < length
  }

  /** All indexes, nearest to the anchor first. */
  method NearbyBlockIndexes(length: nat, anchor: nat) returns (values: seq<nat>)
    requires anchor < length
    ensures Ascending(values, (i, j) => Nearer(anchor, i, j))
    ensures Covers(values, length)
  {
    values := [anchor];
    for distance := 1 to length
      invariant forall p, q :: 0 <= p < q < |values| ==> Nearer(anchor, values[p], values[q])
      invariant forall i: nat :: i in values <==> i < length && Distance(anchor, i) < distance
    {
      var right, left := anchor + distance, anchor - distance;
      if right < length {
        values := values + [right];
      }
      if left >= 0 {
        values := values + [left];
      }
    }
  }

  // ------------------------------------------------------------ child phases in turn

  predicate IsChild(row: Row, path: Path) {
    |row.path| > |path| && row.path[..|path|] == path
  }

  /** Within a phase, text before headings, then in document order. */
  predicate RankBefore(rows: seq<Row>, i: nat, j: nat) {
    && i < |rows| && j < |rows|
    && ((!rows[i].heading && rows[j].heading) || (rows[i].heading == rows[j].heading && i < j))
  }

  predicate InPhase(rows: seq<Row>, path: Path, i: nat) {
    i < |rows| && rows[i].path == path
  }

  /** The indexes below `n` of rows with a path. */
  function Members(rows: seq<Row>, path: Path, n: nat): seq<nat>
    requires n <= |rows|
  {
    if n == 0 then [] else Members(rows, path, n - 1) + if rows[n - 1].path == path then [n - 1] else []
  }

  lemma {:induction false} MembersAre(rows: seq<Row>, path: Path, n: nat)
    requires n <= |rows|
    ensures forall i: nat :: i in Members(rows, path, n) <==> i < n && InPhase(rows, path, i)
    ensures Ascending(Members(rows, path, n), (i, j) => i < j)
  {
    if n > 0 {
      var front := Members(rows, path, n - 1);
      MembersAre(rows, path, n - 1);
      forall k | 0 <= k < |front| ensures front[k] < n - 1 {
        assert front[k] in front;
      }
    }
  }

  /** The paths below the anchor's. */
  ghost function Phases(rows: seq<Row>, anchorPath: Path): set<Path> {
    set row | row in rows && IsChild(row, anchorPath) :: row.path
  }

  /** How many members of its phase come before a block. */
  ghost function Rank(rows: seq<Row>, i: nat): nat
    requires i < |rows|
  {
    |set j: nat | j < |rows| && InPhase(rows, rows[i].path, j) && RankBefore(rows, j, i)|
  }

  function First(rows: seq<Row>, path: Path): nat {
    var members := Members(rows, path, |rows|);
    if members == [] then |rows| else members[0]
  }

  /** Shorter paths first, then the phase that starts first. */
  predicate PhaseBefore(rows: seq<Row>, p: Path, q: Path) {
    |p| < |q| || (|p| == |q| && First(rows, p) < First(rows, q))
  }

  /** Every phase's first block before any phase's second, and so on; within a round the
      phases keep their order. */
  ghost predicate TurnBefore(rows: seq<Row>, i: nat, j: nat) {
    && i < |rows| && j < |rows|
    && (Rank(rows, i) < Rank(rows, j) || (Rank(rows, i) == Rank(rows, j) && PhaseBefore(rows, rows[i].path, rows[j].path)))
  }

  /** The blocks of the child phases, in turn. */
  ghost predicate IsOutline(rows: seq<Row>, anchorPath: Path, order: seq<nat>) {
    && (forall i: nat :: i in order <==> i < |rows| && IsChild(rows[i], anchorPath))
    && forall p, q :: 0 <= p < q < |order| ==> TurnBefore(rows, order[p], order[q])
  }

  lemma GroupStep(rows: seq<Row>, anchorPath: Path, n: nat)
    requires n < |rows|
    ensures Phases(rows[..n + 1], anchorPath) == Phases(rows[..n], anchorPath) + if IsChild(rows[n], anchorPath) then {rows[n].path} else {}
    ensures IsChild(rows[n], anchorPath) && rows[n].path !in Phases(rows[..n], anchorPath) ==> Members(rows, rows[n].path, n) == []
    ensures forall p :: p in Phases(rows[..n], anchorPath) && !IsChild(rows[n], anchorPath) ==> p != rows[n].path
    ensures forall p :: p != rows[n].path ==> Members(rows, p, n + 1) == Members(rows, p, n)
    ensures Members(rows, rows[n].path, n + 1) == Members(rows, rows[n].path, n) + [n]
  {
    assert rows[..n + 1] == rows[..n] + [rows[n]];
    MembersAre(rows, rows[n].path, n);
    var earlier := Members(rows, rows[n].path, n);
    if earlier != [] {
      assert earlier[0] in earlier;
      assert rows[..n][earlier[0]] == rows[earlier[0]];
      assert rows[earlier[0]] in rows[..n];
    }
  }

  method GroupPhases(rows: seq<Row>, anchorPath: Path) returns (groups: map<Path, seq<nat>>)
    ensures groups.Keys == Phases(rows, anchorPath)
    ensures forall p :: p in groups ==> groups[p] == Members(rows, p, |rows|)
  {
    groups := map[];
    for n := 0 to |rows|
      invariant groups.Keys == Phases(rows[..n], anchorPath)
      invariant forall p :: p in groups ==> groups[p] == Members(rows, p, n)
    {
      GroupStep(rows, anchorPath, n);
      if !IsChild(rows[n], anchorPath) {
        continue;
      }
      var path := rows[n].path;
      groups := groups[path := (if path in groups then groups[path] else []) + [n]];
    }
    assert rows[..|rows|] == rows;
  }

  /** All of each round before the next: slot `(d, g)` stands for element `d` of group `g`. */
  predicate SlotBefore(a: (nat, nat), b: (nat, nat)) {
    a.0 < b.0 || (a.0 == b.0 && a.1 < b.1)
  }

  ghost predicate IsSlot(ranked: seq<seq<nat>>, s: (nat, nat)) {
    s.1 < |ranked| && s.0 < |ranked[s.1]|
  }

  ghost predicate FillsSlots(ranked: seq<seq<nat>>, selected: seq<nat>, slots: seq<(nat, nat)>, depth: nat, group: nat) {
    && |slots| == |selected|
    && (forall k :: 0 <= k < |slots| ==> IsSlot(ranked, slots[k]) && selected[k] == ranked[slots[k].1][slots[k].0])
    && (forall s :: s in slots <==> IsSlot(ranked, s) && SlotBefore(s, (depth, group)))
    && Ascending(slots, SlotBefore)
  }

  /** All slots are visited, round by round. */
  ghost predicate TakesTurns(ranked: seq<seq<nat>>, selected: seq<nat>, slots: seq<(nat, nat)>, rounds: nat) {
    FillsSlots(ranked, selected, slots, rounds, 0) && forall s :: IsSlot(ranked, s) ==> s in slots
  }

  method RoundRobin(ranked: seq<seq<nat>>) returns (selected: seq<nat>)
    ensures exists slots: seq<(nat, nat)>, rounds: nat :: TakesTurns(ranked, selected, slots, rounds)
  {
    var longest: nat := 0;
    for g := 0 to |ranked|
      invariant forall k :: 0 <= k < g ==> |ranked[k]| <= longest
    {
      longest := if |ranked[g]| > longest then |ranked[g]| else longest;
    }
    ghost var slots: seq<(nat, nat)> := [];
    selected := [];
    for depth := 0 to longest
      invariant FillsSlots(ranked, selected, slots, depth, 0)
    {
      for g := 0 to |ranked|
        invariant FillsSlots(ranked, selected, slots, depth, g)
      {
        if depth < |ranked[g]| {
          selected, slots := selected + [ranked[g][depth]], slots + [(depth, g)];
        }
      }
      NextRound(ranked, selected, slots, depth);
    }
    assert TakesTurns(ranked, selected, slots, longest);
  }

  lemma NextRound(ranked: seq<seq<nat>>, selected: seq<nat>, slots: seq<(nat, nat)>, depth: nat)
    requires FillsSlots(ranked, selected, slots, depth, |ranked|)
    ensures FillsSlots(ranked, selected, slots, depth + 1, 0)
  {
  }

  /** The groups in phase order, each with its members by rank. */
  ghost predicate IsRanking(rows: seq<Row>, paths: seq<Path>, ranked: seq<seq<nat>>) {
    && |ranked| == |paths|
    && (forall p, q :: 0 <= p < q < |paths| ==> PhaseBefore(rows, paths[p], paths[q]))
    && forall g :: 0 <= g < |ranked| ==> IsRanked(rows, paths[g], ranked[g])
  }

  ghost predicate IsRanked(rows: seq<Row>, path: Path, group: seq<nat>) {
    && (forall i: nat :: i in group <==> InPhase(rows, path, i))
    && forall p, q :: 0 <= p < q < |group| ==> RankBefore(rows, group[p], group[q])
  }

  lemma RankedPosition(rows: seq<Row>, path: Path, group: seq<nat>, d: nat)
    requires IsRanked(rows, path, group) && d < |group|
    ensures InPhase(rows, path, group[d]) && Rank(rows, group[d]) == d
  {
    assert group[d] in group;
    var before := group[..d];
    DistinctCardinality(before);
    var earlier := set j: nat | j < |rows| && InPhase(rows, path, j) && RankBefore(rows, j, group[d]);
    assert Rank(rows, group[d]) == |earlier|;
    assert earlier == (set j: nat | j in before) by {
      forall j: nat | j in earlier ensures j in before {
        var k :| 0 <= k < |group| && group[k] == j;
        assert k < d;
      }
      forall j | j in before ensures j in earlier {
        var k :| 0 <= k < d && before[k] == j;
        assert group[k] in group;
      }
    }
  }

  predicate PhaseAtMost(rows: seq<Row>, p: Path, q: Path) {
    !PhaseBefore(rows, q, p)
  }

  predicate RankAtMost(rows: seq<Row>, i: nat, j: nat) {
    !RankBefore(rows, j, i)
  }

  lemma FirstInPhase(rows: seq<Row>, path: Path)
    requires Members(rows, path, |rows|) != []
    ensures InPhase(rows, path, First(rows, path))
  {
    MembersAre(rows, path, |rows|);
    assert First(rows, path) in Members(rows, path, |rows|);
  }

  lemma SortedPhases(rows: seq<Row>, paths: seq<Path>)
    requires Distinct(paths) && forall p :: p in paths ==> Members(rows, p, |rows|) != []
    ensures Ascending(Sort(paths, (p, q) => PhaseAtMost(rows, p, q)), (p, q) => PhaseBefore(rows, p, q))
  {
    forall i, j | 0 <= i < j < |paths| ensures First(rows, paths[i]) != First(rows, paths[j]) {
      FirstInPhase(rows, paths[i]);
      FirstInPhase(rows, paths[j]);
    }
    SortAscending(paths, (p, q) => PhaseAtMost(rows, p, q), (p, q) => PhaseBefore(rows, p, q));
  }

  lemma SortedRanks(rows: seq<Row>, path: Path)
    ensures IsRanked(rows, path, Sort(Members(rows, path, |rows|), (i, j) => RankAtMost(rows, i, j)))
  {
    var members := Members(rows, path, |rows|);
    MembersAre(rows, path, |rows|);
    SortPermutes(members, (i, j) => RankAtMost(rows, i, j));
    assert Ascending(Sort(members, (i, j) => RankAtMost(rows, i, j)), (i, j) => RankBefore(rows, i, j)) by {
      RanksSort(rows, members);
    }
  }

  lemma RanksSort(rows: seq<Row>, members: seq<nat>)
    requires Ascending(members, (i, j) => i < j) && forall i :: i in members ==> i < |rows|
    ensures Ascending(Sort(members, (i, j) => RankAtMost(rows, i, j)), (i, j) => RankBefore(rows, i, j))
  {
    forall p | 0 <= p < |members| ensures members[p] < |rows| {
      assert members[p] in members;
    }
    SortAscending(members, (i, j) => RankAtMost(rows, i, j), (i, j) => RankBefore(rows, i, j));
  }

  method RankGroups(rows: seq<Row>, groups: map<Path, seq<nat>>) returns (ranked: seq<seq<nat>>, ghost paths: seq<Path>)
    requires forall p :: p in groups ==> groups[p] == Members(rows, p, |rows|) != []
    ensures IsRanking(rows, paths, ranked)
    ensures forall p :: p in paths <==> p in groups
  {
    var listed := Listed(groups.Keys);
    SortedPhases(rows, listed);
    SortPermutes(listed, (p, q) => PhaseAtMost(rows, p, q));
    var sorted := Sort(listed, (p, q) => PhaseAtMost(rows, p, q));
    paths := sorted;
    ranked := [];
    for g := 0 to |sorted|
      invariant |ranked| == g
      invariant forall k :: 0 <= k < g ==> IsRanked(rows, sorted[k], ranked[k])
    {
      assert sorted[g] in sorted;
      SortedRanks(rows, sorted[g]);
      ranked := ranked + [Sort(groups[sorted[g]], (i, j) => RankAtMost(rows, i, j))];
    }
  }

  lemma OutlineFromSlots(rows: seq<Row>, anchorPath: Path, paths: seq<Path>, ranked: seq<seq<nat>>, selected: seq<nat>, slots: seq<(nat, nat)>, rounds: nat)
    requires IsRanking(rows, paths, ranked) && forall p :: p in paths <==> p in Phases(rows, anchorPath)
    requires TakesTurns(ranked, selected, slots, rounds)
    ensures IsOutline(rows, anchorPath, selected)
  {
    forall k | 0 <= k < |selected| ensures selected[k] < |rows| && IsChild(rows[selected[k]], anchorPath) {
      RankedPosition(rows, paths[slots[k].1], ranked[slots[k].1], slots[k].0);
      assert paths[slots[k].1] in paths;
    }
    forall i: nat | i < |rows| && IsChild(rows[i], anchorPath) ensures i in selected {
      assert rows[i] in rows;
      assert rows[i].path in paths by { assert rows[i].path in Phases(rows, anchorPath); }
      var g :| 0 <= g < |paths| && paths[g] == rows[i].path;
      assert InPhase(rows, paths[g], i);
      var d :| 0 <= d < |ranked[g]| && ranked[g][d] == i;
      assert IsSlot(ranked, (d, g));
      var k :| 0 <= k < |slots| && slots[k] == (d, g);
      assert selected[k] == i;
    }
    forall p, q | 0 <= p < q < |selected| ensures TurnBefore(rows, selected[p], selected[q]) {
      assert SlotBefore(slots[p], slots[q]);
      RankedPosition(rows, paths[slots[p].1], ranked[slots[p].1], slots[p].0);
      RankedPosition(rows, paths[slots[q].1], ranked[slots[q].1], slots[q].0);
    }
  }

  method PhaseDiverseBlockIndexes(rows: seq<Row>, anchorPath: Path) returns (selected: seq<nat>)
    ensures |Phases(rows, anchorPath)| < 2 ==> selected == []
    ensures |Phases(rows, anchorPath)| >= 2 ==> IsOutline(rows, anchorPath, selected)
  {
    var groups := GroupPhases(rows, anchorPath);
    if |groups.Keys| < 2 {
      return [];
    }
    forall p | p in groups ensures Members(rows, p, |rows|) != [] {
      var row :| row in rows && row.path == p;
      var i :| 0 <= i < |rows| && rows[i] == row;
      MembersAre(rows, p, |rows|);
      assert InPhase(rows, p, i);
    }
    ghost var paths;
    var ranked;
    ranked, paths := RankGroups(rows, groups);
    selected := RoundRobin(ranked);
    ghost var slots: seq<(nat, nat)>, rounds: nat :| TakesTurns(ranked, selected, slots, rounds);
    OutlineFromSlots(rows, anchorPath, paths, ranked, selected, slots, rounds);
  }

  /** No phase gets a second block before every phase got its first. */
  lemma EveryPhaseFirst(rows: seq<Row>, anchorPath: Path, order: seq<nat>, second: nat, path: Path)
    requires IsOutline(rows, anchorPath, order) && second < |order| && path in Phases(rows, anchorPath)
    requires order[second] < |rows| && Rank(rows, order[second]) >= 1
    ensures exists first :: 0 <= first < second && InPhase(rows, path, order[first]) && Rank(rows, order[first]) == 0
  {
    SortedRanks(rows, path);
    var group := Sort(Members(rows, path, |rows|), (i, j) => RankAtMost(rows, i, j));
    var row :| row in rows && row.path == path && IsChild(row, anchorPath);
    var i :| 0 <= i < |rows| && rows[i] == row;
    assert InPhase(rows, path, i) && i in group;
    RankedPosition(rows, path, group, 0);
    assert group[0] in order;
    var first :| 0 <= first < |order| && order[first] == group[0];
    assert first > second ==> TurnBefore(rows, order[second], order[first]);
  }

  /** What the outline says of its blocks, without its orders: exactly the blocks under longer
      headings are in it; of one heading, texts come before headings and otherwise in document
      order; of blocks of equal rank, those under shorter headings come first and otherwise those
      whose heading starts first. */
  lemma OutlineMeans(rows: seq<Row>, anchorPath: Path, order: seq<nat>, p: nat, q: nat)
    requires IsOutline(rows, anchorPath, order) && p < q < |order|
    ensures order[p] < |rows| && order[q] < |rows| && anchorPath < rows[order[p]].path && anchorPath < rows[order[q]].path
    ensures var a, b := rows[order[p]], rows[order[q]];
            && Rank(rows, order[p]) <= Rank(rows, order[q])
            && (a.path == b.path ==> (!a.heading && b.heading) || (a.heading == b.heading && order[p] < order[q]))
            && (a.path != b.path && Rank(rows, order[p]) == Rank(rows, order[q]) ==>
                  |a.path| < |b.path| || (|a.path| == |b.path| && exists k :: IsFirstOf(rows, a.path, k) && !exists l :: l <= k && IsFirstOf(rows, b.path, l)))
  {
    var i, j := order[p], order[q];
    assert TurnBefore(rows, i, j) && i in order && j in order;
    if rows[i].path == rows[j].path {
      SamePhase(rows, i, j);
    } else {
      FirstIs(rows, i);
      FirstIs(rows, j);
    }
  }

  /** The first block under a heading. */
  ghost predicate IsFirstOf(rows: seq<Row>, path: Path, k: nat) {
    k < |rows| && rows[k].path == path && forall j :: 0 <= j < k ==> rows[j].path != path
  }

  lemma FirstIs(rows: seq<Row>, i: nat)
    requires i < |rows|
    ensures IsFirstOf(rows, rows[i].path, First(rows, rows[i].path))
    ensures forall k :: IsFirstOf(rows, rows[i].path, k) ==> k == First(rows, rows[i].path)
  {
    var members := Members(rows, rows[i].path, |rows|);
    MembersAre(rows, rows[i].path, |rows|);
    assert InPhase(rows, rows[i].path, i);
    assert members[0] in members;
    forall j: nat | j < |rows| && rows[j].path == rows[i].path ensures members[0] <= j {
      assert InPhase(rows, rows[i].path, j) && j in members;
      var k :| 0 <= k < |members| && members[k] == j;
    }
  }

  /** The rank of a block counts the texts before a heading, and otherwise what comes before it
      in the document. */
  lemma RankMeans(rows: seq<Row>, i: nat)
    requires i < |rows|
    ensures Rank(rows, i) == |set j: nat | j < |rows| && rows[j].path == rows[i].path
                                          && ((!rows[j].heading && rows[i].heading) || (rows[j].heading == rows[i].heading && j < i))|
  {
    assert (set j: nat | j < |rows| && InPhase(rows, rows[i].path, j) && RankBefore(rows, j, i))
        == (set j: nat | j < |rows| && rows[j].path == rows[i].path
                         && ((!rows[j].heading && rows[i].heading) || (rows[j].heading == rows[i].heading && j < i)));
  }

  lemma SamePhase(rows: seq<Row>, i: nat, j: nat)
    requires i < |rows| && j < |rows| && rows[i].path == rows[j].path && TurnBefore(rows, i, j)
    ensures (!rows[i].heading && rows[j].heading) || (rows[i].heading == rows[j].heading && i < j)
  {
    if !((!rows[i].heading && rows[j].heading) || (rows[i].heading == rows[j].heading && i < j)) {
      var before, after := (set k: nat | k < |rows| && InPhase(rows, rows[j].path, k) && RankBefore(rows, k, j)),
                           (set k: nat | k < |rows| && InPhase(rows, rows[i].path, k) && RankBefore(rows, k, i));
      assert before <= after;
      SubsetSize(before, after);
    }
  }

  // ------------------------------------------------------------ choosing blocks

  /** The rows below `n` whose index was chosen, in their order. */
  function Kept(rows: seq<Row>, chosen: set<nat>, n: nat): seq<Row>
    requires n <= |rows|
  {
    if n == 0 then [] else Kept(rows, chosen, n - 1) + if n - 1 in chosen then [rows[n - 1]] else []
  }

  function Chosen(rows: seq<Row>, chosen: set<nat>): seq<Row> {
    Kept(rows, chosen, |rows|)
  }

  lemma {:induction false} KeptAre(rows: seq<Row>, chosen: set<nat>, n: nat)
    requires n <= |rows|
    ensures forall r :: r in Kept(rows, chosen, n) <==> exists i: nat :: i < n && i in chosen && rows[i] == r
  {
    if n > 0 {
      KeptAre(rows, chosen, n - 1);
    }
  }

  lemma {:induction false} KeptNone(rows: seq<Row>, n: nat)
    requires n <= |rows|
    ensures Kept(rows, {}, n) == []
  {
    if n > 0 {
      KeptNone(rows, n - 1);
    }
  }

  lemma TotalAppend(rows: seq<Row>, r: Row)
    ensures Total(rows + [r]) == Total(rows) + |r.text|
  {
    assert (rows + [r])[..|rows|] == rows;
  }

  lemma {:induction false} KeptMore(rows: seq<Row>, chosen: set<nat>, k: nat, n: nat)
    requires n <= |rows| && k < |rows| && k !in chosen
    ensures k >= n ==> Kept(rows, chosen + {k}, n) == Kept(rows, chosen, n)
    ensures k < n ==> Total(Kept(rows, chosen + {k}, n)) == Total(Kept(rows, chosen, n)) + |rows[k].text|
                      && |Kept(rows, chosen + {k}, n)| == |Kept(rows, chosen, n)| + 1
  {
    if n > 0 {
      KeptMore(rows, chosen, k, n - 1);
      var a, b := Kept(rows, chosen, n - 1), Kept(rows, chosen + {k}, n - 1);
      if k == n - 1 {
        TotalAppend(b, rows[k]);
        assert Kept(rows, chosen + {k}, n) == b + [rows[k]] && Kept(rows, chosen, n) == a;
      } else if n - 1 in chosen {
        TotalAppend(a, rows[n - 1]);
        TotalAppend(b, rows[n - 1]);
        assert Kept(rows, chosen + {k}, n) == b + [rows[n - 1]] && Kept(rows, chosen, n) == a + [rows[n - 1]];
      } else {
        assert Kept(rows, chosen + {k}, n) == b && Kept(rows, chosen, n) == a;
      }
    }
  }

  /** What one more block costs, its separator included. */
  function CountWith(rows: seq<Row>, chosen: set<nat>, k: nat): nat
    requires k < |rows|
  {
    CharacterCount(Chosen(rows, chosen)) + (if Chosen(rows, chosen) == [] then 0 else 2) + |rows[k].text|
  }

  lemma CountAdds(rows: seq<Row>, chosen: set<nat>, k: nat)
    requires k < |rows| && k !in chosen
    ensures CharacterCount(Chosen(rows, chosen + {k})) == CountWith(rows, chosen, k)
    ensures Chosen(rows, chosen + {k}) != []
  {
    KeptMore(rows, chosen, k, |rows|);
  }

  /** The choice among the first `p` indexes of the order. */
  function Before(order: seq<nat>, chosen: set<nat>, p: nat): set<nat>
    requires p <= |order|
  {
    set k | 0 <= k < p && order[k] in chosen :: order[k]
  }

  /** The first block and the required ones are taken, any other if it still fits. */
  ghost predicate Takes(rows: seq<Row>, order: seq<nat>, required: set<nat>, chosen: set<nat>, p: nat)
    requires p < |order| && order[p] < |rows|
  {
    p == 0 || order[p] in required || CountWith(rows, Before(order, chosen, p), order[p]) <= SECTION_MAX
  }

  ghost predicate IsGreedy(rows: seq<Row>, order: seq<nat>, required: set<nat>, chosen: set<nat>, n: nat)
    requires n <= |order|
  {
    && Covers(order, |rows|)
    && chosen == Before(order, chosen, n)
    && forall p :: 0 <= p < n ==> order[p] < |rows| && (order[p] in chosen <==> Takes(rows, order, required, chosen, p))
  }

  lemma BeforeStep(order: seq<nat>, chosen: set<nat>, p: nat)
    requires p < |order| && Distinct(order)
    ensures Before(order, chosen, p + 1) == Before(order, chosen, p) + if order[p] in chosen then {order[p]} else {}
    ensures order[p] !in Before(order, chosen, p)
  {
  }

  lemma BeforeKept(order: seq<nat>, chosen: set<nat>, p: nat, n: nat)
    requires p <= n < |order| && Distinct(order)
    ensures Before(order, chosen + {order[n]}, p) == Before(order, chosen, p)
  {
  }

  lemma GreedyStep(rows: seq<Row>, order: seq<nat>, required: set<nat>, chosen: set<nat>, n: nat, take: bool)
    requires n < |order| && IsGreedy(rows, order, required, chosen, n)
    requires order[n] < |rows| && (take <==> Takes(rows, order, required, chosen, n))
    ensures IsGreedy(rows, order, required, if take then chosen + {order[n]} else chosen, n + 1)
  {
    var next := if take then chosen + {order[n]} else chosen;
    BeforeStep(order, chosen, n);
    BeforeStep(order, next, n);
    forall p | 0 <= p <= n ensures Before(order, next, p) == Before(order, chosen, p) {
      BeforeKept(order, chosen, p, n);
    }
    forall p | 0 <= p < n ensures order[p] in next <==> order[p] in chosen {
      assert order[p] != order[n];
    }
  }

  // ------------------------------------------------------------ the window

  function NonBlank(rows: seq<Row>): (r: seq<Row>)
    ensures forall x :: x in r <==> x in rows && x.text != ""
  {
    if rows == [] then []
    else
      assert rows == [rows[0]] + rows[1..];
      (if rows[0].text == "" then [] else [rows[0]]) + NonBlank(rows[1..])
  }

  predicate InSection(path: Path, anchorPath: Path) {
    path == anchorPath || (anchorPath != [] && |anchorPath| <= |path| && path[..|anchorPath|] == anchorPath)
  }

  /** The rows of the anchor's section and of the sections below it. */
  function Section(rows: seq<Row>, anchorPath: Path): (r: seq<Row>)
    ensures forall x :: x in r <==> x in rows && InSection(x.path, anchorPath)
  {
    if rows == [] then []
    else
      assert rows == [rows[0]] + rows[1..];
      (if InSection(rows[0].path, anchorPath) then [rows[0]] else []) + Section(rows[1..], anchorPath)
  }

  /** A section holds the rows under the heading itself and, unless it is the untitled start of
      the document, under every longer one. */
  lemma SectionMeans(rows: seq<Row>, anchorPath: Path, x: Row)
    ensures x in Section(rows, anchorPath) <==> x in rows && (if anchorPath == [] then x.path == [] else anchorPath <= x.path)
  {
  }

  function Find(rows: seq<Row>, ordinal: int): (r: Option<nat>)
    ensures r.Some? ==> r.value < |rows| && rows[r.value].ordinal == ordinal && forall i :: 0 <= i < r.value ==> rows[i].ordinal != ordinal
    ensures r == None ==> forall i :: 0 <= i < |rows| ==> rows[i].ordinal != ordinal
  {
    if rows == [] then None
    else if rows[0].ordinal == ordinal then Some(0)
    else match Find(rows[1..], ordinal)
      case None =>
        assert forall i :: 0 < i < |rows| ==> rows[1..][i - 1] == rows[i];
        None
      case Some(i) =>
        assert forall j :: 0 < j <= i ==> rows[1..][j - 1] == rows[j];
        Some(i + 1)
  }

  function FirstHeading(rows: seq<Row>): (r: Option<nat>)
    ensures r.Some? ==> r.value < |rows| && rows[r.value].heading && forall i :: 0 <= i < r.value ==> !rows[i].heading
    ensures r == None ==> forall i :: 0 <= i < |rows| ==> !rows[i].heading
  {
    if rows == [] then None
    else if rows[0].heading then Some(0)
    else match FirstHeading(rows[1..])
      case None =>
        assert forall i :: 0 < i < |rows| ==> rows[1..][i - 1] == rows[i];
        None
      case Some(i) =>
        assert forall j :: 0 < j <= i ==> rows[1..][j - 1] == rows[j];
        Some(i + 1)
  }

  function HeadingFirst(heading: Option<nat>, order: seq<nat>): seq<nat> {
    match heading case None => order case Some(h) => [h] + Absent(order, [h])
  }

  /** The first heading, then the child phases in turn, then everything else nearest first. */
  ghost predicate IsOrder(rows: seq<Row>, anchorPath: Path, anchor: nat, order: seq<nat>) {
    && Covers(order, |rows|)
    && exists nearby: seq<nat>, outline: seq<nat> ::
         && Ascending(nearby, (i, j) => Nearer(anchor, i, j)) && Covers(nearby, |rows|)
         && (if |Phases(rows, anchorPath)| < 2 then outline == [] else IsOutline(rows, anchorPath, outline))
         && order == HeadingFirst(FirstHeading(rows), outline + Absent(nearby, outline))
  }

  lemma OutlineDistinct(rows: seq<Row>, anchorPath: Path, outline: seq<nat>)
    requires IsOutline(rows, anchorPath, outline)
    ensures Distinct(outline) && forall i: nat :: i in outline ==> i < |rows|
  {
    forall p, q | 0 <= p < q < |outline| ensures outline[p] != outline[q] {
      assert TurnBefore(rows, outline[p], outline[q]);
    }
  }

  lemma FrontCovers(front: seq<nat>, order: seq<nat>, length: nat)
    requires Distinct(front) && (forall i: nat :: i in front ==> i < length) && Covers(order, length)
    ensures Covers(front + Absent(order, front), length)
  {
    DistinctConcat(front, Absent(order, front));
  }

  method BlockOrder(rows: seq<Row>, anchorPath: Path, anchor: nat) returns (order: seq<nat>)
    requires anchor < |rows|
    ensures IsOrder(rows, anchorPath, anchor, order)
  {
    var nearby := NearbyBlockIndexes(|rows|, anchor);
    var outline := PhaseDiverseBlockIndexes(rows, anchorPath);
    if |Phases(rows, anchorPath)| >= 2 {
      OutlineDistinct(rows, anchorPath, outline);
    }
    FrontCovers(outline, nearby, |rows|);
    order := outline + Absent(nearby, outline);
    var heading := FirstHeading(rows);
    if heading.Some? {
      FrontCovers([heading.value], order, |rows|);
    }
    order := HeadingFirst(heading, order);
  }

  lemma {:induction false} AbsentAscends(s: seq<nat>, other: seq<nat>, lt: (nat, nat) -> bool)
    requires Ascending(s, lt)
    ensures Ascending(Absent(s, other), lt)
  {
    if s != [] {
      AbsentAscends(s[1..], other, lt);
      FirstBelow(s, lt);
      var rest := Absent(s[1..], other);
      forall k | 0 <= k < |rest| && s[0] !in other ensures lt(s[0], rest[k]) {
        assert rest[k] in rest && rest[k] in s[1..];
        var i :| 0 <= i < |s[1..]| && s[1..][i] == rest[k];
        assert lt(s[0], s[i + 1]);
      }
    }
  }

  ghost predicate IsFirstHeading(rows: seq<Row>, i: nat) {
    i < |rows| && rows[i].heading && forall j :: 0 <= j < i ==> !rows[j].heading
  }

  /** The block takes part in the turns: it is under a longer heading, and there are two of these
      at least. */
  ghost predicate InTurn(rows: seq<Row>, anchorPath: Path, i: nat) {
    |Phases(rows, anchorPath)| >= 2 && i < |rows| && anchorPath < rows[i].path
  }

  ghost predicate Closer(anchor: nat, i: nat, j: nat) {
    var d, e := if i < anchor then anchor - i else i - anchor, if j < anchor then anchor - j else j - anchor;
    d < e || (d == e && j < anchor < i)
  }

  /** How two blocks stand behind the first heading. */
  ghost predicate Earlier(rows: seq<Row>, anchorPath: Path, anchor: nat, i: nat, j: nat) {
    && (InTurn(rows, anchorPath, j) ==> InTurn(rows, anchorPath, i) && TurnBefore(rows, i, j))
    && (!InTurn(rows, anchorPath, i) ==> Closer(anchor, i, j))
  }

  lemma TurnsThenNearby(rows: seq<Row>, anchorPath: Path, anchor: nat, outline: seq<nat>, rest: seq<nat>)
    requires if |Phases(rows, anchorPath)| < 2 then outline == [] else IsOutline(rows, anchorPath, outline)
    requires Ascending(rest, (i, j) => Nearer(anchor, i, j)) && forall i :: i in rest ==> i !in outline
    ensures Ascending(outline + rest, (i, j) => Earlier(rows, anchorPath, anchor, i, j))
  {
    forall i: nat ensures i in outline <==> InTurn(rows, anchorPath, i) {}
    var line := outline + rest;
    forall p, q | 0 <= p < q < |line| ensures Earlier(rows, anchorPath, anchor, line[p], line[q]) {
      if q < |outline| {
        assert outline[p] in outline && TurnBefore(rows, outline[p], outline[q]);
      } else {
        assert rest[q - |outline|] in rest;
        if p < |outline| {
          assert outline[p] in outline;
        } else {
          assert Nearer(anchor, rest[p - |outline|], rest[q - |outline|]);
        }
      }
    }
  }

  /** In which order blocks are visited: the first heading before everything, blocks that take
      turns before the others, and the others nearest to the anchor first, the later of two as
      near. */
  lemma OrderMeans(rows: seq<Row>, anchorPath: Path, anchor: nat, order: seq<nat>, p: nat, q: nat)
    requires IsOrder(rows, anchorPath, anchor, order) && p < q < |order|
    ensures !IsFirstHeading(rows, order[q])
    ensures IsFirstHeading(rows, order[p]) || Earlier(rows, anchorPath, anchor, order[p], order[q])
  {
    var nearby: seq<nat>, outline: seq<nat> :|
      && Ascending(nearby, (i, j) => Nearer(anchor, i, j)) && Covers(nearby, |rows|)
      && (if |Phases(rows, anchorPath)| < 2 then outline == [] else IsOutline(rows, anchorPath, outline))
      && order == HeadingFirst(FirstHeading(rows), outline + Absent(nearby, outline));
    var nearer, earlier := (i: nat, j: nat) => Nearer(anchor, i, j), (i: nat, j: nat) => Earlier(rows, anchorPath, anchor, i, j);
    AbsentAscends(nearby, outline, nearer);
    TurnsThenNearby(rows, anchorPath, anchor, outline, Absent(nearby, outline));
    HeadingStands(rows, outline + Absent(nearby, outline), order, earlier, p, q);
  }

  lemma HeadingStands(rows: seq<Row>, line: seq<nat>, order: seq<nat>, lt: (nat, nat) -> bool, p: nat, q: nat)
    requires Ascending(line, lt) && order == HeadingFirst(FirstHeading(rows), line) && p < q < |order|
    ensures !IsFirstHeading(rows, order[q]) && (IsFirstHeading(rows, order[p]) || lt(order[p], order[q]))
  {
    match FirstHeading(rows)
    case None =>
    case Some(h) =>
      var tail := Absent(line, [h]);
      AbsentAscends(line, [h], lt);
      assert order == [h] + tail;
      assert tail[q - 1] in tail;
      if p > 0 {
        assert lt(tail[p - 1], tail[q - 1]);
      }
  }

  datatype Window = Window(section: seq<Row>, anchor: nat, order: seq<nat>, chosen: set<nat>)

  function Required(rows: seq<Row>, anchor: nat): set<nat> {
    {anchor} + match FirstHeading(rows) case None => {} case Some(h) => {h}
  }

  ghost predicate IsPacked(w: Window) {
    w.anchor < |w.section| && IsGreedy(w.section, w.order, Required(w.section, w.anchor), w.chosen, |w.order|)
  }

  ghost predicate IsWindow(w: Window) {
    IsPacked(w) && IsOrder(w.section, w.section[w.anchor].path, w.anchor, w.order)
  }

  /** The greedy scan; the running total is the character count of what was chosen. */
  method ChooseBlocks(rows: seq<Row>, order: seq<nat>, required: set<nat>) returns (selected: map<int, Row>)
    requires Covers(order, |rows|) && Ascending(rows, OrdinalBefore)
    ensures exists chosen: set<nat> :: IsGreedy(rows, order, required, chosen, |order|) && Holds(rows, chosen, selected)
  {
    selected := map[];
    ghost var chosen: set<nat> := {};
    var used := 0;
    KeptNone(rows, |rows|);
    for n := 0 to |order|
      invariant IsGreedy(rows, order, required, chosen, n)
      invariant used == CharacterCount(Chosen(rows, chosen))
      invariant n > 0 <==> Chosen(rows, chosen) != []
      invariant selected == map[] <==> n == 0
      invariant Holds(rows, chosen, selected)
    {
      assert order[n] in order;
      var row := rows[order[n]];
      var separator := if selected != map[] then 2 else 0;
      BeforeStep(order, chosen, n);
      CountAdds(rows, chosen, order[n]);
      GreedyStep(rows, order, required, chosen, n, Takes(rows, order, required, chosen, n));
      if order[n] !in required && selected != map[] && used + separator + |row.text| > SECTION_MAX {
        continue;
      }
      HoldsStep(rows, chosen, selected, order[n]);
      selected := selected[row.ordinal := row];
      chosen := chosen + {order[n]};
      used := used + separator + |row.text|;
    }
  }

  /** The table of chosen rows by ordinal. */
  ghost predicate Holds(rows: seq<Row>, chosen: set<nat>, selected: map<int, Row>) {
    && (forall o :: o in selected ==> selected[o].ordinal == o && exists i: nat :: i < |rows| && i in chosen && rows[i] == selected[o])
    && forall i: nat :: i < |rows| && i in chosen ==> rows[i].ordinal in selected && selected[rows[i].ordinal] == rows[i]
  }

  lemma HoldsStep(rows: seq<Row>, chosen: set<nat>, selected: map<int, Row>, k: nat)
    requires Ascending(rows, OrdinalBefore) && Holds(rows, chosen, selected) && k < |rows|
    ensures Holds(rows, chosen + {k}, selected[rows[k].ordinal := rows[k]])
  {
  }

  method SortedOrdinals(s: set<int>) returns (r: seq<int>)
    ensures (forall i, j :: 0 <= i < j < |r| ==> r[i] < r[j]) && forall x :: x in r <==> x in s
  {
    var ordinals := Listed(s);
    var le := (a: int, b: int) => a <= b;
    SortPermutes(ordinals, le);
    SortAscending(ordinals, le, (a, b) => a < b);
    r := Sort(ordinals, le);
  }

  method InOrdinalOrder(selected: map<int, Row>) returns (r: seq<Row>)
    requires forall o :: o in selected ==> selected[o].ordinal == o
    ensures Ascending(r, OrdinalBefore)
    ensures forall x :: x in r <==> x.ordinal in selected && selected[x.ordinal] == x
  {
    var sorted := SortedOrdinals(selected.Keys);
    r := [];
    for k := 0 to |sorted|
      invariant |r| == k
      invariant forall i :: 0 <= i < k ==> sorted[i] in selected && r[i] == selected[sorted[i]]
    {
      assert sorted[k] in sorted;
      r := r + [selected[sorted[k]]];
    }
    forall x | x in r ensures x.ordinal in selected && selected[x.ordinal] == x {
      var i :| 0 <= i < |r| && r[i] == x;
      assert r[i] == selected[sorted[i]];
    }
    forall x: Row | x.ordinal in selected && selected[x.ordinal] == x ensures x in r {
      var i :| 0 <= i < |sorted| && sorted[i] == x.ordinal;
      assert r[i] == x;
    }
  }

  lemma {:induction false} KeptAscend(rows: seq<Row>, chosen: set<nat>, n: nat)
    requires n <= |rows| && Ascending(rows, OrdinalBefore)
    ensures Ascending(Kept(rows, chosen, n), OrdinalBefore)
  {
    if n > 0 {
      KeptAscend(rows, chosen, n - 1);
      KeptAre(rows, chosen, n - 1);
      var front := Kept(rows, chosen, n - 1);
      forall k | 0 <= k < |front| ensures OrdinalBefore(front[k], rows[n - 1]) {
        assert front[k] in front;
      }
    }
  }

  lemma HeldIsChosen(rows: seq<Row>, chosen: set<nat>, selected: map<int, Row>, r: seq<Row>)
    requires Ascending(rows, OrdinalBefore) && Holds(rows, chosen, selected)
    requires Ascending(r, OrdinalBefore) && forall x :: x in r <==> x.ordinal in selected && selected[x.ordinal] == x
    ensures r == Chosen(rows, chosen)
  {
    KeptAscend(rows, chosen, |rows|);
    KeptAre(rows, chosen, |rows|);
    AscendingUnique(r, Chosen(rows, chosen), OrdinalBefore);
  }

  lemma {:induction false} NonBlankAscends(rows: seq<Row>)
    requires Ascending(rows, OrdinalBefore)
    ensures Ascending(NonBlank(rows), OrdinalBefore)
  {
    if rows != [] {
      NonBlankAscends(rows[1..]);
      FirstBelow(rows, OrdinalBefore);
      var rest := NonBlank(rows[1..]);
      forall k | 0 <= k < |rest| ensures OrdinalBefore(rows[0], rest[k]) {
        assert rest[k] in rest && rest[k] in rows[1..];
      }
    }
  }

  lemma {:induction false} SectionAscends(rows: seq<Row>, anchorPath: Path)
    requires Ascending(rows, OrdinalBefore)
    ensures Ascending(Section(rows, anchorPath), OrdinalBefore)
  {
    if rows != [] {
      SectionAscends(rows[1..], anchorPath);
      var rest := Section(rows[1..], anchorPath);
      forall k | 0 <= k < |rest| ensures OrdinalBefore(rows[0], rest[k]) {
        assert rest[k] in rest && rest[k] in rows[1..];
      }
    }
  }

  /** The whole document if it is short, nothing without the anchor, the anchor's section if
      that is short, and a window of it otherwise. */
  ghost predicate IsBounded(rows: seq<Row>, anchorOrdinal: int, r: seq<Row>) {
    var blocks := NonBlank(rows);
    if CharacterCount(blocks) <= FULL_SOURCE_MAX then r == blocks
    else match Find(blocks, anchorOrdinal)
      case None => r == []
      case Some(i) =>
        var section := Section(blocks, blocks[i].path);
        if CharacterCount(section) <= SECTION_MAX then r == section
        else exists w: Window :: w.section == section && IsWindow(w) && section[w.anchor] == blocks[i] && r == Chosen(section, w.chosen)
  }

  method BoundedSourceRows(rows: seq<Row>, anchorOrdinal: int) returns (r: seq<Row>)
    requires Ascending(rows, OrdinalBefore)
    ensures IsBounded(rows, anchorOrdinal, r)
  {
    var blocks := NonBlank(rows);
    if CharacterCount(blocks) <= FULL_SOURCE_MAX {
      return blocks;
    }
    var found := Find(blocks, anchorOrdinal);
    if found == None {
      return [];
    }
    var anchor := blocks[found.value];
    var section := Section(blocks, anchor.path);
    if CharacterCount(section) <= SECTION_MAX {
      return section;
    }
    NonBlankAscends(rows);
    SectionAscends(blocks, anchor.path);
    var index := Find(section, anchorOrdinal);
    assert anchor in section;
    OneAnchor(blocks, found.value, section, index);
    var order := BlockOrder(section, anchor.path, index.value);
    var selected := ChooseBlocks(section, order, Required(section, index.value));
    ghost var chosen: set<nat> :| IsGreedy(section, order, Required(section, index.value), chosen, |order|) && Holds(section, chosen, selected);
    r := InOrdinalOrder(selected);
    HeldIsChosen(section, chosen, selected, r);
    assert IsWindow(Window(section, index.value, order, chosen));
  }

  lemma OneAnchor(blocks: seq<Row>, i: nat, section: seq<Row>, index: Option<nat>)
    requires i < |blocks| && Ascending(blocks, OrdinalBefore) && blocks[i] in section && forall x :: x in section ==> x in blocks
    requires index == Find(section, blocks[i].ordinal)
    ensures index.Some? && section[index.value] == blocks[i]
  {
    var k :| 0 <= k < |section| && section[k] == blocks[i];
    if index.Some? {
      assert section[index.value] in blocks;
      var j :| 0 <= j < |blocks| && blocks[j] == section[index.value];
    }
  }

  /** The window holds the anchor and the first heading, in document order. */
  lemma WindowHolds(w: Window)
    requires IsWindow(w)
    ensures w.section[w.anchor] in Chosen(w.section, w.chosen)
    ensures FirstHeading(w.section).Some? ==> w.section[FirstHeading(w.section).value] in Chosen(w.section, w.chosen)
    ensures Ascending(w.section, OrdinalBefore) ==> Ascending(Chosen(w.section, w.chosen), OrdinalBefore)
  {
    KeptAre(w.section, w.chosen, |w.section|);
    forall i | i in Required(w.section, w.anchor) ensures i in w.chosen {
      assert i in w.order;
      var p :| 0 <= p < |w.order| && w.order[p] == i;
      assert Takes(w.section, w.order, Required(w.section, w.anchor), w.chosen, p);
    }
    if Ascending(w.section, OrdinalBefore) {
      KeptAscend(w.section, w.chosen, |w.section|);
    }
  }

  function Max(a: nat, b: nat): nat { if a >= b then a else b }

  /** The character count of what was chosen among the first `p` indexes. */
  function CountUpTo(w: Window, p: nat): nat
    requires p <= |w.order|
  {
    CharacterCount(Chosen(w.section, Before(w.order, w.chosen, p)))
  }

  lemma CountStep(w: Window, p: nat)
    requires IsPacked(w) && p < |w.order|
    ensures w.order[p] < |w.section|
    ensures CountUpTo(w, p + 1) == if w.order[p] in w.chosen then CountWith(w.section, Before(w.order, w.chosen, p), w.order[p]) else CountUpTo(w, p)
    ensures p == 0 ==> CountWith(w.section, Before(w.order, w.chosen, p), w.order[p]) == |w.section[w.order[p]].text|
  {
    var before := Before(w.order, w.chosen, p);
    BeforeStep(w.order, w.chosen, p);
    CountAdds(w.section, before, w.order[p]);
    assert Before(w.order, w.chosen, p + 1) == if w.order[p] in w.chosen then before + {w.order[p]} else before;
    if p == 0 {
      KeptNone(w.section, |w.section|);
      assert Before(w.order, w.chosen, 0) == {};
    }
  }

  /** Only the first block and the anchor may exceed the limit. */
  lemma {:induction false} BoundUpTo(w: Window, p: nat)
    requires IsPacked(w) && p <= |w.order| && w.order != [] && w.order[0] < |w.section|
    requires Required(w.section, w.anchor) <= {w.anchor, w.order[0]}
    ensures CountUpTo(w, p) <= Max(SECTION_MAX, |w.section[w.order[0]].text|) + if w.anchor in w.order[..p] then 2 + |w.section[w.anchor].text| else 0
  {
    if p == 0 {
      KeptNone(w.section, |w.section|);
      assert Before(w.order, w.chosen, 0) == {};
    } else {
      BoundUpTo(w, p - 1);
      CountStep(w, p - 1);
      TakenFits(w, p - 1);
      assert w.order[..p] == w.order[..p - 1] + [w.order[p - 1]];
    }
  }

  lemma TakenFits(w: Window, p: nat)
    requires IsPacked(w) && p < |w.order| && w.order[p] < |w.section|
    ensures w.order[p] in w.chosen ==>
              p == 0 || w.order[p] in Required(w.section, w.anchor) || CountWith(w.section, Before(w.order, w.chosen, p), w.order[p]) <= SECTION_MAX
    ensures p > 0 ==> w.order[p] != w.order[0] && w.order[p] !in w.order[..p]
  {
    assert w.order[p] in w.chosen <==> Takes(w.section, w.order, Required(w.section, w.anchor), w.chosen, p);
  }

  lemma OrderStarts(w: Window)
    requires IsWindow(w)
    ensures w.order != [] && w.order[0] < |w.section| && Required(w.section, w.anchor) <= {w.anchor, w.order[0]}
  {
    assert w.anchor in w.order;
    assert w.order[0] in w.order;
  }

  /** The window's text is at most the limit or the first block, plus the anchor and one
      separator. */
  lemma WindowIsBounded(w: Window)
    requires IsWindow(w)
    ensures w.order != [] && w.order[0] < |w.section|
    ensures CharacterCount(Chosen(w.section, w.chosen)) <= Max(SECTION_MAX, |w.section[w.order[0]].text|) + 2 + |w.section[w.anchor].text|
  {
    OrderStarts(w);
    BoundUpTo(w, |w.order|);
  }

  lemma {:induction false} CountsGrow(w: Window, p: nat, q: nat)
    requires IsPacked(w) && p <= q <= |w.order|
    ensures CountUpTo(w, p) <= CountUpTo(w, q)
  {
    if p < q {
      CountsGrow(w, p, q - 1);
      CountStep(w, q - 1);
    }
  }

  /** No omitted block would still fit. */
  lemma WindowIsFull(w: Window, k: nat)
    requires IsWindow(w) && k < |w.section| && k !in w.chosen
    ensures CountWith(w.section, w.chosen, k) > SECTION_MAX
  {
    assert k in w.order;
    var p :| 0 <= p < |w.order| && w.order[p] == k;
    assert !Takes(w.section, w.order, Required(w.section, w.anchor), w.chosen, p);
    CountsGrow(w, p, |w.order|);
    OrderStarts(w);
    CountStep(w, 0);
    BeforeStep(w.order, w.chosen, 0);
    KeptAre(w.section, w.chosen, |w.section|);
    assert Takes(w.section, w.order, Required(w.section, w.anchor), w.chosen, 0);
    assert w.section[w.order[0]] in Chosen(w.section, w.chosen);
  }
}
