/** The bounded queue between log calls and the log writer, and the suppression of repeated
    events.

    Each method is one section under the queue's condition; waiting happens between sections. */
module EventQueue {
  import opened Values

  const TRACE := 5
  const DEBUG := 10

  datatype Record = Record(id: nat, level: int)

  /** How expendable a record is: trace, then debug, then everything else. */
  function Class(r: Record): nat {
    if r.level <= TRACE then 0 else if r.level <= DEBUG then 1 else 2
  }

  // ------------------------------------------------------------ what a full queue gives up

  /** Nothing queued is more expendable than the record. */
  ghost predicate NoneLower(items: seq<Record>, r: Record) {
    forall i :: 0 <= i < |items| ==> Class(r) <= Class(items[i])
  }

  /** The oldest of the most expendable queued records. */
  ghost predicate IsVictim(items: seq<Record>, i: nat) {
    && i < |items|
    && (forall j :: 0 <= j < |items| ==> Class(items[i]) <= Class(items[j]))
    && forall j :: 0 <= j < i ==> Class(items[i]) < Class(items[j])
  }

  function Without(items: seq<Record>, i: nat): seq<Record>
    requires i < |items|
  {
    items[..i] + items[i + 1..]
  }

  ghost predicate Admits(capacity: nat, items: seq<Record>, r: Record, after: seq<Record>, dropped: Option<Record>) {
    if |items| < capacity then after == items + [r] && dropped == None
    else if NoneLower(items, r) then after == items && dropped == Some(r)
    else exists i: nat :: IsVictim(items, i) && after == Without(items, i) + [r] && dropped == Some(items[i])
  }

  method FirstUpTo(items: seq<Record>, level: int) returns (index: Option<nat>)
    ensures index == None ==> forall i :: 0 <= i < |items| ==> items[i].level > level
    ensures index.Some? ==> index.value < |items| && items[index.value].level <= level
                            && forall i :: 0 <= i < index.value ==> items[i].level > level
  {
    for i := 0 to |items|
      invariant forall k :: 0 <= k < i ==> items[k].level > level
    {
      if items[i].level <= level {
        return Some(i);
      }
    }
    index := None;
  }

  ghost predicate Keeps(puts: seq<Record>, items: seq<Record>, delivered: seq<Record>, dropped: seq<Record>) {
    && multiset(puts) == multiset(items) + multiset(delivered) + multiset(dropped)
    && Subsequence(delivered + items, puts)
  }

  /** Element `k` of `a` is element `at[k]` of `b`, in the same order. */
  ghost predicate Embeds(a: seq<Record>, b: seq<Record>, at: seq<nat>) {
    && |at| == |a|
    && (forall k :: 0 <= k < |a| ==> at[k] < |b| && a[k] == b[at[k]])
    && forall k, l :: 0 <= k < l < |a| ==> at[k] < at[l]
  }

  /** `a` is `b` with some elements left out. */
  ghost predicate Subsequence(a: seq<Record>, b: seq<Record>) {
    exists at: seq<nat> :: Embeds(a, b, at)
  }

  lemma SubsequenceMore(a: seq<Record>, b: seq<Record>, r: Record)
    requires Subsequence(a, b)
    ensures Subsequence(a, b + [r]) && Subsequence(a + [r], b + [r])
  {
    var at: seq<nat> :| Embeds(a, b, at);
    assert Embeds(a, b + [r], at);
    assert Embeds(a + [r], b + [r], at + [|b|]);
  }

  lemma SubsequenceWithout(a: seq<Record>, i: nat, b: seq<Record>)
    requires i < |a| && Subsequence(a, b)
    ensures Subsequence(Without(a, i), b)
  {
    var at: seq<nat> :| Embeds(a, b, at);
    assert Embeds(Without(a, i), b, at[..i] + at[i + 1..]);
  }

  lemma WithoutCounts(items: seq<Record>, i: nat)
    requires i < |items|
    ensures multiset(items) == multiset(Without(items, i)) + multiset{items[i]}
  {
    assert items == items[..i] + [items[i]] + items[i + 1..];
  }

  /** Admitting a record keeps the account: everything put is queued, delivered or dropped,
      and what is delivered or queued stands in the order it was put. */
  lemma AdmitKeeps(capacity: nat, puts: seq<Record>, items: seq<Record>, delivered: seq<Record>, lost: seq<Record>,
                   r: Record, after: seq<Record>, dropped: Option<Record>)
    requires Keeps(puts, items, delivered, lost) && Admits(capacity, items, r, after, dropped)
    ensures Keeps(puts + [r], after, delivered, lost + Dropped(dropped))
    ensures |after| == if |items| < capacity then |items| + 1 else |items|
  {
    assert multiset(items) + multiset{r} == multiset(after) + multiset(Dropped(dropped)) && |after| == if |items| < capacity then |items| + 1 else |items| by {
      AdmitCounts(capacity, items, r, after, dropped);
    }
    assert Subsequence(delivered + after, puts + [r]) by {
      AdmitOrder(capacity, puts, items, delivered, r, after, dropped);
    }
    CountsAdd(puts, items, delivered, lost, r, after, Dropped(dropped));
  }

  lemma RefuseKeeps(puts: seq<Record>, items: seq<Record>, delivered: seq<Record>, lost: seq<Record>, r: Record)
    requires Keeps(puts, items, delivered, lost)
    ensures Keeps(puts + [r], items, delivered, lost + Dropped(Some(r)))
  {
    SubsequenceMore(delivered + items, puts, r);
    CountsAdd(puts, items, delivered, lost, r, items, [r]);
  }

  function LevelOf(r: Option<Record>): Option<int> {
    match r case None => None case Some(v) => Some(v.level)
  }

  function Dropped(r: Option<Record>): seq<Record> {
    match r case None => [] case Some(v) => [v]
  }

  lemma CountsAdd(puts: seq<Record>, items: seq<Record>, delivered: seq<Record>, lost: seq<Record>, r: Record, after: seq<Record>, gone: seq<Record>)
    requires multiset(puts) == multiset(items) + multiset(delivered) + multiset(lost)
    requires multiset(items) + multiset{r} == multiset(after) + multiset(gone)
    ensures multiset(puts + [r]) == multiset(after) + multiset(delivered) + multiset(lost + gone)
  {
    var more, fewer := multiset(puts) + multiset{r}, multiset(after) + multiset(gone) + multiset(delivered) + multiset(lost);
    forall x ensures more[x] == fewer[x] {
      assert (multiset(items) + multiset{r})[x] == (multiset(after) + multiset(gone))[x];
    }
    assert more == fewer;
  }

  lemma AdmitCounts(capacity: nat, items: seq<Record>, r: Record, after: seq<Record>, dropped: Option<Record>)
    requires Admits(capacity, items, r, after, dropped)
    ensures multiset(items) + multiset{r} == multiset(after) + multiset(Dropped(dropped))
    ensures |after| == if |items| < capacity then |items| + 1 else |items|
  {
    if |items| >= capacity && !NoneLower(items, r) {
      var i: nat :| IsVictim(items, i) && after == Without(items, i) + [r] && dropped == Some(items[i]);
      WithoutCounts(items, i);
    }
  }

  lemma AdmitOrder(capacity: nat, puts: seq<Record>, items: seq<Record>, delivered: seq<Record>, r: Record, after: seq<Record>, dropped: Option<Record>)
    requires Subsequence(delivered + items, puts) && Admits(capacity, items, r, after, dropped)
    ensures Subsequence(delivered + after, puts + [r])
  {
    SubsequenceMore(delivered + items, puts, r);
    if |items| < capacity {
      assert delivered + after == delivered + items + [r];
    } else if !NoneLower(items, r) {
      var i: nat :| IsVictim(items, i) && after == Without(items, i) + [r];
      ReplaceOrder(puts, items, delivered, r, i);
    }
  }

  lemma ReplaceOrder(puts: seq<Record>, items: seq<Record>, delivered: seq<Record>, r: Record, i: nat)
    requires i < |items| && Subsequence(delivered + items, puts)
    ensures Subsequence(delivered + (Without(items, i) + [r]), puts + [r])
  {
    SubsequenceWithout(delivered + items, |delivered| + i, puts);
    assert Without(delivered + items, |delivered| + i) == delivered + Without(items, i);
    SubsequenceMore(delivered + Without(items, i), puts, r);
    assert delivered + (Without(items, i) + [r]) == delivered + Without(items, i) + [r];
  }

  class BoundedQueue {
    const capacity: nat
    var items: seq<Record>
    var unfinished: int
    var closed: bool
    ghost var puts: seq<Record>
    ghost var delivered: seq<Record>
    ghost var dropped: seq<Record>
    ghost var done: nat

    /** The queue never overflows, counts what is queued or in flight, and accounts for
        every record. */
    ghost predicate Valid()
      reads this
    {
      && |items| <= capacity
      && done <= |delivered|
      && unfinished == |items| + |delivered| - done
      && Keeps(puts, items, delivered, dropped)
    }

    constructor (capacity: nat)
      ensures Valid() && this.capacity == capacity && items == [] && !closed
      ensures puts == [] && delivered == [] && dropped == [] && done == 0
    {
      this.capacity := capacity;
      items, unfinished, closed := [], 0, false;
      puts, delivered, dropped, done := [], [], [], 0;
      new;
      assert Embeds(delivered + items, puts, []);
    }

    /** The level of the record given up, if any. */
    method Put(r: Record) returns (level: Option<int>, ghost gone: Option<Record>)
      requires Valid()
      modifies this
      ensures Valid() && closed == old(closed) && delivered == old(delivered) && done == old(done) && puts == old(puts) + [r]
      ensures old(closed) ==> items == old(items) && gone == Some(r)
      ensures !old(closed) ==> Admits(capacity, old(items), r, items, gone)
      ensures dropped == old(dropped) + Dropped(gone) && level == LevelOf(gone)
    {
      puts := puts + [r];
      if closed {
        RefuseKeeps(old(puts), items, delivered, dropped, r);
        dropped := dropped + Dropped(Some(r));
        return Some(r.level), Some(r);
      }
      var evicted;
      items, evicted := Admit(capacity, items, r);
      gone := evicted;
      assert Keeps(puts, items, delivered, dropped + Dropped(gone)) && |items| <= capacity && (gone == None ==> |items| == |old(items)| + 1) && (gone.Some? ==> |items| == |old(items)|) by {
        AdmitKeeps(capacity, old(puts), old(items), delivered, dropped, r, items, gone);
      }
      dropped := dropped + Dropped(gone);
      if evicted == None {
        unfinished := unfinished + 1;
      }
      level := LevelOf(evicted);
    }

    /** Runs once something is queued or the queue is closed. */
    method Get() returns (r: Option<Record>)
      requires Valid() && (items != [] || closed)
      modifies this
      ensures Valid() && closed == old(closed) && puts == old(puts) && dropped == old(dropped) && done == old(done)
      ensures if old(items) == [] then r == None && items == [] && delivered == old(delivered)
              else r == Some(old(items)[0]) && items == old(items)[1..] && delivered == old(delivered) + [r.value]
    {
      if items == [] {
        return None;
      }
      var first := items[0];
      assert items == [first] + items[1..];
      assert delivered + items == delivered + [first] + items[1..];
      r := Some(first);
      items := items[1..];
      delivered := delivered + [first];
    }

    /** Each delivered record is finished once. */
    method TaskDone()
      requires Valid() && done < |delivered|
      modifies this
      ensures Valid() && closed == old(closed) && puts == old(puts) && dropped == old(dropped)
      ensures items == old(items) && delivered == old(delivered) && done == old(done) + 1
    {
      unfinished := unfinished - 1;
      done := done + 1;
    }

    method Close()
      requires Valid()
      modifies this
      ensures Valid() && closed && items == old(items) && puts == old(puts) && delivered == old(delivered) && dropped == old(dropped)
      ensures done == old(done)
    {
      closed := true;
    }

    /** Waiting for the queue ends exactly when nothing is queued or in flight, and then every
        record put was written or reported as dropped. */
    method Drained() returns (drained: bool)
      requires Valid()
      ensures drained <==> items == [] && done == |delivered|
      ensures drained ==> multiset(puts) == multiset(delivered) + multiset(dropped)
    {
      drained := unfinished == 0;
    }
  }

  /** The scan over the two expendable levels finds the victim, unless nothing queued is more
      expendable than the record. */
  method Expendable(items: seq<Record>, r: Record) returns (replace: Option<nat>)
    ensures replace == None <==> NoneLower(items, r)
    ensures replace.Some? ==> IsVictim(items, replace.value)
  {
    replace := None;
    var levels := [TRACE, DEBUG];
    for k := 0 to 2
      invariant replace == None
      invariant k >= 1 ==> r.level > TRACE && forall i :: 0 <= i < |items| ==> items[i].level > TRACE
      invariant k == 2 ==> r.level > DEBUG && forall i :: 0 <= i < |items| ==> items[i].level > DEBUG
    {
      if r.level <= levels[k] {
        break;
      }
      replace := FirstUpTo(items, levels[k]);
      if replace.Some? {
        break;
      }
    }
  }

  method Admit(capacity: nat, items: seq<Record>, r: Record) returns (after: seq<Record>, gone: Option<Record>)
    ensures Admits(capacity, items, r, after, gone)
    ensures gone == None <==> |items| < capacity
  {
    if |items| < capacity {
      return items + [r], None;
    }
    var replace := Expendable(items, r);
    if replace == None {
      return items, Some(r);
    }
    gone := Some(items[replace.value]);
    after := items[..replace.value] + items[replace.value + 1..] + [r];
  }

  // ------------------------------------------------------------ a run of puts without gets

  function Above(items: seq<Record>, class_: nat): (n: nat)
    ensures n <= |items|
  {
    if items == [] then 0 else Above(items[..|items| - 1], class_) + if Class(items[|items| - 1]) >= class_ then 1 else 0
  }

  function Min(a: nat, b: nat): nat { if a <= b then a else b }

  lemma {:induction false} AboveSplit(a: seq<Record>, b: seq<Record>, class_: nat)
    ensures Above(a + b, class_) == Above(a, class_) + Above(b, class_)
  {
    if b == [] {
      assert a + b == a;
    } else {
      AboveSplit(a, b[..|b| - 1], class_);
      assert (a + b)[..|a + b| - 1] == a + b[..|b| - 1];
    }
  }

  lemma {:induction false} AboveAll(items: seq<Record>, class_: nat)
    requires forall i :: 0 <= i < |items| ==> Class(items[i]) >= class_
    ensures Above(items, class_) == |items|
  {
    if items != [] {
      AboveAll(items[..|items| - 1], class_);
    }
  }

  lemma AboveWithout(items: seq<Record>, i: nat, class_: nat)
    requires i < |items|
    ensures Above(Without(items, i), class_) == Above(items, class_) - if Class(items[i]) >= class_ then 1 else 0
  {
    assert items == items[..i] + [items[i]] + items[i + 1..];
    AboveSplit(items[..i] + [items[i]], items[i + 1..], class_);
    AboveSplit(items[..i], [items[i]], class_);
    AboveSplit(items[..i], items[i + 1..], class_);
  }

  lemma AdmitsBest(capacity: nat, puts: seq<Record>, items: seq<Record>, r: Record, after: seq<Record>, dropped: Option<Record>, class_: nat)
    requires Admits(capacity, items, r, after, dropped)
    requires Above(items, class_) == Min(capacity, Above(puts, class_)) && |items| == Min(capacity, |puts|)
    ensures Above(after, class_) == Min(capacity, Above(puts + [r], class_)) && |after| == Min(capacity, |puts + [r]|)
  {
    AboveSplit(puts, [r], class_);
    AboveOne(r, class_);
    if |items| < capacity {
      AboveSplit(items, [r], class_);
    } else if NoneLower(items, r) {
      if Class(r) >= class_ {
        AboveAll(items, class_);
      }
    } else {
      var i: nat :| IsVictim(items, i) && after == Without(items, i) + [r];
      ReplaceCount(items, r, i, class_);
    }
  }

  lemma ReplaceCount(items: seq<Record>, r: Record, i: nat, class_: nat)
    requires IsVictim(items, i) && !NoneLower(items, r)
    ensures Above(Without(items, i) + [r], class_) ==
            if Class(items[i]) >= class_ then |items|
            else Above(items, class_) + if Class(r) >= class_ then 1 else 0
    ensures Class(items[i]) < Class(r) && (Class(items[i]) >= class_ ==> Above(items, class_) == |items|)
  {
    AboveWithout(items, i, class_);
    AboveSplit(Without(items, i), [r], class_);
    AboveOne(r, class_);
    if Class(items[i]) >= class_ {
      AboveAll(items, class_);
    }
  }

  lemma AboveOne(r: Record, class_: nat)
    ensures Above([r], class_) == if Class(r) >= class_ then 1 else 0
  {
    assert [r][..0] == [];
  }

  ghost predicate AdmitsSome(capacity: nat, items: seq<Record>, r: Record, after: seq<Record>) {
    exists gone :: Admits(capacity, items, r, after, gone)
  }

  /** The states of an open queue to which `puts` are put without anything being taken. */
  ghost predicate Fills(capacity: nat, puts: seq<Record>, states: seq<seq<Record>>) {
    && |states| == |puts| + 1 && states[0] == []
    && forall k :: 0 <= k < |puts| ==> AdmitsSome(capacity, states[k], puts[k], states[k + 1])
  }

  /** While nothing is taken the queue holds the best possible selection: of every class and
      above as many records as fit, or all of them. */
  lemma {:induction false} BestSelection(capacity: nat, puts: seq<Record>, states: seq<seq<Record>>, n: nat, class_: nat)
    requires Fills(capacity, puts, states) && n <= |puts|
    ensures Above(states[n], class_) == Min(capacity, Above(puts[..n], class_))
    ensures |states[n]| == Min(capacity, n)
  {
    if n > 0 {
      BestSelection(capacity, puts, states, n - 1, class_);
      assert puts[..n] == puts[..n - 1] + [puts[n - 1]];
      assert AdmitsSome(capacity, states[n - 1], puts[n - 1], states[n - 1 + 1]);
      var gone :| Admits(capacity, states[n - 1], puts[n - 1], states[n], gone);
      AdmitsBest(capacity, puts[..n - 1], states[n - 1], puts[n - 1], states[n], gone, class_);
    }
  }

  // ------------------------------------------------------------ repeated events

  const WINDOW: real := 60.0

  type Key = string

  datatype Window = Window(start: real, suppressed: nat)

  /** `reported` is the count an emitted record carries for the repetitions before it. */
  datatype Verdict = Suppressed | Emitted(reported: nat)

  datatype Event = Event(key: Key, now: real)

  class Deduplicator {
    var windows: map<Key, Window>

    constructor ()
      ensures windows == map[]
    {
      windows := map[];
    }

    method ShouldSuppress(e: Event) returns (v: Verdict)
      modifies this
      ensures windows == old(windows)[e.key := After(old(windows), e)]
      ensures v == VerdictOn(old(windows), e)
    {
      if e.key in windows && e.now - windows[e.key].start < WINDOW {
        windows := windows[e.key := Window(windows[e.key].start, windows[e.key].suppressed + 1)];
        return Suppressed;
      }
      var suppressed := if e.key in windows then windows[e.key].suppressed else 0;
      windows := windows[e.key := Window(e.now, 0)];
      v := Emitted(suppressed);
    }
  }

  function VerdictOn(windows: map<Key, Window>, e: Event): Verdict {
    if e.key !in windows then Emitted(0)
    else if e.now - windows[e.key].start < WINDOW then Suppressed
    else Emitted(windows[e.key].suppressed)
  }

  function After(windows: map<Key, Window>, e: Event): Window {
    if VerdictOn(windows, e).Emitted? then Window(e.now, 0)
    else windows[e.key].(suppressed := windows[e.key].suppressed + 1)
  }

  function WindowsAfter(events: seq<Event>): map<Key, Window> {
    if events == [] then map[]
    else
      var before, e := WindowsAfter(events[..|events| - 1]), events[|events| - 1];
      before[e.key := After(before, e)]
  }

  /** The verdict on the event at position `i` of a history. */
  function VerdictAt(events: seq<Event>, i: nat): Verdict
    requires i < |events|
  {
    VerdictOn(WindowsAfter(events[..i]), events[i])
  }

  function SuppressedCount(events: seq<Event>, key: Key): nat {
    if events == [] then 0
    else
      var last := |events| - 1;
      SuppressedCount(events[..last], key) + if events[last].key == key && VerdictAt(events, last) == Suppressed then 1 else 0
  }

  function ReportedCount(events: seq<Event>, key: Key): nat {
    if events == [] then 0
    else
      var last := |events| - 1;
      ReportedCount(events[..last], key) +
      if events[last].key == key && VerdictAt(events, last).Emitted? then VerdictAt(events, last).reported else 0
  }

  function Pending(events: seq<Event>, key: Key): nat {
    var windows := WindowsAfter(events);
    if key in windows then windows[key].suppressed else 0
  }

  /** No suppression is forgotten: for every key the reported and the pending repetitions add
      up to all suppressed ones. */
  lemma {:induction false} SuppressionsAddUp(events: seq<Event>, key: Key)
    ensures ReportedCount(events, key) + Pending(events, key) == SuppressedCount(events, key)
  {
    if events != [] {
      SuppressionsAddUp(events[..|events| - 1], key);
    }
  }

  ghost predicate LastEmitted(events: seq<Event>, key: Key, k: nat) {
    && k < |events| && events[k].key == key && VerdictAt(events, k).Emitted?
    && forall j :: k < j < |events| && events[j].key == key ==> VerdictAt(events, j) == Suppressed
  }

  /** The windows remember where the last emitted event of a key stands. */
  ghost predicate Remembers(events: seq<Event>, key: Key) {
    if key in WindowsAfter(events) then exists k: nat :: LastEmitted(events, key, k) && WindowsAfter(events)[key].start == events[k].now
    else forall k :: 0 <= k < |events| ==> events[k].key != key
  }

  lemma VerdictsStay(front: seq<Event>, e: Event, j: nat)
    requires j < |front|
    ensures VerdictAt(front + [e], j) == VerdictAt(front, j)
  {
    assert (front + [e])[..j] == front[..j];
  }

  lemma RememberStep(front: seq<Event>, e: Event, key: Key)
    requires Remembers(front, key)
    ensures Remembers(front + [e], key)
  {
    var events := front + [e];
    assert events[..|front|] == front;
    forall j | 0 <= j < |front| ensures VerdictAt(events, j) == VerdictAt(front, j) {
      VerdictsStay(front, e, j);
    }
    if e.key == key && VerdictAt(events, |front|).Emitted? {
      assert LastEmitted(events, key, |front|);
    } else if key in WindowsAfter(front) {
      var k: nat :| LastEmitted(front, key, k) && WindowsAfter(front)[key].start == front[k].now;
      assert LastEmitted(events, key, k);
    }
  }

  lemma {:induction false} WindowOpensAtEmission(events: seq<Event>, key: Key)
    ensures Remembers(events, key)
  {
    if events != [] {
      var last := |events| - 1;
      WindowOpensAtEmission(events[..last], key);
      RememberStep(events[..last], events[last], key);
      assert events[..last] + [events[last]] == events;
    }
  }

  /** An event is suppressed exactly when the last emitted event of its key lies less than a
      minute back. */
  lemma SuppressedWithinWindow(events: seq<Event>, e: Event)
    ensures VerdictAt(events + [e], |events|) == Suppressed
       <==> exists k: nat :: LastEmitted(events, e.key, k) && e.now - events[k].now < WINDOW
  {
    assert (events + [e])[..|events|] == events;
    WindowOpensAtEmission(events, e.key);
    forall j: nat, k: nat | LastEmitted(events, e.key, j) && LastEmitted(events, e.key, k) ensures j == k {
    }
  }
}
