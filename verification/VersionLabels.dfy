/** Ordering keys of confirmed version labels and the comparison built on them.

    How a label is normalised and split into fields is an arbitrary parser; the keys made
    from the fields and their comparison are as in the program. Keys are compared like
    tuples: element by element, where an integer and a string cannot be compared. */
module VersionLabels {
  import opened Ordering
  import opened Values
  import opened Texts

  datatype Scheme = NumericDotted | SemVer | Calendar | Opaque

  datatype Part = Num(n: int) | Txt(s: string)
  type Key = seq<Part>

  /** Tuple comparison; `None` when it meets an integer opposite a string. */
  function KeyLess(a: Key, b: Key): Option<bool> {
    if b == [] then Some(false)
    else if a == [] then Some(true)
    else if a[0] == b[0] then KeyLess(a[1..], b[1..])
    else match (a[0], b[0])
      case (Num(x), Num(y)) => Some(x < y)
      case (Txt(x), Txt(y)) => Some(StringLess(x, y))
      case _ => None
  }

  // ------------------------------------------------------------ pre-releases

  predicate IsNumber(s: string) {
    s != "" && forall i :: 0 <= i < |s| ==> IsDigit(s[i])
  }

  function NumberOf(s: string): nat
    requires forall i :: 0 <= i < |s| ==> IsDigit(s[i])
  {
    if s == "" then 0
    else
      var last := |s| - 1;
      assert IsDigit(s[last]);
      NumberOf(s[..last]) * 10 + (s[last] as int - '0' as int)
  }

  /** Numbers are read in decimal; leading zeros do not matter. */
  lemma {:induction false} NumberOfDecimal(n: nat, zeros: string)
    requires forall i :: 0 <= i < |zeros| ==> zeros[i] == '0'
    ensures NumberOf(zeros + Decimal(n)) == n
  {
    var digits := zeros + Decimal(n);
    var front := digits[..|digits| - 1];
    if n < 10 {
      assert front == zeros;
      ZerosAreZero(zeros);
    } else {
      assert front == zeros + Decimal(n / 10);
      NumberOfDecimal(n / 10, zeros);
    }
  }

  lemma {:induction false} ZerosAreZero(zeros: string)
    requires forall i :: 0 <= i < |zeros| ==> zeros[i] == '0'
    ensures NumberOf(zeros) == 0
  {
    if zeros != "" {
      ZerosAreZero(zeros[..|zeros| - 1]);
    }
  }

  function Fold(s: string): string {
    seq(|s|, i requires 0 <= i < |s| => if 'A' <= s[i] <= 'Z' then (s[i] as int + 32) as char else s[i])
  }

  /** Folding ignores the case of letters and nothing else. */
  lemma FoldIgnoresCase(c: char, d: char)
    ensures Fold([c]) == Fold([d]) <==> c == d || ('A' <= c <= 'Z' && d as int == c as int + 32) || ('A' <= d <= 'Z' && c as int == d as int + 32)
    ensures Fold("a") == "a"
  {
    assert Fold([c])[0] == Fold([d])[0] <==> Fold([c]) == Fold([d]);
  }

  function IdentifierKey(part: string): Key {
    if IsNumber(part) then [Num(0), Num(NumberOf(part))] else [Num(1), Txt(Fold(part))]
  }

  function IdentifiersKey(parts: seq<string>): Key {
    if parts == [] then [] else IdentifiersKey(parts[..|parts| - 1]) + IdentifierKey(parts[|parts| - 1])
  }

  function PrereleaseKey(value: Option<string>): Key {
    match value
    case None => [Num(1)]
    case Some(v) => [Num(0)] + IdentifiersKey(Split(v, '.'))
  }

  method SemverPrerelease(value: Option<string>) returns (parts: Key)
    ensures parts == PrereleaseKey(value)
  {
    if value == None {
      return [Num(1)];
    }
    parts := [Num(0)];
    var identifiers := Split(value.value, '.');
    for i := 0 to |identifiers|
      invariant parts == [Num(0)] + IdentifiersKey(identifiers[..i])
    {
      var part := identifiers[i];
      assert identifiers[..i + 1][..i] == identifiers[..i];
      if IsNumber(part) {
        parts := parts + [Num(0), Num(NumberOf(part))];
      } else {
        parts := parts + [Num(1), Txt(Fold(part))];
      }
    }
    assert identifiers[..|identifiers|] == identifiers;
  }

  // ---------------------------------------- precedence, section 11 of SemVer 2.0.0

  datatype Release = Release(major: nat, minor: nat, patch: nat, prerelease: Option<string>)

  datatype Identifier = Numeric(n: nat) | Alphanumeric(s: string)

  function IdentifierOf(part: string): Identifier {
    if IsNumber(part) then Numeric(NumberOf(part)) else Alphanumeric(Fold(part))
  }

  function IdentifiersOf(parts: seq<string>): seq<Identifier> {
    seq(|parts|, i requires 0 <= i < |parts| => IdentifierOf(parts[i]))
  }

  /** Numeric identifiers compare numerically and come before alphanumeric ones, which
      compare in character order. */
  predicate IdentifierPrecedes(a: Identifier, b: Identifier) {
    match (a, b)
    case (Numeric(x), Numeric(y)) => x < y
    case (Numeric(_), Alphanumeric(_)) => true
    case (Alphanumeric(_), Numeric(_)) => false
    case (Alphanumeric(x), Alphanumeric(y)) => StringLess(x, y)
  }

  /** The first difference decides; without one the longer list wins. */
  ghost predicate IdentifiersPrecede(a: seq<Identifier>, b: seq<Identifier>) {
    exists k ::
      && 0 <= k <= |a| && k <= |b| && a[..k] == b[..k]
      && if k < |a| && k < |b| then a[k] != b[k] && IdentifierPrecedes(a[k], b[k]) else k == |a| < |b|
  }

  /** A pre-release comes before the release itself. */
  ghost predicate PrereleasePrecedes(a: Option<string>, b: Option<string>) {
    match (a, b)
    case (None, _) => false
    case (Some(_), None) => true
    case (Some(x), Some(y)) => IdentifiersPrecede(IdentifiersOf(Split(x, '.')), IdentifiersOf(Split(y, '.')))
  }

  ghost predicate Precedes(a: Release, b: Release) {
    if a.major != b.major then a.major < b.major
    else if a.minor != b.minor then a.minor < b.minor
    else if a.patch != b.patch then a.patch < b.patch
    else PrereleasePrecedes(a.prerelease, b.prerelease)
  }

  function ReleaseKey(r: Release): Key {
    [Num(r.major), Num(r.minor), Num(r.patch)] + PrereleaseKey(r.prerelease)
  }

  function KeyOf(id: Identifier): Key {
    match id
    case Numeric(n) => [Num(0), Num(n)]
    case Alphanumeric(s) => [Num(1), Txt(s)]
  }

  function HeadFirst(ids: seq<Identifier>): Key {
    if ids == [] then [] else KeyOf(ids[0]) + HeadFirst(ids[1..])
  }

  lemma {:induction false} HeadFirstAppend(ids: seq<Identifier>, x: Identifier)
    ensures HeadFirst(ids + [x]) == HeadFirst(ids) + KeyOf(x)
  {
    if ids == [] {
      assert [] + [x] == [x];
    } else {
      HeadFirstAppend(ids[1..], x);
      assert (ids + [x])[1..] == ids[1..] + [x];
    }
  }

  lemma {:induction false} IdentifiersKeyHeadFirst(parts: seq<string>)
    ensures IdentifiersKey(parts) == HeadFirst(IdentifiersOf(parts))
  {
    if parts != [] {
      var front, last := parts[..|parts| - 1], parts[|parts| - 1];
      IdentifiersKeyHeadFirst(front);
      assert IdentifiersOf(parts) == IdentifiersOf(front) + [IdentifierOf(last)];
      HeadFirstAppend(IdentifiersOf(front), IdentifierOf(last));
      assert KeyOf(IdentifierOf(last)) == IdentifierKey(last);
    }
  }

  lemma KeyLessPrefix(p: Key, a: Key, b: Key)
    ensures KeyLess(p + a, p + b) == KeyLess(a, b)
    decreases |p|
  {
    if p == [] {
      assert p + a == a && p + b == b;
    } else {
      assert (p + a)[1..] == p[1..] + a && (p + b)[1..] == p[1..] + b;
      KeyLessPrefix(p[1..], a, b);
    }
  }

  lemma PrecedeStep(a: seq<Identifier>, b: seq<Identifier>)
    requires a != [] && b != []
    ensures a[0] == b[0] ==> (IdentifiersPrecede(a, b) <==> IdentifiersPrecede(a[1..], b[1..]))
    ensures a[0] != b[0] ==> (IdentifiersPrecede(a, b) <==> IdentifierPrecedes(a[0], b[0]))
  {
    if a[0] == b[0] {
      if k :| 0 <= k <= |a[1..]| && k <= |b[1..]| && a[1..][..k] == b[1..][..k]
              && if k < |a[1..]| && k < |b[1..]| then a[1..][k] != b[1..][k] && IdentifierPrecedes(a[1..][k], b[1..][k]) else k == |a[1..]| < |b[1..]| {
        assert a[..k + 1] == [a[0]] + a[1..][..k] && b[..k + 1] == [b[0]] + b[1..][..k];
      }
      if k :| 0 <= k <= |a| && k <= |b| && a[..k] == b[..k]
              && if k < |a| && k < |b| then a[k] != b[k] && IdentifierPrecedes(a[k], b[k]) else k == |a| < |b| {
        assert a[1..][..k - 1] == a[..k][1..] && b[1..][..k - 1] == b[..k][1..];
      }
    } else {
      assert a[..0] == b[..0];
      forall k | 1 <= k <= |a| && k <= |b| ensures a[..k] != b[..k] {
        assert a[..k][0] != b[..k][0];
      }
    }
  }

  lemma {:induction false} HeadFirstLess(a: seq<Identifier>, b: seq<Identifier>)
    ensures KeyLess(HeadFirst(a), HeadFirst(b)) == Some(IdentifiersPrecede(a, b))
    decreases |a|
  {
    if a == [] || b == [] {
      assert a[..0] == b[..0];
    } else {
      PrecedeStep(a, b);
      var x, y := KeyOf(a[0]), KeyOf(b[0]);
      if a[0] == b[0] {
        HeadFirstLess(a[1..], b[1..]);
        KeyLessPrefix(x, HeadFirst(a[1..]), HeadFirst(b[1..]));
      } else {
        assert HeadFirst(a)[1..][0] == x[1] && HeadFirst(b)[1..][0] == y[1];
      }
    }
  }

  /** The keys of two releases never bring an integer opposite a string, and their order
      is the precedence of the standard. */
  lemma SemverOrder(a: Release, b: Release)
    ensures KeyLess(ReleaseKey(a), ReleaseKey(b)) == Some(Precedes(a, b))
  {
    var x, y := PrereleaseKey(a.prerelease), PrereleaseKey(b.prerelease);
    PrereleaseOrder(a.prerelease, b.prerelease);
    NumberFirst(a.major, b.major, [Num(a.minor), Num(a.patch)] + x, [Num(b.minor), Num(b.patch)] + y);
    NumberFirst(a.minor, b.minor, [Num(a.patch)] + x, [Num(b.patch)] + y);
    NumberFirst(a.patch, b.patch, x, y);
    KeyParts(a);
    KeyParts(b);
  }

  lemma KeyParts(r: Release)
    ensures ReleaseKey(r) == [Num(r.major)] + ([Num(r.minor), Num(r.patch)] + PrereleaseKey(r.prerelease))
    ensures [Num(r.minor), Num(r.patch)] + PrereleaseKey(r.prerelease) == [Num(r.minor)] + ([Num(r.patch)] + PrereleaseKey(r.prerelease))
  {
  }

  lemma NumberFirst(m: int, n: int, a: Key, b: Key)
    ensures KeyLess([Num(m)] + a, [Num(n)] + b) == if m == n then KeyLess(a, b) else Some(m < n)
  {
    assert ([Num(m)] + a)[1..] == a && ([Num(n)] + b)[1..] == b;
  }

  lemma PrereleaseOrder(a: Option<string>, b: Option<string>)
    ensures KeyLess(PrereleaseKey(a), PrereleaseKey(b)) == Some(PrereleasePrecedes(a, b))
  {
    if a.Some? && b.Some? {
      var ps, qs := Split(a.value, '.'), Split(b.value, '.');
      IdentifiersKeyHeadFirst(ps);
      IdentifiersKeyHeadFirst(qs);
      HeadFirstLess(IdentifiersOf(ps), IdentifiersOf(qs));
      NumberFirst(0, 0, HeadFirst(IdentifiersOf(ps)), HeadFirst(IdentifiersOf(qs)));
    }
  }

  // ------------------------------------------------------------- comparison

  datatype Fields =
    | NumericFields(segments: seq<nat>)
    | SemVerFields(release: Release)
    | CalendarFields(year: nat, month: nat, day: nat)
    | OpaqueFields

  function SchemeOf(f: Fields): Scheme {
    match f
    case NumericFields(_) => NumericDotted
    case SemVerFields(_) => SemVer
    case CalendarFields(_, _, _) => Calendar
    case OpaqueFields => Opaque
  }

  /** Normalisation and field splitting; the fields depend on the normalised label only. */
  datatype Parser = Parser(normalize: string -> string, fields: (string, Scheme) -> Option<Fields>)

  ghost predicate Sound(p: Parser) {
    forall n, scheme :: p.fields(n, scheme).Some? ==> SchemeOf(p.fields(n, scheme).value) == scheme
  }

  datatype Parsed = Parsed(normalized: string, key: Option<Key>)

  function NumbersKey(ns: seq<nat>): Key {
    seq(|ns|, i requires 0 <= i < |ns| => Num(ns[i]))
  }

  function OrderKey(f: Fields): Option<Key> {
    match f
    case NumericFields(segments) => Some(NumbersKey(segments))
    case SemVerFields(release) => Some(ReleaseKey(release))
    case CalendarFields(year, month, day) => Some([Num(year), Num(month), Num(day)])
    case OpaqueFields => None
  }

  function Parse(p: Parser, text: string, scheme: Scheme): Option<Parsed> {
    var n := p.normalize(text);
    if n == "" then None
    else match p.fields(n, scheme)
      case None => None
      case Some(f) => Some(Parsed(n, OrderKey(f)))
  }

  /** The order of two labels where the scheme proves one: -1, 0 or 1. */
  function Compare(p: Parser, left: string, right: string, scheme: Scheme): Option<int> {
    match (Parse(p, left, scheme), Parse(p, right, scheme))
    case (Some(l), Some(r)) =>
      if l.normalized == r.normalized then Some(0)
      else if l.key == None || r.key == None then None
      else Some(if KeyLess(l.key.value, r.key.value) == Some(true) then -1 else 1)
    case _ => None
  }

  predicate AllNumbers(k: Key) {
    forall i :: 0 <= i < |k| ==> k[i].Num?
  }

  lemma {:induction false} NumbersComparable(a: Key, b: Key)
    requires AllNumbers(a) && AllNumbers(b)
    ensures KeyLess(a, b).Some?
    decreases |a|
  {
    if a != [] && b != [] && a[0] == b[0] {
      NumbersComparable(a[1..], b[1..]);
    }
  }

  /** Within one scheme keys are always comparable. */
  lemma SchemeComparable(f: Fields, g: Fields)
    requires SchemeOf(f) == SchemeOf(g) && !f.OpaqueFields?
    ensures KeyLess(OrderKey(f).value, OrderKey(g).value).Some?
  {
    if f.SemVerFields? {
      SemverOrder(f.release, g.release);
    } else {
      NumbersComparable(OrderKey(f).value, OrderKey(g).value);
    }
  }

  /** The first difference decides; without one the longer list wins. */
  ghost predicate NumbersPrecede(a: seq<nat>, b: seq<nat>) {
    exists k ::
      && 0 <= k <= |a| && k <= |b| && a[..k] == b[..k]
      && if k < |a| && k < |b| then a[k] < b[k] else k == |a| < |b|
  }

  /** The order of versions within one scheme, on the fields of their labels. */
  ghost predicate FieldsPrecede(f: Fields, g: Fields) {
    match (f, g)
    case (NumericFields(a), NumericFields(b)) => NumbersPrecede(a, b)
    case (SemVerFields(a), SemVerFields(b)) => Precedes(a, b)
    case (CalendarFields(y, m, d), CalendarFields(y', m', d')) => y < y' || (y == y' && (m < m' || (m == m' && d < d')))
    case _ => false
  }

  lemma NumbersStep(a: seq<nat>, b: seq<nat>)
    requires a != [] && b != []
    ensures NumbersPrecede(a, b) <==> a[0] < b[0] || (a[0] == b[0] && NumbersPrecede(a[1..], b[1..]))
  {
    if a[0] == b[0] {
      if k :| 0 <= k <= |a[1..]| && k <= |b[1..]| && a[1..][..k] == b[1..][..k]
              && if k < |a[1..]| && k < |b[1..]| then a[1..][k] < b[1..][k] else k == |a[1..]| < |b[1..]| {
        assert a[..k + 1] == [a[0]] + a[1..][..k] && b[..k + 1] == [b[0]] + b[1..][..k];
      }
      if k :| 0 <= k <= |a| && k <= |b| && a[..k] == b[..k]
              && if k < |a| && k < |b| then a[k] < b[k] else k == |a| < |b| {
        assert a[1..][..k - 1] == a[..k][1..] && b[1..][..k - 1] == b[..k][1..];
      }
    } else {
      assert a[..0] == b[..0];
      forall k | 1 <= k <= |a| && k <= |b| ensures a[..k] != b[..k] {
        assert a[..k][0] != b[..k][0];
      }
    }
  }

  lemma {:induction false} NumbersOrder(a: seq<nat>, b: seq<nat>)
    ensures KeyLess(NumbersKey(a), NumbersKey(b)) == Some(NumbersPrecede(a, b))
    decreases |a|
  {
    if a == [] || b == [] {
      assert a[..0] == b[..0];
    } else {
      NumbersStep(a, b);
      NumbersOrder(a[1..], b[1..]);
      assert NumbersKey(a)[1..] == NumbersKey(a[1..]) && NumbersKey(b)[1..] == NumbersKey(b[1..]);
    }
  }

  /** Keys order versions as their fields do. */
  lemma KeysOrderVersions(f: Fields, g: Fields)
    requires SchemeOf(f) == SchemeOf(g) && !f.OpaqueFields?
    ensures OrderKey(f).Some? && OrderKey(g).Some? && KeyLess(OrderKey(f).value, OrderKey(g).value) == Some(FieldsPrecede(f, g))
  {
    match f
    case NumericFields(segments) => NumbersOrder(segments, g.segments);
    case SemVerFields(release) => SemverOrder(release, g.release);
    case CalendarFields(year, month, day) =>
      NumbersOrder([year, month, day], [g.year, g.month, g.day]);
      CalendarNumbers([year, month, day], [g.year, g.month, g.day]);
      CalendarKey(year, month, day);
      CalendarKey(g.year, g.month, g.day);
  }

  lemma CalendarKey(year: nat, month: nat, day: nat)
    ensures OrderKey(CalendarFields(year, month, day)) == Some(NumbersKey([year, month, day]))
  {
    assert NumbersKey([year, month, day]) == [Num(year), Num(month), Num(day)];
  }

  lemma CalendarNumbers(a: seq<nat>, b: seq<nat>)
    requires |a| == |b| == 3
    ensures NumbersPrecede(a, b) <==> FieldsPrecede(CalendarFields(a[0], a[1], a[2]), CalendarFields(b[0], b[1], b[2]))
  {
    NumbersStep(a, b);
    NumbersStep(a[1..], b[1..]);
    NumbersStep(a[1..][1..], b[1..][1..]);
  }

  /** The fields of a label, if it is one of the scheme. */
  function FieldsOf(p: Parser, label_: string, scheme: Scheme): Option<Fields> {
    if p.normalize(label_) == "" then None else p.fields(p.normalize(label_), scheme)
  }

  /** The outcome of a comparison is the order of the two versions: -1 exactly if the left one
      comes first, 0 exactly for labels that normalise alike, nothing exactly if one is no label
      of the scheme or the scheme has no order. */
  lemma CompareIsOrder(p: Parser, left: string, right: string, scheme: Scheme)
    requires Sound(p)
    ensures var f, g := FieldsOf(p, left, scheme), FieldsOf(p, right, scheme);
            var alike := p.normalize(left) == p.normalize(right);
            && (Compare(p, left, right, scheme) == None <==> f == None || g == None || (!alike && scheme == Opaque))
            && (Compare(p, left, right, scheme) == Some(0) <==> f.Some? && g.Some? && alike)
            && (Compare(p, left, right, scheme) == Some(-1) <==> f.Some? && g.Some? && !alike && FieldsPrecede(f.value, g.value))
            && (Compare(p, left, right, scheme) == Some(1)
                <==> f.Some? && g.Some? && !alike && scheme != Opaque && !FieldsPrecede(f.value, g.value))
  {
    var f, g := FieldsOf(p, left, scheme), FieldsOf(p, right, scheme);
    if f.Some? && g.Some? && scheme != Opaque {
      KeysOrderVersions(f.value, g.value);
    }
  }

  lemma {:induction false} KeyLessTransitive(a: Key, b: Key, c: Key)
    requires KeyLess(a, b) == Some(true) && KeyLess(b, c) == Some(true) && KeyLess(a, c).Some?
    ensures KeyLess(a, c) == Some(true)
    decreases |a|
  {
    if a != [] {
      if a[0] == b[0] && b[0] == c[0] {
        KeyLessTransitive(a[1..], b[1..], c[1..]);
      } else if a[0].Txt? && b[0].Txt? && c[0].Txt? && a[0] != b[0] && b[0] != c[0] {
        StringLessTransitive(a[0].s, b[0].s, c[0].s);
        StringLessIrreflexive(a[0].s);
      }
    }
  }

  lemma {:induction false} KeyLessIrreflexive(a: Key)
    ensures KeyLess(a, a) == Some(false)
  {
    if a != [] {
      KeyLessIrreflexive(a[1..]);
    }
  }

  lemma {:induction false} KeyLessTotal(a: Key, b: Key)
    requires KeyLess(a, b).Some? && KeyLess(b, a).Some?
    ensures KeyLess(a, b) == Some(true) || a == b || KeyLess(b, a) == Some(true)
    decreases |a|
  {
    if a != [] && b != [] {
      if a[0] == b[0] {
        KeyLessTotal(a[1..], b[1..]);
        assert a == [a[0]] + a[1..] && b == [b[0]] + b[1..];
      } else if a[0].Txt? {
        StringLessTotal(a[0].s, b[0].s);
      }
    }
  }

  /** The outcome -1 is a strict partial order on labels. */
  lemma BeforeIsStrictOrder(p: Parser, a: string, b: string, c: string, scheme: Scheme)
    requires Sound(p)
    ensures Compare(p, a, a, scheme) != Some(-1)
    ensures Compare(p, a, b, scheme) == Some(-1) ==> Compare(p, b, a, scheme) == Some(1)
    ensures Compare(p, a, b, scheme) == Some(-1) && Compare(p, b, c, scheme) == Some(-1) ==> Compare(p, a, c, scheme) == Some(-1)
  {
    if Compare(p, a, b, scheme) == Some(-1) {
      var k, l := Parse(p, a, scheme).value.key.value, Parse(p, b, scheme).value.key.value;
      KeyLessIrreflexive(k);
      SchemeComparable(p.fields(p.normalize(a), scheme).value, p.fields(p.normalize(a), scheme).value);
      if KeyLess(l, k) == Some(true) {
        KeyLessTransitive(k, l, k);
      }
      if Compare(p, b, c, scheme) == Some(-1) {
        SchemeComparable(p.fields(p.normalize(a), scheme).value, p.fields(p.normalize(c), scheme).value);
        KeyLessTransitive(k, l, Parse(p, c, scheme).value.key.value);
      }
    }
  }

  /** Two labels compare as 1 in both directions exactly when they differ but have equal
      keys, as `1.0` and `1.00` do; otherwise the outcomes of the two directions are
      opposite. */
  lemma GreaterBothWays(p: Parser, a: string, b: string, scheme: Scheme)
    requires Sound(p) && Compare(p, a, b, scheme).Some?
    ensures Compare(p, a, b, scheme) == Some(1) && Compare(p, b, a, scheme) == Some(1)
       <==> Parse(p, a, scheme).value.key == Parse(p, b, scheme).value.key && p.normalize(a) != p.normalize(b)
    ensures Parse(p, a, scheme).value.key != Parse(p, b, scheme).value.key || p.normalize(a) == p.normalize(b) ==>
              Compare(p, b, a, scheme) == Some(-Compare(p, a, b, scheme).value)
  {
    if p.normalize(a) != p.normalize(b) {
      var f, g := p.fields(p.normalize(a), scheme).value, p.fields(p.normalize(b), scheme).value;
      var k, l := OrderKey(f).value, OrderKey(g).value;
      SchemeComparable(f, g);
      SchemeComparable(g, f);
      KeyLessTotal(k, l);
      KeyLessIrreflexive(k);
      if KeyLess(k, l) == Some(true) && KeyLess(l, k) == Some(true) {
        KeyLessTransitive(k, l, k);
      }
    }
  }

  predicate AllNumeric(parts: seq<string>) {
    forall i :: 0 <= i < |parts| ==> IsNumber(parts[i])
  }

  function NumbersOf(parts: seq<string>): seq<nat>
    requires AllNumeric(parts)
  {
    seq(|parts|, i requires 0 <= i < |parts| => NumberOf(parts[i]))
  }

  /** The fields of a dotted label: two or more numbers between dots. */
  function DottedFields(n: string): Option<Fields> {
    var parts := Split(n, '.');
    if |parts| >= 2 && AllNumeric(parts) then Some(NumericFields(NumbersOf(parts))) else None
  }

  lemma DottedWitness()
    ensures DottedFields("1.0") == DottedFields("1.00") == Some(NumericFields([1, 0]))
  {
    SplitOnce("1", "0", '.');
    SplitOnce("1", "00", '.');
    assert "1" + ['.'] + "0" == "1.0" && "1" + ['.'] + "00" == "1.00";
    assert IsNumber("1") && IsNumber("0") && IsNumber("00");
    assert "1"[..0] == "" && "0"[..0] == "" && "00"[..1] == "0";
    assert NumberOf("1") == 1 && NumberOf("0") == 0 && NumberOf("00") == 0;
    assert NumbersOf(["1", "0"]) == [1, 0] && NumbersOf(["1", "00"]) == [1, 0];
  }

  /** `1.0` and `1.00` are such labels of the numeric scheme: each comes after the other. */
  lemma EqualKeysWitness(p: Parser)
    requires p.normalize("1.0") == "1.0" && p.normalize("1.00") == "1.00"
    requires p.fields("1.0", NumericDotted) == DottedFields("1.0") && p.fields("1.00", NumericDotted) == DottedFields("1.00")
    ensures Compare(p, "1.0", "1.00", NumericDotted) == Some(1) && Compare(p, "1.00", "1.0", NumericDotted) == Some(1)
  {
    DottedWitness();
    KeyLessIrreflexive(NumbersKey([1, 0]));
  }
}
