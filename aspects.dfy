/** The aspect resolver of src/astrologer/aspects.js: the orb table, the
    shortest-arc separation, the per-side candidate filter and the choice
    of the closest nominal angle. */
module Aspects {
  import opened Common

  /** An ecliptic longitude after normalisation into [0, 360). */
  type Longitude = x: real | 0.0 <= x < 360.0

  /** What the resolver reads of a body: its name, its `type` (the body
      category, a key of the orb table) and its normalised longitude. */
  datatype Body = Body(name: string, kind: string, longitude: Longitude)

  /** Orb (in degrees) per nominal aspect angle, for one body category. */
  type Orbs = map<int, real>

  /** Orbs per body category. */
  type OrbTable = map<string, Orbs>

  datatype Direction = Bidirectional | Unidirectional

  /** One side of a found aspect: the body's name and whether that body's
      own orbs admit the chosen angle. */
  datatype Side = Side(name: string, exist: bool)

  datatype AspectResult = AspectResult(name: string, direction: Direction, first: Side, second: Side)

  /** The keys of ASPECTS, in JavaScript's ascending enumeration order. */
  const AspectAngles: seq<int> := [0, 30, 60, 90, 120, 150, 180]

  /** ASPECTS: the name of each nominal angle. */
  function AspectName(angle: int): string
    requires angle in AspectAngles
  {
    match angle
    case 0 => "conjunction"
    case 30 => "semisextile"
    case 60 => "sextile"
    case 90 => "quadrature"
    case 120 => "trigone"
    case 150 => "quincunx"
    case 180 => "opposition"
  }

  /** DEFAULT_ORBS. */
  const DefaultOrbs: OrbTable := map[
    "luminary" := map[0 := 10.0, 30 := 3.0, 60 := 5.0, 90 := 6.0, 120 := 8.0, 150 := 5.0, 180 := 10.0],
    "personal" := map[0 := 7.0, 30 := 2.0, 60 := 4.0, 90 := 5.0, 120 := 6.0, 150 := 2.0, 180 := 7.0],
    "social" := map[0 := 6.0, 30 := 1.5, 60 := 3.0, 90 := 4.0, 120 := 5.0, 150 := 3.0, 180 := 6.0],
    "transpersonal" := map[0 := 5.0, 30 := 1.0, 60 := 2.0, 90 := 3.0, 120 := 4.0, 150 := 2.0, 180 := 5.0],
    "axis" := map[0 := 5.0],
    "other" := map[0 := 5.0, 30 := 1.0, 60 := 2.0, 90 := 3.0, 120 := 4.0, 150 := 2.0, 180 := 5.0]]

  /** DEFAULT_ORBS has the six body categories. An axis has an orb for the
      conjunction only; every other category has a positive orb for every
      nominal angle. */
  lemma DefaultOrbsShape()
    ensures DefaultOrbs.Keys == {"luminary", "personal", "social", "transpersonal", "axis", "other"}
    ensures DefaultOrbs["axis"].Keys == {0} && DefaultOrbs["axis"][0] == 5.0
    ensures forall c, a | c in DefaultOrbs && c != "axis" && a in AspectAngles ::
      a in DefaultOrbs[c] && 0.0 < DefaultOrbs[c][a]
    ensures forall c | c in DefaultOrbs && c != "axis" :: forall a :: a in DefaultOrbs[c] <==> a in AspectAngles
  {
    forall c | c in DefaultOrbs && c != "axis"
      ensures forall a :: a in DefaultOrbs[c] <==> a in AspectAngles
      ensures forall a | a in AspectAngles :: a in DefaultOrbs[c] && 0.0 < DefaultOrbs[c][a]
    {
      CategoryOrbs(c);
    }
  }

  /** The orbs of one category other than "axis". */
  lemma CategoryOrbs(c: string)
    requires c in DefaultOrbs && c != "axis"
    ensures forall a :: a in DefaultOrbs[c] <==> a in AspectAngles
    ensures forall a | a in AspectAngles :: a in DefaultOrbs[c] && 0.0 < DefaultOrbs[c][a]
  {
    var o := DefaultOrbs[c];
    if c == "luminary" {
      assert o == map[0 := 10.0, 30 := 3.0, 60 := 5.0, 90 := 6.0, 120 := 8.0, 150 := 5.0, 180 := 10.0];
    } else if c == "personal" {
      assert o == map[0 := 7.0, 30 := 2.0, 60 := 4.0, 90 := 5.0, 120 := 6.0, 150 := 2.0, 180 := 7.0];
    } else if c == "social" {
      assert o == map[0 := 6.0, 30 := 1.5, 60 := 3.0, 90 := 4.0, 120 := 5.0, 150 := 3.0, 180 := 6.0];
    } else {
      assert o == map[0 := 5.0, 30 := 1.0, 60 := 2.0, 90 := 3.0, 120 := 4.0, 150 := 2.0, 180 := 5.0];
    }
  }

  /** ASPECTS names its seven angles apart. */
  lemma AspectNamesDistinct()
    ensures forall a, b | a in AspectAngles && b in AspectAngles && a != b :: AspectName(a) != AspectName(b)
  {
  }

  function Abs(x: real): real { if x < 0.0 then -x else x }

  /** The shortest arc between two longitudes: min(|a-b|, 360-|a-b|). */
  function Separation(a: Longitude, b: Longitude): (d: real)
    ensures 0.0 <= d <= 180.0
    ensures d <= Abs(a - b) && d <= 360.0 - Abs(a - b)
    ensures d == Abs(a - b) || d == 360.0 - Abs(a - b)
  {
    var delta := Abs(a - b);
    if delta <= 360.0 - delta then delta else 360.0 - delta
  }

  lemma SeparationSymmetric(a: Longitude, b: Longitude)
    ensures Separation(a, b) == Separation(b, a)
  {
    assert Abs(a - b) == Abs(b - a);
  }

  /** The 0°/360° seam: 359° and 1° are 2° apart, not 358°. */
  lemma SeparationAcrossSeam()
    ensures Separation(359.0, 1.0) == 2.0
  {
  }

  predicate IsAxis(b: Body) { b.kind == "axis" }

  /** The closed window [a - orb, a + orb] around angle `a` contains `diff`.
      An angle with no orb evaluates to NaN bounds in the source and is
      never a candidate. */
  predicate InWindow(orbs: Orbs, a: int, diff: real) {
    a in orbs && a as real - orbs[a] <= diff <= a as real + orbs[a]
  }

  predicate Ascending(s: seq<int>) {
    forall i, j | 0 <= i < j < |s| :: s[i] < s[j]
  }

  /** The angles of `angles` whose window contains `diff`, in their order. */
  function WithinOrbs(angles: seq<int>, orbs: Orbs, diff: real): (r: seq<int>)
    ensures forall a :: a in r <==> a in angles && InWindow(orbs, a, diff)
    ensures Ascending(angles) ==> Ascending(r)
  {
    if angles == [] then []
    else
      var rest := WithinOrbs(angles[1..], orbs, diff);
      if InWindow(orbs, angles[0], diff) then
        var r := [angles[0]] + rest;
        assert Ascending(angles) ==> Ascending(r) by {
          if Ascending(angles) {
            forall a | a in rest ensures angles[0] < a {
              var m :| 0 <= m < |angles[1..]| && angles[1..][m] == a;
              assert angles[m + 1] == a;
            }
            forall i, j | 0 <= i < j < |r| ensures r[i] < r[j] {
              assert r[j] == rest[j - 1] && rest[j - 1] in rest;
              if i > 0 { assert r[i] == rest[i - 1]; }
            }
          }
        }
        r
      else rest
  }

  /** calculateAspect: the nominal angles that one side's orbs admit.  When
      either body is an axis only the key 0 is tested. */
  function Candidates(first: Body, second: Body, orbs: Orbs): (r: seq<int>)
    ensures Ascending(r)
    ensures IsAxis(first) || IsAxis(second) ==>
      forall a :: a in r <==> a == 0 && InWindow(orbs, 0, Separation(first.longitude, second.longitude))
    ensures !IsAxis(first) && !IsAxis(second) ==>
      forall a :: a in r <==> a in AspectAngles && InWindow(orbs, a, Separation(first.longitude, second.longitude))
  {
    var diff := Separation(first.longitude, second.longitude);
    if IsAxis(first) || IsAxis(second) then
      if InWindow(orbs, 0, diff) then [0] else []
    else
      WithinOrbs(AspectAngles, orbs, diff)
  }

  predicate NoDuplicates(s: seq<int>) {
    forall i, j | 0 <= i < j < |s| :: s[i] != s[j]
  }

  /** `[...new Set(s)]`: the first occurrence of every element, in order. */
  function Dedup(s: seq<int>): seq<int> {
    if s == [] then []
    else
      var init := s[..|s| - 1];
      var last := s[|s| - 1];
      Dedup(init) + (if last in init then [] else [last])
  }

  /** `[...new Set(s)]` has the members of s, no duplicates, and is s
      itself when s has none. */
  lemma {:induction false} DedupShape(s: seq<int>)
    ensures forall x :: x in Dedup(s) <==> x in s
    ensures NoDuplicates(Dedup(s))
    ensures NoDuplicates(s) ==> Dedup(s) == s
  {
    if s != [] {
      var init, last := s[..|s| - 1], s[|s| - 1];
      DedupShape(init);
      assert s == init + [last];
      assert forall x :: x in s <==> x in init || x == last;
      if last !in init {
        NoDuplicatesSnoc(Dedup(init), last);
        NoDuplicatesSnoc(init, last);
      } else {
        assert Dedup(s) == Dedup(init) + [];
      }
    }
  }

  lemma NoDuplicatesSnoc(d: seq<int>, x: int)
    requires x !in d
    ensures NoDuplicates(d + [x]) <==> NoDuplicates(d)
  {
    var e := d + [x];
    if NoDuplicates(d) {
      forall i, j | 0 <= i < j < |e| ensures e[i] != e[j] {
        if j == |d| { assert e[i] in d; }
      }
    }
    if NoDuplicates(e) {
      forall i, j | 0 <= i < j < |d| ensures d[i] != d[j] {
        assert e[i] == d[i] && e[j] == d[j];
      }
    }
  }

  /** The union of the two candidate lists, in Set insertion order. */
  function Union(a: seq<int>, b: seq<int>): (r: seq<int>)
    ensures forall x :: x in r <==> x in a || x in b
    ensures NoDuplicates(r)
    ensures NoDuplicates(a) ==> |r| >= |a| && forall t | 0 <= t < |a| :: r[t] == a[t]
  {
    DedupShape(a + b);
    DedupKeepsDistinctPrefix(a, b);
    Dedup(a + b)
  }

  lemma {:induction false} DedupKeepsDistinctPrefix(a: seq<int>, b: seq<int>)
    ensures NoDuplicates(a) ==> |Dedup(a + b)| >= |a| && forall t | 0 <= t < |a| :: Dedup(a + b)[t] == a[t]
    decreases |b|
  {
    if b == [] {
      assert a + b == a;
      DedupShape(a);
    } else {
      var s := a + b;
      assert s[..|s| - 1] == a + b[..|b| - 1];
      DedupKeepsDistinctPrefix(a, b[..|b| - 1]);
    }
  }

  /** x occurs in r before y. */
  ghost predicate Precedes(r: seq<int>, x: int, y: int) {
    exists a, b | 0 <= a < b < |r| :: r[a] == x && r[b] == y
  }

  /** `[...new Set(s)]` keeps the order of first occurrences: the first
      occurrences at positions p < q of s appear in that order. */
  lemma {:induction false} DedupOrder(s: seq<int>, p: nat, q: nat)
    requires p < q < |s| && s[p] !in s[..p] && s[q] !in s[..q]
    ensures Precedes(Dedup(s), s[p], s[q])
  {
    var init, last := s[..|s| - 1], s[|s| - 1];
    var d := Dedup(init);
    assert init[..p] == s[..p] && init[p] == s[p];
    if q == |s| - 1 {
      var a := DedupHas(init, p);
      assert s[..q] == init;
      assert Dedup(s) == d + [last];
      assert Dedup(s)[a] == s[p] && Dedup(s)[|d|] == s[q];
    } else {
      assert init[..q] == s[..q] && init[q] == s[q];
      DedupOrder(init, p, q);
      var a, b :| 0 <= a < b < |d| && d[a] == s[p] && d[b] == s[q];
      var r := Dedup(s);
      assert r == d + if last in init then [] else [last];
      assert r[a] == s[p] && r[b] == s[q];
    }
  }

  /** Every member of s has a position in `[...new Set(s)]`. */
  lemma DedupHas(s: seq<int>, p: nat) returns (a: nat)
    requires p < |s|
    ensures a < |Dedup(s)| && Dedup(s)[a] == s[p]
  {
    DedupShape(s);
    var d := Dedup(s);
    assert forall x :: x in d <==> x in s;
    assert s[p] in d;
    a :| a < |Dedup(s)| && Dedup(s)[a] == s[p];
  }

  /** The union lists the first list's new members and then the second's,
      each in the order of its first occurrence in the two lists. */
  lemma UnionOrder(a: seq<int>, b: seq<int>, p: nat, q: nat)
    requires p < q < |a + b| && (a + b)[p] !in (a + b)[..p] && (a + b)[q] !in (a + b)[..q]
    ensures Precedes(Union(a, b), (a + b)[p], (a + b)[q])
  {
    DedupOrder(a + b, p, q);
  }

  /** A concrete union: a first list's member, then the second list's new
      members in their own order. */
  lemma UnionExample()
    ensures Union([90], [30, 60]) == [90, 30, 60]
  {
    var s := [90] + [30, 60];
    assert s[..2] == [90, 30] && s[..2][..1] == [90];
    assert Dedup([90]) == [90] by { assert [90][..0] == []; }
    assert Dedup([90, 30]) == [90, 30];
    assert Dedup(s) == [90, 30, 60];
  }

  /** How far a nominal angle is from the actual separation. */
  function Gap(a: int, diff: real): real { Abs(a as real - diff) }

  /** The `reduce` with a strict `<`: an element replaces the current choice
      only when it is strictly closer. */
  function Nearest(s: seq<int>, diff: real, acc: int): (r: int)
    ensures r == acc || r in s
    ensures Gap(r, diff) <= Gap(acc, diff)
    ensures r != acc ==> Gap(r, diff) < Gap(acc, diff)
    ensures forall x | x in s :: Gap(r, diff) <= Gap(x, diff)
  {
    if s == [] then acc
    else
      var acc' := if Gap(s[0], diff) < Gap(acc, diff) then s[0] else acc;
      Nearest(s[1..], diff, acc')
  }

  /** Among members as close as the choice, the choice is the start value
      or comes no later than any of them. */
  lemma {:induction false} NearestEarliest(s: seq<int>, diff: real, acc: int)
    ensures var r := Nearest(s, diff, acc);
      forall i | 0 <= i < |s| && Gap(s[i], diff) == Gap(r, diff) :: r == acc || r in s[..i + 1]
  {
    if s != [] {
      var acc' := if Gap(s[0], diff) < Gap(acc, diff) then s[0] else acc;
      var rest := s[1..];
      var r := Nearest(rest, diff, acc');
      assert r == Nearest(s, diff, acc);
      NearestEarliest(rest, diff, acc');
      forall i | 0 <= i < |s| && Gap(s[i], diff) == Gap(r, diff)
        ensures r == acc || r in s[..i + 1]
      {
        if i == 0 {
          if acc' == s[0] {
            assert r == s[..1][0];
          }
        } else {
          assert rest[i - 1] == s[i];
          assert Gap(rest[i - 1], diff) == Gap(r, diff);
          assert r == acc' || r in rest[..i];
          if r != acc' {
            var k :| 0 <= k < i && rest[..i][k] == r;
            assert s[..i + 1][k + 1] == r;
          } else if acc' == s[0] {
            assert r == s[..i + 1][0];
          }
        }
      }
    }
  }

  /** The candidate closest to `diff`; among equally close ones, the first. */
  function Closest(s: seq<int>, diff: real): (r: int)
    requires |s| > 0
    ensures r in s
    ensures forall x | x in s :: Gap(r, diff) <= Gap(x, diff)
    ensures forall i | 0 <= i < |s| && Gap(s[i], diff) == Gap(r, diff) :: r in s[..i + 1]
  {
    NearestEarliest(s, diff, s[0]);
    Nearest(s, diff, s[0])
  }

  /** The orb table in force: DEFAULT_ORBS when the caller gives none. */
  function TableOf(orbs: Option<OrbTable>): OrbTable {
    if orbs.None? then DefaultOrbs else orbs.value
  }

  /** Both categories have an entry in the orb table in force. */
  predicate Known(first: Body, second: Body, orbs: Option<OrbTable>) {
    first.kind in TableOf(orbs) && second.kind in TableOf(orbs)
  }

  /** The nearest-angle choice over the union of the two candidate lists,
      and the direction and `exist` flags derived from it.  No result
      exactly when both lists are empty; otherwise the chosen angle is in
      the union, no member of the union is strictly closer to `diff`, ties
      go to the earliest member in union order (first's list, then second's
      new entries), and each `exist` flag says whether that side's list has
      the chosen angle. */
  function Resolve(first: Body, second: Body, diff: real, fromFirst: seq<int>, fromSecond: seq<int>): (r: Option<AspectResult>)
    requires forall a | a in fromFirst :: a in AspectAngles
    requires forall a | a in fromSecond :: a in AspectAngles
    ensures r.None? <==> fromFirst == [] && fromSecond == []
    ensures r.Some? ==> (r.value.direction == Bidirectional <==> r.value.first.exist && r.value.second.exist)
    ensures r.Some? ==> r.value.first.exist || r.value.second.exist
  {
    var combined := Union(fromFirst, fromSecond);
    assert combined == [] <==> fromFirst == [] && fromSecond == [] by {
      if fromFirst != [] { assert fromFirst[0] in combined; }
      if fromSecond != [] { assert fromSecond[0] in combined; }
    }
    if |combined| == 0 then None
    else
      var closest := Closest(combined, diff);
      var firstExists := closest in fromFirst;
      var secondExists := closest in fromSecond;
      var r := AspectResult(
        AspectName(closest),
        if firstExists && secondExists then Bidirectional else Unidirectional,
        Side(first.name, firstExists),
        Side(second.name, secondExists));
      Some(r)
  }

  /** The choice Resolve makes: the chosen angle is in the union, no member
      of the union is strictly closer to `diff`, ties go to the earliest
      member in union order (first's list, then second's new entries), and
      each `exist` flag says whether that side's list has the chosen angle. */
  lemma ResolveChoice(first: Body, second: Body, diff: real, fromFirst: seq<int>, fromSecond: seq<int>)
    requires forall a | a in fromFirst :: a in AspectAngles
    requires forall a | a in fromSecond :: a in AspectAngles
    ensures var r := Resolve(first, second, diff, fromFirst, fromSecond);
      r.Some? ==>
      var u := Union(fromFirst, fromSecond);
      exists a :: && a in u
                  && r.value.name == AspectName(a)
                  && (forall x | x in u :: Gap(a, diff) <= Gap(x, diff))
                  && (forall i | 0 <= i < |u| && Gap(u[i], diff) == Gap(a, diff) :: a in u[..i + 1])
                  && r.value.first == Side(first.name, a in fromFirst)
                  && r.value.second == Side(second.name, a in fromSecond)
  {
    var u := Union(fromFirst, fromSecond);
    if u != [] {
      var a := Closest(u, diff);
      assert a in u;
    }
  }

  /** aspect: resolves the aspect between two bodies, if any: nothing for a
      category the orb table does not know, otherwise the choice over the
      candidate lists computed with each side's own orbs. */
  function Aspect(first: Body, second: Body, orbs: Option<OrbTable>): (r: Option<AspectResult>)
    ensures !Known(first, second, orbs) ==> r.None?
    ensures Known(first, second, orbs) ==>
      r == Resolve(first, second, Separation(first.longitude, second.longitude),
                   Candidates(first, second, TableOf(orbs)[first.kind]),
                   Candidates(first, second, TableOf(orbs)[second.kind]))
    ensures r.Some? && (IsAxis(first) || IsAxis(second)) ==> r.value.name == "conjunction"
  {
    var table := TableOf(orbs);
    if first.kind !in table || second.kind !in table then None
    else
      var fromFirst := Candidates(first, second, table[first.kind]);
      var fromSecond := Candidates(first, second, table[second.kind]);
      Resolve(first, second, Separation(first.longitude, second.longitude), fromFirst, fromSecond)
  }

  /** An ascending list is determined by its members. */
  lemma {:induction false} AscendingByMembers(r: seq<int>, s: seq<int>)
    requires Ascending(r) && Ascending(s)
    requires forall a :: a in r <==> a in s
    ensures r == s
    decreases |r|
  {
    assert r == [] <==> s == [] by {
      if r != [] { assert r[0] in r; }
      if s != [] { assert s[0] in s; }
    }
    if r != [] {
      assert r[0] == s[0] by {
        assert forall k | 0 <= k < |r| :: r[0] <= r[k];
        assert forall k | 0 <= k < |s| :: s[0] <= s[k];
        assert r[0] in s && s[0] in r;
      }
      forall a ensures a in r[1..] <==> a in s[1..] {
        assert a in r[1..] <==> a in r && a != r[0] by {
          if a in r[1..] { var k :| 1 <= k < |r| && r[k] == a; assert r[0] < r[k]; }
          if a in r && a != r[0] { var k :| 0 <= k < |r| && r[k] == a; assert r[1..][k - 1] == a; }
        }
        assert a in s[1..] <==> a in s && a != s[0] by {
          if a in s[1..] { var k :| 1 <= k < |s| && s[k] == a; assert s[0] < s[k]; }
          if a in s && a != s[0] { var k :| 0 <= k < |s| && s[k] == a; assert s[1..][k - 1] == a; }
        }
      }
      AscendingByMembers(r[1..], s[1..]);
    }
  }

  /** The candidate list of two non-axis bodies is the ascending list of
      exactly the admitted nominal angles. */
  lemma CandidatesAre(first: Body, second: Body, orbs: Orbs, s: seq<int>)
    requires !IsAxis(first) && !IsAxis(second)
    requires Ascending(s)
    requires forall a | a in s :: a in AspectAngles
    requires forall a | a in AspectAngles :: InWindow(orbs, a, Separation(first.longitude, second.longitude)) <==> a in s
    ensures Candidates(first, second, orbs) == s
  {
    AscendingByMembers(Candidates(first, second, orbs), s);
  }

  /** 40° between two personal bodies is not a conjunction (7° orb) nor
      anything else. */
  lemma NoFalseConjunction()
    ensures Aspect(Body("mars", "personal", 10.0), Body("venus", "personal", 50.0), None).None?
  {
    var first, second := Body("mars", "personal", 10.0), Body("venus", "personal", 50.0);
    assert Separation(10.0, 50.0) == 40.0;
    CandidatesAre(first, second, DefaultOrbs["personal"], []);
  }

  /** A body 45° from an axis forms no aspect at all: only 0° is tested. */
  lemma NoSquareWithAxis()
    ensures Aspect(Body("sun", "luminary", 100.0), Body("asc", "axis", 55.0), None).None?
  {
    var first, second := Body("sun", "luminary", 100.0), Body("asc", "axis", 55.0);
    assert Separation(100.0, 55.0) == 45.0;
    assert Candidates(first, second, DefaultOrbs["luminary"]) == [];
    assert Candidates(first, second, DefaultOrbs["axis"]) == [];
  }

  /** At 29° the wide table admits 30° and 60° on either side. */
  lemma WideCandidates()
    ensures Candidates(Body("a", "wide", 0.0), Body("b", "wide", 29.0), map[30 := 1.0, 60 := 31.0]) == [30, 60]
  {
    assert Separation(0.0, 29.0) == 29.0;
    CandidatesAre(Body("a", "wide", 0.0), Body("b", "wide", 29.0), map[30 := 1.0, 60 := 31.0], [30, 60]);
  }

  /** The union of a list with itself is that list. */
  lemma WideUnion()
    ensures Union([30, 60], [30, 60]) == [30, 60]
  {
    var s := [30, 60] + [30, 60];
    assert s == [30, 60, 30, 60];
    assert s[..3] == [30, 60, 30] && s[..3][..2] == [30, 60];
    assert Dedup([30, 60]) == [30, 60];
    assert Dedup(s[..3]) == [30, 60];
  }

  /** 29° is 1° from 30° and 31° from 60°. */
  lemma WideClosest()
    ensures Closest([30, 60], 29.0) == 30
  {
    assert Gap(30, 29.0) == 1.0 && Gap(60, 29.0) == 31.0;
    assert Nearest([60], 29.0, 30) == 30;
  }

  /** Between 30° and 60°, 29° is closer to 30°. */
  lemma WideChoice()
    ensures Resolve(Body("a", "wide", 0.0), Body("b", "wide", 29.0), 29.0, [30, 60], [30, 60])
      == Some(AspectResult("semisextile", Bidirectional, Side("a", true), Side("b", true)))
  {
    WideUnion();
    WideClosest();
  }

  /** 29° apart with both the semisextile and a wide sextile admitted: the
      semisextile wins, being the closer nominal angle. */
  lemma ClosestAngleWins()
    ensures
      var orbs := map["wide" := map[30 := 1.0, 60 := 31.0]];
      Aspect(Body("a", "wide", 0.0), Body("b", "wide", 29.0), Some(orbs))
        == Some(AspectResult("semisextile", Bidirectional, Side("a", true), Side("b", true)))
  {
    assert Separation(0.0, 29.0) == 29.0;
    WideCandidates();
    WideChoice();
  }

  /** At 27° the luminary's orbs admit the semisextile (3°) only. */
  lemma MoonCandidates()
    ensures Candidates(Body("moon", "luminary", 0.0), Body("venus", "personal", 27.0), DefaultOrbs["luminary"]) == [30]
  {
    assert Separation(0.0, 27.0) == 27.0;
    CandidatesAre(Body("moon", "luminary", 0.0), Body("venus", "personal", 27.0), DefaultOrbs["luminary"], [30]);
  }

  /** At 27° the personal orbs admit nothing (the semisextile orb is 2°). */
  lemma VenusCandidates()
    ensures Candidates(Body("moon", "luminary", 0.0), Body("venus", "personal", 27.0), DefaultOrbs["personal"]) == []
  {
    assert Separation(0.0, 27.0) == 27.0;
    CandidatesAre(Body("moon", "luminary", 0.0), Body("venus", "personal", 27.0), DefaultOrbs["personal"], []);
  }

  lemma OneSidedChoice()
    ensures Resolve(Body("moon", "luminary", 0.0), Body("venus", "personal", 27.0), 27.0, [30], [])
      == Some(AspectResult("semisextile", Unidirectional, Side("moon", true), Side("venus", false)))
  {
    assert [30] + [] == [30] && Dedup([30]) == [30];
    assert Union([30], []) == [30];
    assert Closest([30], 27.0) == 30;
  }

  /** One side's orbs admit the angle and the other's do not: the aspect is
      unidirectional, seen by the luminary only. */
  lemma OneSidedAspect()
    ensures
      Aspect(Body("moon", "luminary", 0.0), Body("venus", "personal", 27.0), None)
        == Some(AspectResult("semisextile", Unidirectional, Side("moon", true), Side("venus", false)))
  {
    assert Separation(0.0, 27.0) == 27.0;
    MoonCandidates();
    VenusCandidates();
    OneSidedChoice();
  }
}
