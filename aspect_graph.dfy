/** The chart-wide aspect builder `aspects` of src/astrologer/aspects.js:
    every unordered pair of planets is resolved once and stored under the
    earlier key, every planet is then tested against every axis, and empty
    lists are pruned. */
module AspectGraph {
  import opened Common
  import opened Aspects

  /** One element of a planet's list: the resolved aspect and the key of the
      other body. */
  datatype AspectEntry = AspectEntry(aspect: AspectResult, with: string)

  /** The key the source records in `processedPairs`: `${a}-${b}`. */
  function PairName(a: string, b: string): string { a + "-" + b }

  /** A pair key that cannot collide: the ordered pair itself. */
  function PairTuple(a: string, b: string): (string, string) { (a, b) }

  predicate Distinct(keys: seq<string>) {
    forall i, j | 0 <= i < j < |keys| :: keys[i] != keys[j]
  }

  /** Different ordered pairs of keys get different pair keys. */
  ghost predicate InjectiveOn<T>(pairKey: (string, string) -> T, keys: seq<string>) {
    forall a, b, c, d {:trigger Separates(pairKey, a, b, c, d)} | a in keys && b in keys && c in keys && d in keys ::
      Separates(pairKey, a, b, c, d)
  }

  /** The pair keys of (a, b) and (c, d) differ unless the pairs are the
      same. */
  ghost predicate Separates<T>(pairKey: (string, string) -> T, a: string, b: string, c: string, d: string) {
    pairKey(a, b) == pairKey(c, d) ==> a == c && b == d
  }

  /** The index pairs (i, j) the two nested `forEach` loops evaluate, from
      position (i, j) on, given the keys already in `processedPairs`: a pair
      is evaluated when its keys differ and neither of its two pair keys has
      been recorded, and evaluating it records the forward pair key. */
  function Walk<T(==)>(keys: seq<string>, pairKey: (string, string) -> T, seen: set<T>, i: nat, j: nat): seq<(nat, nat)>
    requires i <= |keys| && j <= |keys|
    decreases |keys| - i, |keys| - j
  {
    if i == |keys| then []
    else if j == |keys| then Walk(keys, pairKey, seen, i + 1, 0)
    else if keys[i] != keys[j] && pairKey(keys[i], keys[j]) !in seen && pairKey(keys[j], keys[i]) !in seen then
      [(i, j)] + Walk(keys, pairKey, seen + {pairKey(keys[i], keys[j])}, i, j + 1)
    else
      Walk(keys, pairKey, seen, i, j + 1)
  }

  /** The walk only visits positions of the key list, and never a key with
      itself. */
  lemma {:induction false} WalkInRange<T>(keys: seq<string>, pairKey: (string, string) -> T, seen: set<T>, i: nat, j: nat)
    requires i <= |keys| && j <= |keys|
    ensures forall p | p in Walk(keys, pairKey, seen, i, j) :: i <= p.0 < |keys| && p.1 < |keys| && keys[p.0] != keys[p.1]
    decreases |keys| - i, |keys| - j
  {
    if i == |keys| {
    } else if j == |keys| {
      WalkInRange(keys, pairKey, seen, i + 1, 0);
    } else if keys[i] != keys[j] && pairKey(keys[i], keys[j]) !in seen && pairKey(keys[j], keys[i]) !in seen {
      WalkInRange(keys, pairKey, seen + {pairKey(keys[i], keys[j])}, i, j + 1);
    } else {
      WalkInRange(keys, pairKey, seen, i, j + 1);
    }
  }

  /** The pairs `aspects` evaluates, in order. */
  function Visited<T(==)>(keys: seq<string>, pairKey: (string, string) -> T): (r: seq<(nat, nat)>)
    ensures forall p | p in r :: p.0 < |keys| && p.1 < |keys| && keys[p.0] != keys[p.1]
  {
    WalkInRange(keys, pairKey, {}, 0, 0);
    Walk(keys, pairKey, {}, 0, 0)
  }

  /** Every pair the walk from (i, j) evaluates comes at or after (i, j),
      and neither of its pair keys was recorded when the walk started. */
  lemma {:induction false} WalkFresh<T>(keys: seq<string>, pairKey: (string, string) -> T, seen: set<T>, i: nat, j: nat)
    requires i <= |keys| && j <= |keys|
    ensures forall p | p in Walk(keys, pairKey, seen, i, j) ::
      && (p == (i, j) || Before((i, j), p))
      && p.0 < |keys| && p.1 < |keys|
      && pairKey(keys[p.0], keys[p.1]) !in seen && pairKey(keys[p.1], keys[p.0]) !in seen
    decreases |keys| - i, |keys| - j
  {
    if i == |keys| {
    } else if j == |keys| {
      WalkFresh(keys, pairKey, seen, i + 1, 0);
    } else if keys[i] != keys[j] && pairKey(keys[i], keys[j]) !in seen && pairKey(keys[j], keys[i]) !in seen {
      WalkFresh(keys, pairKey, seen + {pairKey(keys[i], keys[j])}, i, j + 1);
    } else {
      WalkFresh(keys, pairKey, seen, i, j + 1);
    }
  }

  /** Whatever the keys and however pairs are named, the walk evaluates
      its pairs in strictly increasing loop order, so never one twice, and
      never a pair after its reverse. */
  lemma {:induction false} WalkOnce<T>(keys: seq<string>, pairKey: (string, string) -> T, seen: set<T>, i: nat, j: nat)
    requires i <= |keys| && j <= |keys|
    ensures OnceEach(Walk(keys, pairKey, seen, i, j))
    decreases |keys| - i, |keys| - j
  {
    if i == |keys| {
    } else if j == |keys| {
      WalkOnce(keys, pairKey, seen, i + 1, 0);
    } else if keys[i] != keys[j] && pairKey(keys[i], keys[j]) !in seen && pairKey(keys[j], keys[i]) !in seen {
      var seen' := seen + {pairKey(keys[i], keys[j])};
      var rest := Walk(keys, pairKey, seen', i, j + 1);
      WalkOnce(keys, pairKey, seen', i, j + 1);
      WalkFresh(keys, pairKey, seen', i, j + 1);
      var w := [(i, j)] + rest;
      assert w == Walk(keys, pairKey, seen, i, j);
      forall a, b | 0 <= a < b < |w| ensures Before(w[a], w[b]) && w[b] != Reversed(w[a]) {
        if a > 0 {
          assert w[a] == rest[a - 1] && w[b] == rest[b - 1];
        } else {
          var q := w[b];
          assert q in rest;
          assert q == (i, j + 1) || Before((i, j + 1), q);
          assert pairKey(keys[q.1], keys[q.0]) !in seen';
        }
      }
    } else {
      WalkOnce(keys, pairKey, seen, i, j + 1);
    }
  }

  /** The pair with its two positions swapped. */
  function Reversed(p: (nat, nat)): (nat, nat) { (p.1, p.0) }

  /** Pairs in strictly increasing loop order, none after its reverse. */
  predicate OnceEach(w: seq<(nat, nat)>) {
    forall a, b | 0 <= a < b < |w| :: Before(w[a], w[b]) && w[b] != Reversed(w[a])
  }

  /** The loops of `aspects` as written, for any keys and any pair naming,
      evaluate no pair twice and never both a pair and its reverse: a name
      collision can only make them skip pairs. */
  lemma VisitedOnce<T>(keys: seq<string>, pairKey: (string, string) -> T)
    ensures var v := Visited(keys, pairKey);
      forall a, b | 0 <= a < b < |v| :: v[a] != v[b] && v[b] != Reversed(v[a])
  {
    WalkOnce(keys, pairKey, {}, 0, 0);
  }

  /** The loops skip the pair at positions a < b when its keys are equal
      or one of its two pair keys has been recorded. */
  ghost predicate Blocked<T>(keys: seq<string>, pairKey: (string, string) -> T, seen: set<T>, a: nat, b: nat) {
    a < |keys| && b < |keys| &&
    (keys[a] == keys[b] || pairKey(keys[a], keys[b]) in seen || pairKey(keys[b], keys[a]) in seen)
  }

  /** Every pair a < b the loops have passed before (i, j) is blocked. */
  ghost predicate PassedBlocked<T>(keys: seq<string>, pairKey: (string, string) -> T, seen: set<T>, i: nat, j: nat) {
    forall a: nat, b: nat {:trigger Blocked(keys, pairKey, seen, a, b)} | a < b < |keys| && (a < i || (a == i && b < j)) ::
      Blocked(keys, pairKey, seen, a, b)
  }

  /** Recording one more pair key keeps every blocked pair blocked. */
  lemma BlockedGrows<T>(keys: seq<string>, pairKey: (string, string) -> T, seen: set<T>, x: T, i: nat, j: nat)
    requires PassedBlocked(keys, pairKey, seen, i, j)
    ensures PassedBlocked(keys, pairKey, seen + {x}, i, j)
  {
    forall a: nat, b: nat | a < b < |keys| && (a < i || (a == i && b < j))
      ensures Blocked(keys, pairKey, seen + {x}, a, b)
    {
      assert Blocked(keys, pairKey, seen, a, b);
    }
  }

  /** Once every earlier pair a < b is blocked, the walk from (i, j)
      evaluates only pairs with the smaller position first: the reverse
      order (j, i) checks the same two pair keys as (i, j), against a set
      that has only grown since. */
  lemma {:induction false} WalkForward<T>(keys: seq<string>, pairKey: (string, string) -> T, seen: set<T>, i: nat, j: nat)
    requires i <= |keys| && j <= |keys|
    requires PassedBlocked(keys, pairKey, seen, i, j)
    ensures forall p | p in Walk(keys, pairKey, seen, i, j) :: p.0 < p.1
    decreases |keys| - i, |keys| - j
  {
    if i == |keys| {
    } else if j == |keys| {
      WalkForward(keys, pairKey, seen, i + 1, 0);
    } else if keys[i] != keys[j] && pairKey(keys[i], keys[j]) !in seen && pairKey(keys[j], keys[i]) !in seen {
      assert j < i ==> Blocked(keys, pairKey, seen, j, i);
      var seen' := seen + {pairKey(keys[i], keys[j])};
      BlockedGrows(keys, pairKey, seen, pairKey(keys[i], keys[j]), i, j);
      assert Blocked(keys, pairKey, seen', i, j);
      WalkForward(keys, pairKey, seen', i, j + 1);
    } else {
      if i < j {
        assert Blocked(keys, pairKey, seen, i, j);
      }
      WalkForward(keys, pairKey, seen, i, j + 1);
    }
  }

  /** For any keys and any pair naming, every pair the loops evaluate has
      the smaller position first. */
  lemma VisitedForward<T>(keys: seq<string>, pairKey: (string, string) -> T)
    ensures forall p | p in Visited(keys, pairKey) :: p.0 < p.1
  {
    WalkForward(keys, pairKey, {}, 0, 0);
  }

  /** (i, j), (i, j + 1), ..., (i, n - 1). */
  function Row(n: nat, i: nat, j: nat): seq<(nat, nat)>
    decreases n - j
  {
    if j >= n then [] else [(i, j)] + Row(n, i, j + 1)
  }

  /** Every pair i' < j' of indices with i' >= i, row by row. */
  function Rows(n: nat, i: nat): seq<(nat, nat)>
    decreases n - i
  {
    if i >= n then [] else Row(n, i, i + 1) + Rows(n, i + 1)
  }

  /** Every unordered pair of the `n` indices, the smaller index first. */
  function AllPairs(n: nat): (r: seq<(nat, nat)>)
    ensures forall p | p in r :: p.0 < p.1 < n
  {
    RowsShape(n, 0);
    Rows(n, 0)
  }

  /** Lexicographic order on index pairs. */
  predicate Before(p: (nat, nat), q: (nat, nat)) {
    p.0 < q.0 || (p.0 == q.0 && p.1 < q.1)
  }

  lemma {:induction false} RowShape(n: nat, i: nat, j: nat)
    ensures forall p :: p in Row(n, i, j) <==> p.0 == i && j <= p.1 < n
    ensures forall a, b | 0 <= a < b < |Row(n, i, j)| :: Row(n, i, j)[a].1 < Row(n, i, j)[b].1
    decreases n - j
  {
    if j < n {
      RowShape(n, i, j + 1);
      var r := Row(n, i, j + 1);
      assert forall a | 0 < a < |[(i, j)] + r| :: ([(i, j)] + r)[a] in r;
    }
  }

  lemma {:induction false} RowsShape(n: nat, i: nat)
    ensures forall p :: p in Rows(n, i) <==> i <= p.0 < p.1 < n
    ensures forall a, b | 0 <= a < b < |Rows(n, i)| :: Before(Rows(n, i)[a], Rows(n, i)[b])
    decreases n - i
  {
    if i < n {
      RowShape(n, i, i + 1);
      RowsShape(n, i + 1);
      var row, rest := Row(n, i, i + 1), Rows(n, i + 1);
      forall a, b | 0 <= a < b < |row + rest| ensures Before((row + rest)[a], (row + rest)[b]) {
        if b < |row| {
          assert row[a].1 < row[b].1;
        } else if a >= |row| {
          assert Before(rest[a - |row|], rest[b - |row|]);
        } else {
          assert row[a] in row && rest[b - |row|] in rest;
        }
      }
    }
  }

  /** AllPairs lists each pair i < j < n, and nothing else, exactly once. */
  lemma AllPairsShape(n: nat)
    ensures forall p :: p in AllPairs(n) <==> p.0 < p.1 < n
    ensures forall a, b | 0 <= a < b < |AllPairs(n)| :: AllPairs(n)[a] != AllPairs(n)[b]
  {
    RowsShape(n, 0);
    var r := AllPairs(n);
    assert forall a, b | 0 <= a < b < |r| :: Before(r[a], r[b]);
  }

  /** The pair keys recorded before the loops reach position (i, j), when
      every pair i' < j' before it has been evaluated. */
  ghost function Seen<T>(keys: seq<string>, pairKey: (string, string) -> T, i: nat, j: nat): set<T> {
    set a: nat, b: nat | a < b < |keys| && (a < i || (a == i && b < j)) :: pairKey(keys[a], keys[b])
  }

  lemma SeenNextRow<T>(keys: seq<string>, pairKey: (string, string) -> T, i: nat)
    ensures Seen(keys, pairKey, i, |keys|) == Seen(keys, pairKey, i + 1, 0)
  {
  }

  lemma SeenSkip<T>(keys: seq<string>, pairKey: (string, string) -> T, i: nat, j: nat)
    requires j <= i
    ensures Seen(keys, pairKey, i, j + 1) == Seen(keys, pairKey, i, j)
  {
  }

  lemma SeenAdd<T>(keys: seq<string>, pairKey: (string, string) -> T, i: nat, j: nat)
    requires i < j < |keys|
    ensures Seen(keys, pairKey, i, j + 1) == Seen(keys, pairKey, i, j) + {pairKey(keys[i], keys[j])}
  {
  }

  /** Once row i reaches column j < i, the pair (j, i) has been recorded. */
  lemma SeenEarlierRow<T>(keys: seq<string>, pairKey: (string, string) -> T, i: nat, j: nat)
    requires j < i < |keys|
    ensures pairKey(keys[j], keys[i]) in Seen(keys, pairKey, i, j)
  {
    var a: nat, b: nat := j, i;
    assert a < b < |keys| && a < i;
  }

  /** Before (i, j) with i < j is reached, neither pair key of (i, j) has
      been recorded. */
  lemma FreshPair<T>(keys: seq<string>, pairKey: (string, string) -> T, i: nat, j: nat)
    requires Distinct(keys) && InjectiveOn(pairKey, keys)
    requires i < j < |keys|
    ensures pairKey(keys[i], keys[j]) !in Seen(keys, pairKey, i, j)
    ensures pairKey(keys[j], keys[i]) !in Seen(keys, pairKey, i, j)
  {
    var ki, kj := keys[i], keys[j];
    forall a: nat, b: nat | a < b < |keys| && (a < i || (a == i && b < j))
      ensures pairKey(keys[a], keys[b]) != pairKey(ki, kj)
      ensures pairKey(keys[a], keys[b]) != pairKey(kj, ki)
    {
      var ka, kb := keys[a], keys[b];
      assert ka in keys && kb in keys && ki in keys && kj in keys;
      assert Separates(pairKey, ka, kb, ki, kj) && Separates(pairKey, ka, kb, kj, ki);
    }
  }

  lemma WalkSkip<T>(keys: seq<string>, pairKey: (string, string) -> T, seen: set<T>, i: nat, j: nat)
    requires i < |keys| && j < |keys|
    requires keys[i] == keys[j] || pairKey(keys[i], keys[j]) in seen || pairKey(keys[j], keys[i]) in seen
    ensures Walk(keys, pairKey, seen, i, j) == Walk(keys, pairKey, seen, i, j + 1)
  {
  }

  lemma WalkVisit<T>(keys: seq<string>, pairKey: (string, string) -> T, seen: set<T>, i: nat, j: nat)
    requires i < |keys| && j < |keys| && keys[i] != keys[j]
    requires pairKey(keys[i], keys[j]) !in seen && pairKey(keys[j], keys[i]) !in seen
    ensures Walk(keys, pairKey, seen, i, j) == [(i, j)] + Walk(keys, pairKey, seen + {pairKey(keys[i], keys[j])}, i, j + 1)
  {
  }

  /** The walk from (i, j) once (i, j) is settled: the pairs still to
      come, the smaller index first. */
  function Remaining(n: nat, i: nat, j: nat): seq<(nat, nat)> {
    if i < n then Row(n, i, if j <= i then i + 1 else j) + Rows(n, i + 1) else []
  }

  /** The end of row i leads to the start of row i + 1. */
  lemma WalkStepRow<T>(keys: seq<string>, pairKey: (string, string) -> T, i: nat)
    requires i < |keys|
    requires Walk(keys, pairKey, Seen(keys, pairKey, i + 1, 0), i + 1, 0) == Remaining(|keys|, i + 1, 0)
    ensures Walk(keys, pairKey, Seen(keys, pairKey, i, |keys|), i, |keys|) == Remaining(|keys|, i, |keys|)
  {
    SeenNextRow(keys, pairKey, i);
    assert Row(|keys|, i, |keys|) == [];
  }

  /** With distinct keys and collision-free pair keys, the walk from (i, j)
      evaluates exactly the pairs with the smaller index first. */
  lemma {:induction false} WalkFrom<T>(keys: seq<string>, pairKey: (string, string) -> T, i: nat, j: nat)
    requires Distinct(keys) && InjectiveOn(pairKey, keys)
    requires i <= |keys| && j <= |keys|
    ensures Walk(keys, pairKey, Seen(keys, pairKey, i, j), i, j) == Remaining(|keys|, i, j)
    decreases |keys| - i, |keys| - j, 1
  {
    if i == |keys| {
    } else if j == |keys| {
      WalkFromRowEnd(keys, pairKey, i);
    } else if j <= i {
      WalkFromSkip(keys, pairKey, i, j);
    } else {
      WalkFromVisit(keys, pairKey, i, j);
    }
  }

  lemma {:induction false} WalkFromRowEnd<T>(keys: seq<string>, pairKey: (string, string) -> T, i: nat)
    requires Distinct(keys) && InjectiveOn(pairKey, keys)
    requires i < |keys|
    ensures Walk(keys, pairKey, Seen(keys, pairKey, i, |keys|), i, |keys|) == Remaining(|keys|, i, |keys|)
    decreases |keys| - i, 0, 0
  {
    WalkFrom(keys, pairKey, i + 1, 0);
    WalkStepRow(keys, pairKey, i);
  }

  lemma {:induction false} WalkFromSkip<T>(keys: seq<string>, pairKey: (string, string) -> T, i: nat, j: nat)
    requires Distinct(keys) && InjectiveOn(pairKey, keys)
    requires j <= i < |keys|
    ensures Walk(keys, pairKey, Seen(keys, pairKey, i, j), i, j) == Remaining(|keys|, i, j)
    decreases |keys| - i, |keys| - j, 0
  {
    WalkFrom(keys, pairKey, i, j + 1);
    var seen := Seen(keys, pairKey, i, j);
    SeenSkip(keys, pairKey, i, j);
    if j < i {
      SeenEarlierRow(keys, pairKey, i, j);
    }
    WalkSkip(keys, pairKey, seen, i, j);
    assert Remaining(|keys|, i, j + 1) == Remaining(|keys|, i, j);
  }

  lemma {:induction false} WalkFromVisit<T>(keys: seq<string>, pairKey: (string, string) -> T, i: nat, j: nat)
    requires Distinct(keys) && InjectiveOn(pairKey, keys)
    requires i < j < |keys|
    ensures Walk(keys, pairKey, Seen(keys, pairKey, i, j), i, j) == Remaining(|keys|, i, j)
    decreases |keys| - i, |keys| - j, 0
  {
    FreshPair(keys, pairKey, i, j);
    WalkFrom(keys, pairKey, i, j + 1);
    WalkStepVisit(keys, pairKey, i, j);
  }

  /** One evaluated step of the walk along row i. */
  lemma WalkStepVisit<T>(keys: seq<string>, pairKey: (string, string) -> T, i: nat, j: nat)
    requires i < j < |keys| && keys[i] != keys[j]
    requires pairKey(keys[i], keys[j]) !in Seen(keys, pairKey, i, j)
    requires pairKey(keys[j], keys[i]) !in Seen(keys, pairKey, i, j)
    requires Walk(keys, pairKey, Seen(keys, pairKey, i, j + 1), i, j + 1) == Remaining(|keys|, i, j + 1)
    ensures Walk(keys, pairKey, Seen(keys, pairKey, i, j), i, j) == Remaining(|keys|, i, j)
  {
    var seen := Seen(keys, pairKey, i, j);
    SeenAdd(keys, pairKey, i, j);
    WalkVisit(keys, pairKey, seen, i, j);
    var w := Walk(keys, pairKey, Seen(keys, pairKey, i, j + 1), i, j + 1);
    assert Walk(keys, pairKey, seen, i, j) == [(i, j)] + w;
    var a, b := Row(|keys|, i, j + 1), Rows(|keys|, i + 1);
    assert w == a + b;
    assert Row(|keys|, i, j) == [(i, j)] + a;
    assert [(i, j)] + (a + b) == ([(i, j)] + a) + b;
    assert Walk(keys, pairKey, seen, i, j) == Row(|keys|, i, j) + b;
    assert Remaining(|keys|, i, j) == Row(|keys|, i, j) + b;
  }

  /** Collision-free pair keys make the walk visit every unordered pair of
      distinct keys exactly once, under its earlier key. */
  lemma WalkIsAllPairs<T>(keys: seq<string>, pairKey: (string, string) -> T)
    requires Distinct(keys) && InjectiveOn(pairKey, keys)
    ensures Walk(keys, pairKey, {}, 0, 0) == AllPairs(|keys|)
  {
    assert Seen(keys, pairKey, 0, 0) == {};
    WalkFrom(keys, pairKey, 0, 0);
  }

  /** No key contains the separator of the pair-name key. */
  predicate HyphenFree(keys: seq<string>) {
    forall k | k in keys :: '-' !in k
  }

  /** Without '-' in the keys, `${a}-${b}` determines a and b: the first
      '-' of the name ends a. */
  lemma PairNameInjective(keys: seq<string>)
    requires HyphenFree(keys)
    ensures InjectiveOn(PairName, keys)
  {
    forall a, b, c, d | a in keys && b in keys && c in keys && d in keys
      ensures Separates(PairName, a, b, c, d)
    {
      if PairName(a, b) == PairName(c, d) {
        var x := PairName(a, b);
        assert x == c + "-" + d;
        assert forall t | 0 <= t < |a| :: x[t] == a[t] && a[t] in a;
        assert forall t | 0 <= t < |c| :: x[t] == c[t] && c[t] in c;
        assert x[|a|] == '-' && x[|c|] == '-';
        assert |a| == |c|;
        assert a == x[..|a|] && c == x[..|c|];
        assert b == x[|a| + 1..] && d == x[|c| + 1..];
      }
    }
  }

  /** Tuple pair keys never collide. */
  lemma PairTupleInjective(keys: seq<string>)
    ensures InjectiveOn(PairTuple, keys)
  {
  }

  /** With the keys "a", "b-a" and "a-b", evaluating ("a", "b-a") records
      "a-b-a", which is also the reverse name of ("a", "a-b"): the loops
      evaluate two pairs where there are three, and never the planets "a"
      and "a-b". */
  lemma PairNameCollision()
    ensures Visited(["a", "b-a", "a-b"], PairName) == [(0, 1), (1, 2)]
    ensures AllPairs(3) == [(0, 1), (0, 2), (1, 2)]
  {
    var keys := ["a", "b-a", "a-b"];
    assert PairName("a", "b-a") == "a-b-a";
    CollisionRest();
    assert Walk(keys, PairName, {}, 0, 0) == [(0, 1)] + Walk(keys, PairName, {"a-b-a"}, 0, 2);
    AllPairsOfThree();
  }

  /** After ("a", "b-a"), the pair ("a", "a-b") is skipped as already seen
      and only ("b-a", "a-b") is left. */
  lemma CollisionRest()
    ensures Walk(["a", "b-a", "a-b"], PairName, {"a-b-a"}, 0, 2) == [(1, 2)]
  {
    var keys := ["a", "b-a", "a-b"];
    var s := {"a-b-a"};
    assert PairName("a-b", "a") == "a-b-a";
    assert Walk(keys, PairName, s, 0, 2) == Walk(keys, PairName, s, 1, 0);
    assert PairName("b-a", "a") == "b-a-a" && PairName("a", "b-a") == "a-b-a";
    assert Walk(keys, PairName, s, 1, 0) == Walk(keys, PairName, s, 1, 2);
    CollisionLast();
  }

  /** ("b-a", "a-b") is evaluated; nothing follows it. */
  lemma CollisionLast()
    ensures Walk(["a", "b-a", "a-b"], PairName, {"a-b-a"}, 1, 2) == [(1, 2)]
  {
    var keys := ["a", "b-a", "a-b"];
    var s := {"a-b-a"};
    assert keys[1] == "b-a" && keys[2] == "a-b";
    assert PairName("b-a", "a-b") == "b-a-a-b" && PairName("a-b", "b-a") == "a-b-b-a";
    assert |"b-a-a-b"| != |"a-b-a"| && |"a-b-b-a"| != |"a-b-a"|;
    assert "b-a-a-b" !in s && "a-b-b-a" !in s;
    var s2 := s + {"b-a-a-b"};
    assert Walk(keys, PairName, s, 1, 2) == [(1, 2)] + Walk(keys, PairName, s2, 1, 3);
    assert keys[0] == "a" && PairName("a-b", "a") == "a-b-a";
    assert Walk(keys, PairName, s2, 2, 0) == Walk(keys, PairName, s2, 2, 1);
    assert Walk(keys, PairName, s2, 2, 1) == Walk(keys, PairName, s2, 2, 2);
    assert Walk(keys, PairName, s2, 2, 2) == Walk(keys, PairName, s2, 2, 3);
    assert Walk(keys, PairName, s2, 1, 3) == [];
  }

  lemma AllPairsOfThree()
    ensures AllPairs(3) == [(0, 1), (0, 2), (1, 2)]
  {
    assert Row(3, 0, 3) == [];
    assert Row(3, 0, 2) == [(0, 2)];
    assert Row(3, 0, 1) == [(0, 1), (0, 2)];
    assert Row(3, 1, 3) == [];
    assert Row(3, 1, 2) == [(1, 2)];
    assert Rows(3, 2) == [] by {
      assert Row(3, 2, 3) == [];
      assert Rows(3, 3) == [];
    }
    assert Rows(3, 1) == [(1, 2)];
    assert Rows(3, 0) == [(0, 1), (0, 2)] + [(1, 2)];
  }

  /** Every recorded index pair is a pair of positions of the key list. */
  predicate InRange(visited: seq<(nat, nat)>, n: nat) {
    forall p | p in visited :: p.0 < n && p.1 < n
  }

  /** The entries the pair loops push under key k while evaluating the
      pairs `visited`, in order: a found aspect goes under the first key,
      tagged with the second. */
  function PairEntries(planets: Dict<Body>, resolve: (Body, Body) -> Option<AspectResult>, visited: seq<(nat, nat)>, k: string): seq<AspectEntry>
    requires planets.Valid() && InRange(visited, |planets.keys|)
  {
    if visited == [] then []
    else
      var p := visited[|visited| - 1];
      var rest := PairEntries(planets, resolve, visited[..|visited| - 1], k);
      var first, second := planets.keys[p.0], planets.keys[p.1];
      var found := resolve(planets.entries[first], planets.entries[second]);
      if first == k && found.Some? then rest + [AspectEntry(found.value, second)] else rest
  }

  /** axesWithType[key]: an axis as a body of category 'axis'. */
  function AxisBody(axes: Dict<Longitude>, m: nat): Body
    requires axes.Valid() && m < |axes.keys|
  {
    Body(axes.keys[m], "axis", axes.entries[axes.keys[m]])
  }

  /** The entries the axis loop pushes for one planet against the first m
      axes, in order, each tagged with the axis key. */
  function AxisHits(planet: Body, axes: Dict<Longitude>, resolve: (Body, Body) -> Option<AspectResult>, m: nat): seq<AspectEntry>
    requires axes.Valid() && m <= |axes.keys|
  {
    if m == 0 then []
    else
      var rest := AxisHits(planet, axes, resolve, m - 1);
      var found := resolve(planet, AxisBody(axes, m - 1));
      if found.Some? then rest + [AspectEntry(found.value, axes.keys[m - 1])] else rest
  }

  predicate AxesValid(axes: Option<Dict<Longitude>>) {
    axes.Some? ==> axes.value.Valid()
  }

  /** A planet's axis entries: none without axes. */
  function AxisEntries(planet: Body, axes: Option<Dict<Longitude>>, resolve: (Body, Body) -> Option<AspectResult>): seq<AspectEntry>
    requires AxesValid(axes)
  {
    if axes.None? then [] else AxisHits(planet, axes.value, resolve, |axes.value.keys|)
  }

  /** Every planet's list before pruning: its pair entries, then its axis
      entries. */
  function Lists(planets: Dict<Body>, axes: Option<Dict<Longitude>>, resolve: (Body, Body) -> Option<AspectResult>, visited: seq<(nat, nat)>): map<string, seq<AspectEntry>>
    requires planets.Valid() && AxesValid(axes) && InRange(visited, |planets.keys|)
  {
    map k | k in planets.keys :: PairEntries(planets, resolve, visited, k) + AxisEntries(planets.entries[k], axes, resolve)
  }

  /** The `delete` loop: the keys whose list is non-empty, in their order,
      with their lists. */
  function Prune(keys: seq<string>, lists: map<string, seq<AspectEntry>>): (r: Dict<seq<AspectEntry>>)
    requires forall k | k in keys :: k in lists
    ensures forall k :: k in r.keys <==> k in keys && lists[k] != []
    ensures forall k :: k in r.entries <==> k in r.keys
    ensures forall k | k in r.entries :: r.entries[k] == lists[k]
    ensures Distinct(keys) ==> r.Valid()
  {
    if keys == [] then Dict([], map[])
    else
      var init, last := keys[..|keys| - 1], keys[|keys| - 1];
      assert forall k :: k in keys <==> k in init || k == last;
      var p := Prune(init, lists);
      if lists[last] != [] then
        assert Distinct(keys) ==> last !in init;
        Dict(p.keys + [last], p.entries[last := lists[last]])
      else p
  }

  /** Pruning keeps the order of the keys it keeps: two kept keys at
      positions i < j of the planet keys appear in that order. */
  lemma PruneOrder(keys: seq<string>, lists: map<string, seq<AspectEntry>>, i: nat, j: nat)
    requires forall k | k in keys :: k in lists
    requires i < j < |keys| && lists[keys[i]] != [] && lists[keys[j]] != []
    ensures InOrder(Prune(keys, lists).keys, keys[i], keys[j])
  {
    KeptIsPrune(keys, lists, |keys|);
    assert keys[..|keys|] == keys;
    KeptOrder(keys, lists, |keys|, i, j);
  }

  /** Among the first n keys, two kept keys at positions i < j appear in
      that order. */
  lemma {:induction false} KeptOrder(keys: seq<string>, lists: map<string, seq<AspectEntry>>, n: nat, i: nat, j: nat)
    requires n <= |keys| && forall k | k in keys :: k in lists
    requires i < j < n && lists[keys[i]] != [] && lists[keys[j]] != []
    ensures InOrder(Kept(keys, lists, n), keys[i], keys[j])
  {
    var p := Kept(keys, lists, n - 1);
    if j == n - 1 {
      var a := KeptHas(keys, lists, n - 1, i);
      assert Kept(keys, lists, n) == p + [keys[j]];
      assert Kept(keys, lists, n)[a] == keys[i] && Kept(keys, lists, n)[|p|] == keys[j];
    } else {
      KeptOrder(keys, lists, n - 1, i, j);
      var a, b :| 0 <= a < b < |p| && p[a] == keys[i] && p[b] == keys[j];
      var r := Kept(keys, lists, n);
      assert r == p + if lists[keys[n - 1]] != [] then [keys[n - 1]] else [];
      assert r[a] == keys[i] && r[b] == keys[j];
    }
  }

  /** A kept key among the first n has a position in `Kept`. */
  lemma {:induction false} KeptHas(keys: seq<string>, lists: map<string, seq<AspectEntry>>, n: nat, i: nat) returns (a: nat)
    requires n <= |keys| && forall k | k in keys :: k in lists
    requires i < n && lists[keys[i]] != []
    ensures a < |Kept(keys, lists, n)| && Kept(keys, lists, n)[a] == keys[i]
  {
    var p := Kept(keys, lists, n - 1);
    var r := Kept(keys, lists, n);
    assert r == p + if lists[keys[n - 1]] != [] then [keys[n - 1]] else [];
    if i == n - 1 {
      a := |p|;
    } else {
      a := KeptHas(keys, lists, n - 1, i);
      assert r[a] == p[a];
    }
  }

  /** x occurs in r before y. */
  ghost predicate InOrder(r: seq<string>, x: string, y: string) {
    exists a, b | 0 <= a < b < |r| :: r[a] == x && r[b] == y
  }

  /** The keys among the first n whose lists are non-empty, in order. */
  function Kept(keys: seq<string>, lists: map<string, seq<AspectEntry>>, n: nat): seq<string>
    requires n <= |keys| && forall k | k in keys :: k in lists
  {
    if n == 0 then [] else Kept(keys, lists, n - 1) + if lists[keys[n - 1]] != [] then [keys[n - 1]] else []
  }

  /** The keys pruning keeps are those of `Kept`. */
  lemma {:induction false} KeptIsPrune(keys: seq<string>, lists: map<string, seq<AspectEntry>>, n: nat)
    requires n <= |keys| && forall k | k in keys :: k in lists
    ensures Kept(keys, lists, n) == Prune(keys[..n], lists).keys
  {
    if n > 0 {
      KeptIsPrune(keys, lists, n - 1);
      assert keys[..n][..n - 1] == keys[..n - 1];
    }
  }

  /** The object `aspects` returns, for the pairs the loops evaluate. */
  function Graph(planets: Dict<Body>, axes: Option<Dict<Longitude>>, resolve: (Body, Body) -> Option<AspectResult>, visited: seq<(nat, nat)>): Dict<seq<AspectEntry>>
    requires planets.Valid() && AxesValid(axes) && InRange(visited, |planets.keys|)
  {
    Prune(planets.keys, Lists(planets, axes, resolve, visited))
  }

  /** The loop state after evaluating (i, j): the evaluated pairs so far
      followed by the rest of the walk are still the whole walk. */
  lemma WalkAdvanceVisit<T>(keys: seq<string>, pairKey: (string, string) -> T, seen: set<T>, i: nat, j: nat,
                            visited: seq<(nat, nat)>, walk: seq<(nat, nat)>)
    requires i < |keys| && j < |keys| && keys[i] != keys[j]
    requires pairKey(keys[i], keys[j]) !in seen && pairKey(keys[j], keys[i]) !in seen
    requires visited + Walk(keys, pairKey, seen, i, j) == walk
    ensures (visited + [(i, j)]) + Walk(keys, pairKey, seen + {pairKey(keys[i], keys[j])}, i, j + 1) == walk
  {
    WalkVisit(keys, pairKey, seen, i, j);
    var rest := Walk(keys, pairKey, seen + {pairKey(keys[i], keys[j])}, i, j + 1);
    assert (visited + [(i, j)]) + rest == visited + ([(i, j)] + rest);
  }

  /** Pushing one evaluated pair extends only the first key's list. */
  lemma PairEntriesPush(planets: Dict<Body>, resolve: (Body, Body) -> Option<AspectResult>, visited: seq<(nat, nat)>, i: nat, j: nat, k: string)
    requires planets.Valid() && InRange(visited, |planets.keys|)
    requires i < |planets.keys| && j < |planets.keys|
    ensures InRange(visited + [(i, j)], |planets.keys|)
    ensures
      var first, second := planets.keys[i], planets.keys[j];
      var found := resolve(planets.entries[first], planets.entries[second]);
      PairEntries(planets, resolve, visited + [(i, j)], k)
        == PairEntries(planets, resolve, visited, k) + (if first == k && found.Some? then [AspectEntry(found.value, second)] else [])
  {
    assert (visited + [(i, j)])[..|visited|] == visited;
  }

  /** The first loop: an empty list under every planet key. */
  method EmptyLists(keys: seq<string>) returns (result: map<string, seq<AspectEntry>>)
    ensures forall k :: k in result <==> k in keys
    ensures forall k | k in result :: result[k] == []
  {
    result := map[];
    for i := 0 to |keys|
      invariant forall k :: k in result <==> k in keys[..i]
      invariant forall k | k in result :: result[k] == []
    {
      result := result[keys[i] := []];
    }
    assert keys[..|keys|] == keys;
  }

  /** The state of the nested pair loops at position (i, j): the lists hold
      the entries of the pairs evaluated so far, and those pairs followed by
      the rest of the walk from (i, j) make up the whole walk. */
  ghost predicate PairLoop<T>(planets: Dict<Body>, resolve: (Body, Body) -> Option<AspectResult>, pairKey: (string, string) -> T, walk: seq<(nat, nat)>,
                                  i: nat, j: nat, result: map<string, seq<AspectEntry>>, processed: set<T>, visited: seq<(nat, nat)>)
    requires planets.Valid()
  {
    && i <= |planets.keys| && j <= |planets.keys|
    && InRange(visited, |planets.keys|)
    && visited + Walk(planets.keys, pairKey, processed, i, j) == walk
    && (forall k :: k in result <==> k in planets.keys)
    && (forall k | k in planets.keys :: result[k] == PairEntries(planets, resolve, visited, k))
  }

  /** The body of the inner `forEach`: evaluate (i, j) unless its keys are
      equal or either of its pair keys is recorded. */
  method VisitPair<T(==)>(planets: Dict<Body>, resolve: (Body, Body) -> Option<AspectResult>, pairKey: (string, string) -> T, ghost walk: seq<(nat, nat)>, i: nat, j: nat,
                          result0: map<string, seq<AspectEntry>>, processed0: set<T>, ghost visited0: seq<(nat, nat)>)
    returns (result: map<string, seq<AspectEntry>>, processed: set<T>, ghost visited: seq<(nat, nat)>)
    requires planets.Valid() && i < |planets.keys| && j < |planets.keys|
    requires PairLoop(planets, resolve, pairKey, walk, i, j, result0, processed0, visited0)
    ensures PairLoop(planets, resolve, pairKey, walk, i, j + 1, result, processed, visited)
  {
    var keys := planets.keys;
    var firstKey, secondKey := keys[i], keys[j];
    result, processed, visited := result0, processed0, visited0;
    if firstKey != secondKey && pairKey(firstKey, secondKey) !in processed && pairKey(secondKey, firstKey) !in processed {
      WalkAdvanceVisit(keys, pairKey, processed, i, j, visited, walk);
      var found := resolve(planets.entries[firstKey], planets.entries[secondKey]);
      if found.Some? {
        result := result[firstKey := result[firstKey] + [AspectEntry(found.value, secondKey)]];
      }
      assert forall k :: k in result <==> k in keys;
      forall k | k in keys
        ensures result[k] == PairEntries(planets, resolve, visited + [(i, j)], k)
      {
        PairEntriesPush(planets, resolve, visited, i, j, k);
      }
      processed := processed + {pairKey(firstKey, secondKey)};
      visited := visited + [(i, j)];
    } else {
      WalkSkip(keys, pairKey, processed, i, j);
    }
  }

  /** The nested pair loops: each ordered pair of keys whose pair key is not
      yet recorded, in either order, is recorded and resolved, and a found
      aspect is pushed onto the first key's list. */
  method AddPairs<T(==)>(planets: Dict<Body>, resolve: (Body, Body) -> Option<AspectResult>, pairKey: (string, string) -> T, lists: map<string, seq<AspectEntry>>)
    returns (result: map<string, seq<AspectEntry>>)
    requires planets.Valid()
    requires forall k :: k in lists <==> k in planets.keys
    requires forall k | k in lists :: lists[k] == []
    ensures forall k :: k in result <==> k in planets.keys
    ensures forall k | k in planets.keys :: result[k] == PairEntries(planets, resolve, Visited(planets.keys, pairKey), k)
  {
    var n := |planets.keys|;
    result := lists;
    var processed: set<T> := {};
    ghost var visited: seq<(nat, nat)> := [];
    ghost var walk := Visited(planets.keys, pairKey);
    for i := 0 to n
      invariant PairLoop(planets, resolve, pairKey, walk, i, 0, result, processed, visited)
    {
      for j := 0 to n
        invariant PairLoop(planets, resolve, pairKey, walk, i, j, result, processed, visited)
      {
        result, processed, visited := VisitPair(planets, resolve, pairKey, walk, i, j, result, processed, visited);
      }
      assert Walk(planets.keys, pairKey, processed, i, n) == Walk(planets.keys, pairKey, processed, i + 1, 0);
    }
    assert visited == walk;
  }

  /** The state of the planet × axis loops at planet i, axis m: planets
      before i have been tested against every axis, planet i against the
      first m, the others against none. */
  ghost predicate AxisLoop(planets: Dict<Body>, axes: Dict<Longitude>, resolve: (Body, Body) -> Option<AspectResult>, lists: map<string, seq<AspectEntry>>,
                           i: nat, m: nat, result: map<string, seq<AspectEntry>>)
    requires planets.Valid() && axes.Valid()
    requires forall k | k in planets.keys :: k in lists
  {
    && m <= |axes.keys|
    && (forall k :: k in result <==> k in planets.keys)
    && (forall t | 0 <= t < |planets.keys| :: AxisSlot(planets, axes, resolve, lists, i, m, result, t))
  }

  /** Planet t's list in the axis loop state (i, m): its list before the
      axis loops followed by its hits against the axes it has been tested
      against. */
  ghost predicate AxisSlot(planets: Dict<Body>, axes: Dict<Longitude>, resolve: (Body, Body) -> Option<AspectResult>, lists: map<string, seq<AspectEntry>>,
                           i: nat, m: nat, result: map<string, seq<AspectEntry>>, t: nat)
    requires planets.Valid() && axes.Valid() && m <= |axes.keys| && t < |planets.keys|
    requires planets.keys[t] in lists && planets.keys[t] in result
  {
    result[planets.keys[t]] == lists[planets.keys[t]]
      + AxisHits(planets.entries[planets.keys[t]], axes, resolve, Tested(t, i, m, |axes.keys|))
  }

  /** How many axes planet t has been tested against at planet i, axis m. */
  function Tested(t: nat, i: nat, m: nat, total: nat): nat {
    if t < i then total else if t == i then m else 0
  }

  /** The body of the inner axis `forEach`: planet i against axis m. */
  method VisitAxis(planets: Dict<Body>, axes: Dict<Longitude>, resolve: (Body, Body) -> Option<AspectResult>, axesWithType: map<string, Body>,
                   ghost lists: map<string, seq<AspectEntry>>, i: nat, m: nat, result0: map<string, seq<AspectEntry>>)
    returns (result: map<string, seq<AspectEntry>>)
    requires planets.Valid() && axes.Valid()
    requires forall k | k in planets.keys :: k in lists
    requires i < |planets.keys| && m < |axes.keys|
    requires forall t | 0 <= t < |axes.keys| :: axes.keys[t] in axesWithType && axesWithType[axes.keys[t]] == AxisBody(axes, t)
    requires AxisLoop(planets, axes, resolve, lists, i, m, result0)
    ensures AxisLoop(planets, axes, resolve, lists, i, m + 1, result)
  {
    var planetKey, axisKey := planets.keys[i], axes.keys[m];
    var found := resolve(planets.entries[planetKey], axesWithType[axisKey]);
    result := result0;
    if found.Some? {
      result := result[planetKey := result[planetKey] + [AspectEntry(found.value, axisKey)]];
    }
    AxisLoopStep(planets, axes, resolve, lists, i, m, result0, found, result);
  }

  /** Pushing the hit, if any, of planet i against axis m advances the axis
      loop by one axis. */
  lemma AxisLoopStep(planets: Dict<Body>, axes: Dict<Longitude>, resolve: (Body, Body) -> Option<AspectResult>,
                     lists: map<string, seq<AspectEntry>>, i: nat, m: nat, result0: map<string, seq<AspectEntry>>,
                     found: Option<AspectResult>, result: map<string, seq<AspectEntry>>)
    requires planets.Valid() && axes.Valid()
    requires forall k | k in planets.keys :: k in lists
    requires i < |planets.keys| && m < |axes.keys|
    requires AxisLoop(planets, axes, resolve, lists, i, m, result0)
    requires found == resolve(planets.entries[planets.keys[i]], AxisBody(axes, m))
    requires result == if found.Some? then result0[planets.keys[i] := result0[planets.keys[i]] + [AspectEntry(found.value, axes.keys[m])]]
                       else result0
    ensures AxisLoop(planets, axes, resolve, lists, i, m + 1, result)
  {
    var planetKey := planets.keys[i];
    var body := planets.entries[planetKey];
    var before, hit := AxisHits(body, axes, resolve, m), if found.Some? then [AspectEntry(found.value, axes.keys[m])] else [];
    assert AxisHits(body, axes, resolve, m + 1) == before + hit;
    assert AxisSlot(planets, axes, resolve, lists, i, m, result0, i);
    assert result0[planetKey] == lists[planetKey] + before;
    assert result[planetKey] == (lists[planetKey] + before) + hit;
    assert (lists[planetKey] + before) + hit == lists[planetKey] + (before + hit);
    assert forall k :: k in result <==> k in planets.keys;
    var next := m + 1;
    forall t | 0 <= t < |planets.keys|
      ensures AxisSlot(planets, axes, resolve, lists, i, next, result, t)
    {
      if t != i {
        assert AxisSlot(planets, axes, resolve, lists, i, m, result0, t);
        assert planets.keys[t] != planetKey;
        assert Tested(t, i, next, |axes.keys|) == Tested(t, i, m, |axes.keys|);
      }
    }
  }

  /** `if (axes)`: axesWithType, then every planet against every axis, the
      hits pushed onto the planet's list tagged with the axis key. */
  method AddAxes(planets: Dict<Body>, axes: Dict<Longitude>, resolve: (Body, Body) -> Option<AspectResult>, lists: map<string, seq<AspectEntry>>)
    returns (result: map<string, seq<AspectEntry>>)
    requires planets.Valid() && axes.Valid()
    requires forall k :: k in lists <==> k in planets.keys
    ensures forall k :: k in result <==> k in planets.keys
    ensures forall k | k in planets.keys :: result[k] == lists[k] + AxisHits(planets.entries[k], axes, resolve, |axes.keys|)
  {
    var axesWithType := AxesWithType(axes);
    result := lists;
    AxisLoopStart(planets, axes, resolve, lists);
    for i := 0 to |planets.keys|
      invariant AxisLoop(planets, axes, resolve, lists, i, 0, result)
    {
      result := VisitAxes(planets, axes, resolve, axesWithType, lists, i, result);
    }
    AxisLoopEnd(planets, axes, resolve, lists, result);
  }

  /** The inner axis `forEach` for planet i. */
  method VisitAxes(planets: Dict<Body>, axes: Dict<Longitude>, resolve: (Body, Body) -> Option<AspectResult>, axesWithType: map<string, Body>,
                   ghost lists: map<string, seq<AspectEntry>>, i: nat, result0: map<string, seq<AspectEntry>>)
    returns (result: map<string, seq<AspectEntry>>)
    requires planets.Valid() && axes.Valid()
    requires forall k | k in planets.keys :: k in lists
    requires i < |planets.keys|
    requires forall t | 0 <= t < |axes.keys| :: axes.keys[t] in axesWithType && axesWithType[axes.keys[t]] == AxisBody(axes, t)
    requires AxisLoop(planets, axes, resolve, lists, i, 0, result0)
    ensures AxisLoop(planets, axes, resolve, lists, i + 1, 0, result)
  {
    result := result0;
    for m := 0 to |axes.keys|
      invariant AxisLoop(planets, axes, resolve, lists, i, m, result)
    {
      result := VisitAxis(planets, axes, resolve, axesWithType, lists, i, m, result);
    }
    AxisLoopNext(planets, axes, resolve, lists, i, result);
  }

  /** `axesWithType`: every axis under its key as a body of category
      'axis'. */
  method AxesWithType(axes: Dict<Longitude>) returns (axesWithType: map<string, Body>)
    requires axes.Valid()
    ensures forall t | 0 <= t < |axes.keys| :: axes.keys[t] in axesWithType && axesWithType[axes.keys[t]] == AxisBody(axes, t)
  {
    axesWithType := map[];
    for m := 0 to |axes.keys|
      invariant forall t | 0 <= t < m :: axes.keys[t] in axesWithType && axesWithType[axes.keys[t]] == AxisBody(axes, t)
    {
      var axisKey := axes.keys[m];
      axesWithType := axesWithType[axisKey := Body(axisKey, "axis", axes.entries[axisKey])];
    }
  }

  /** Before the axis loops no planet has been tested. */
  lemma AxisLoopStart(planets: Dict<Body>, axes: Dict<Longitude>, resolve: (Body, Body) -> Option<AspectResult>, lists: map<string, seq<AspectEntry>>)
    requires planets.Valid() && axes.Valid()
    requires forall k :: k in lists <==> k in planets.keys
    ensures AxisLoop(planets, axes, resolve, lists, 0, 0, lists)
  {
    forall t | 0 <= t < |planets.keys|
      ensures AxisSlot(planets, axes, resolve, lists, 0, 0, lists, t)
    {
      assert lists[planets.keys[t]] == lists[planets.keys[t]] + [];
    }
  }

  /** Planet i against every axis is planet i + 1 against none. */
  lemma AxisLoopNext(planets: Dict<Body>, axes: Dict<Longitude>, resolve: (Body, Body) -> Option<AspectResult>, lists: map<string, seq<AspectEntry>>,
                     i: nat, result: map<string, seq<AspectEntry>>)
    requires planets.Valid() && axes.Valid()
    requires forall k | k in planets.keys :: k in lists
    requires AxisLoop(planets, axes, resolve, lists, i, |axes.keys|, result)
    ensures AxisLoop(planets, axes, resolve, lists, i + 1, 0, result)
  {
    var next := i + 1;
    forall t | 0 <= t < |planets.keys|
      ensures AxisSlot(planets, axes, resolve, lists, next, 0, result, t)
    {
      assert AxisSlot(planets, axes, resolve, lists, i, |axes.keys|, result, t);
      assert Tested(t, i, |axes.keys|, |axes.keys|) == Tested(t, next, 0, |axes.keys|);
    }
  }

  /** After every planet has been tested against every axis, each list
      holds all its axis hits. */
  lemma AxisLoopEnd(planets: Dict<Body>, axes: Dict<Longitude>, resolve: (Body, Body) -> Option<AspectResult>, lists: map<string, seq<AspectEntry>>,
                    result: map<string, seq<AspectEntry>>)
    requires planets.Valid() && axes.Valid()
    requires forall k | k in planets.keys :: k in lists
    requires AxisLoop(planets, axes, resolve, lists, |planets.keys|, 0, result)
    ensures forall k :: k in result <==> k in planets.keys
    ensures forall k | k in planets.keys :: result[k] == lists[k] + AxisHits(planets.entries[k], axes, resolve, |axes.keys|)
  {
    forall k | k in planets.keys
      ensures result[k] == lists[k] + AxisHits(planets.entries[k], axes, resolve, |axes.keys|)
    {
      var t :| 0 <= t < |planets.keys| && planets.keys[t] == k;
      assert AxisSlot(planets, axes, resolve, lists, |planets.keys|, 0, result, t);
    }
  }

  /** The final loop: delete every key whose list is empty. */
  method PruneEmpty(keys: seq<string>, lists: map<string, seq<AspectEntry>>) returns (r: Dict<seq<AspectEntry>>)
    requires Distinct(keys)
    requires forall k :: k in lists <==> k in keys
    ensures r == Prune(keys, lists)
  {
    var result := lists;
    var kept: seq<string> := [];
    for i := 0 to |keys|
      invariant kept == Kept(keys, lists, i)
      invariant result == Deleted(keys, lists, i)
    {
      var planetKey := keys[i];
      DeletedUntouched(keys, lists, i, i);
      if |result[planetKey]| == 0 {
        result := result - {planetKey};
      } else {
        kept := kept + [planetKey];
      }
    }
    PruneLoopEnd(keys, lists);
    r := Dict(kept, result);
  }

  /** The lists after the pruning loop has looked at the first n keys. */
  function Deleted(keys: seq<string>, lists: map<string, seq<AspectEntry>>, n: nat): map<string, seq<AspectEntry>>
    requires n <= |keys| && forall k | k in keys :: k in lists
  {
    if n == 0 then lists
    else if lists[keys[n - 1]] == [] then Deleted(keys, lists, n - 1) - {keys[n - 1]}
    else Deleted(keys, lists, n - 1)
  }

  /** The pruning loop deletes exactly the keys it has looked at whose
      lists are empty, and changes no list. */
  lemma {:induction false} DeletedShape(keys: seq<string>, lists: map<string, seq<AspectEntry>>, n: nat)
    requires n <= |keys| && Distinct(keys) && forall k | k in keys :: k in lists
    ensures forall t | 0 <= t < |keys| :: keys[t] in Deleted(keys, lists, n) <==> n <= t || lists[keys[t]] != []
    ensures forall k | k in Deleted(keys, lists, n) :: k in lists && Deleted(keys, lists, n)[k] == lists[k]
  {
    if n > 0 {
      DeletedShape(keys, lists, n - 1);
    }
  }

  /** A key the pruning loop has not reached still holds its list. */
  lemma {:induction false} DeletedUntouched(keys: seq<string>, lists: map<string, seq<AspectEntry>>, n: nat, t: nat)
    requires n <= t < |keys| && Distinct(keys) && forall k | k in keys :: k in lists
    ensures keys[t] in Deleted(keys, lists, n) && Deleted(keys, lists, n)[keys[t]] == lists[keys[t]]
  {
    if n > 0 {
      DeletedUntouched(keys, lists, n - 1, t);
    }
  }

  /** After the last key the pruning loop holds what pruning returns. */
  lemma PruneLoopEnd(keys: seq<string>, lists: map<string, seq<AspectEntry>>)
    requires Distinct(keys) && forall k :: k in lists <==> k in keys
    ensures Dict(Kept(keys, lists, |keys|), Deleted(keys, lists, |keys|)) == Prune(keys, lists)
  {
    KeptIsPrune(keys, lists, |keys|);
    assert keys[..|keys|] == keys;
    DeletedShape(keys, lists, |keys|);
    PrunedEntries(keys, lists, Deleted(keys, lists, |keys|));
  }

  /** The entries left after deleting every key with an empty list are
      those pruning keeps. */
  lemma PrunedEntries(keys: seq<string>, lists: map<string, seq<AspectEntry>>, result: map<string, seq<AspectEntry>>)
    requires forall k :: k in lists <==> k in keys
    requires forall t | 0 <= t < |keys| :: keys[t] in result <==> lists[keys[t]] != []
    requires forall k | k in result :: k in lists && result[k] == lists[k]
    ensures result == Prune(keys, lists).entries
  {
    var p := Prune(keys, lists);
    forall k ensures k in result <==> k in p.entries {
      assert k in keys ==> exists t :: 0 <= t < |keys| && keys[t] == k;
    }
    MapsAgree(result, p.entries);
  }

  /** The whole of `aspects`, for any resolver and any pair-key scheme: the
      empty lists, the pair loops, the axis loops when axes are given, and
      the pruning loop. */
  method BuildAspects<T(==)>(planets: Dict<Body>, axes: Option<Dict<Longitude>>,
                             resolve: (Body, Body) -> Option<AspectResult>, pairKey: (string, string) -> T)
    returns (r: Dict<seq<AspectEntry>>)
    requires planets.Valid() && AxesValid(axes)
    ensures r == Graph(planets, axes, resolve, Visited(planets.keys, pairKey))
    ensures r.Valid()
  {
    var result := CollectLists(planets, axes, resolve, pairKey);
    r := PruneEmpty(planets.keys, result);
  }

  /** The empty lists, the pair loops and the axis loops when axes are
      given: every planet's list before pruning. */
  method CollectLists<T(==)>(planets: Dict<Body>, axes: Option<Dict<Longitude>>,
                             resolve: (Body, Body) -> Option<AspectResult>, pairKey: (string, string) -> T)
    returns (result: map<string, seq<AspectEntry>>)
    requires planets.Valid() && AxesValid(axes)
    ensures result == Lists(planets, axes, resolve, Visited(planets.keys, pairKey))
  {
    result := EmptyLists(planets.keys);
    result := AddPairs(planets, resolve, pairKey, result);
    ghost var pairs := result;
    if axes.Some? {
      result := AddAxes(planets, axes.value, resolve, result);
    }
    ListsFrom(planets, axes, resolve, Visited(planets.keys, pairKey), pairs, result);
  }

  /** The lists after the pair loops and, when axes are given, the axis
      loops are those of `Lists`. */
  lemma ListsFrom(planets: Dict<Body>, axes: Option<Dict<Longitude>>, resolve: (Body, Body) -> Option<AspectResult>,
                  visited: seq<(nat, nat)>, pairs: map<string, seq<AspectEntry>>, result: map<string, seq<AspectEntry>>)
    requires planets.Valid() && AxesValid(axes) && InRange(visited, |planets.keys|)
    requires forall k :: k in pairs <==> k in planets.keys
    requires forall k | k in planets.keys :: pairs[k] == PairEntries(planets, resolve, visited, k)
    requires axes.None? ==> result == pairs
    requires axes.Some? ==> forall k :: k in result <==> k in planets.keys
    requires axes.Some? ==> forall k | k in planets.keys ::
      result[k] == pairs[k] + AxisHits(planets.entries[k], axes.value, resolve, |axes.value.keys|)
    ensures result == Lists(planets, axes, resolve, visited)
  {
    var lists := Lists(planets, axes, resolve, visited);
    forall k | k in result ensures result[k] == lists[k] {
      if axes.None? {
        assert result[k] == result[k] + [];
      }
    }
    MapsAgree(result, lists);
  }

  /** `aspect(first, second)` as `aspects` calls it: without an orb table,
      so with the default orbs. */
  function DefaultAspect(first: Body, second: Body): Option<AspectResult> {
    Aspect(first, second, None)
  }

  /** `aspects(planets, axes)` as written: pairs recorded under `${a}-${b}`.
      When no key contains a hyphen, every unordered pair of distinct
      positions is evaluated exactly once, in key order. */
  method BuildAspectsByName(planets: Dict<Body>, axes: Option<Dict<Longitude>>) returns (r: Dict<seq<AspectEntry>>)
    requires planets.Valid() && AxesValid(axes)
    ensures r == Graph(planets, axes, DefaultAspect, Visited(planets.keys, PairName))
    ensures HyphenFree(planets.keys) ==> r == Graph(planets, axes, DefaultAspect, AllPairs(|planets.keys|))
    ensures r.Valid()
  {
    r := BuildAspects(planets, axes, DefaultAspect, PairName);
    if HyphenFree(planets.keys) {
      HyphenFreeVisitsAllPairs(planets.keys);
    }
  }

  /** Without hyphens in the keys, `${a}-${b}` tells pairs apart and the
      loops evaluate every unordered pair. */
  lemma HyphenFreeVisitsAllPairs(keys: seq<string>)
    requires Distinct(keys) && HyphenFree(keys)
    ensures Visited(keys, PairName) == AllPairs(|keys|)
  {
    PairNameInjective(keys);
    WalkIsAllPairs(keys, PairName);
  }

  /** `aspects(planets, axes)` with pairs recorded as ordered pairs of keys:
      every unordered pair of planets is evaluated exactly once, whatever
      the keys contain. */
  method BuildAspectsByPair(planets: Dict<Body>, axes: Option<Dict<Longitude>>) returns (r: Dict<seq<AspectEntry>>)
    requires planets.Valid() && AxesValid(axes)
    ensures r == Graph(planets, axes, DefaultAspect, AllPairs(|planets.keys|))
    ensures r.Valid()
  {
    r := BuildAspects(planets, axes, DefaultAspect, PairTuple);
    PairsVisitAllPairs(planets.keys);
  }

  /** Ordered pairs of keys tell pairs apart, so the loops evaluate every
      unordered pair. */
  lemma PairsVisitAllPairs(keys: seq<string>)
    requires Distinct(keys)
    ensures Visited(keys, PairTuple) == AllPairs(|keys|)
  {
    PairTupleInjective(keys);
    WalkIsAllPairs(keys, PairTuple);
  }

  /** A pair entry under key k comes from an evaluated pair whose first key
      is k, and every evaluated pair with first key k that resolves to an
      aspect leaves an entry tagged with the second key. */
  lemma {:induction false} PairEntriesMembers(planets: Dict<Body>, resolve: (Body, Body) -> Option<AspectResult>,
                                              visited: seq<(nat, nat)>, k: string, e: AspectEntry)
    requires planets.Valid() && InRange(visited, |planets.keys|)
    ensures e in PairEntries(planets, resolve, visited, k) <==>
      exists p | p in visited ::
        && planets.keys[p.0] == k && planets.keys[p.1] == e.with
        && resolve(planets.entries[planets.keys[p.0]], planets.entries[planets.keys[p.1]]) == Some(e.aspect)
    decreases |visited|
  {
    if visited != [] {
      var init := visited[..|visited| - 1];
      assert visited == init + [visited[|visited| - 1]];
      PairEntriesMembers(planets, resolve, init, k, e);
    }
  }

  /** An axis entry comes from an axis the planet was tested against, and
      each such axis that resolves to an aspect leaves an entry tagged with
      its key. */
  lemma {:induction false} AxisHitsMembers(planet: Body, axes: Dict<Longitude>, resolve: (Body, Body) -> Option<AspectResult>,
                                           m: nat, e: AspectEntry)
    requires axes.Valid() && m <= |axes.keys|
    ensures e in AxisHits(planet, axes, resolve, m) <==>
      exists t | 0 <= t < m :: axes.keys[t] == e.with && resolve(planet, AxisBody(axes, t)) == Some(e.aspect)
  {
    if m > 0 {
      AxisHitsMembers(planet, axes, resolve, m - 1, e);
    }
  }

  /** With the default orbs every axis entry is a conjunction, since only
      the 0 degree angle is tried against an axis. */
  lemma {:induction false} AxisHitsConjunctions(planet: Body, axes: Dict<Longitude>, m: nat)
    requires axes.Valid() && m <= |axes.keys|
    ensures forall e | e in AxisHits(planet, axes, DefaultAspect, m) :: e.aspect.name == "conjunction"
  {
    if m > 0 {
      AxisHitsConjunctions(planet, axes, m - 1);
      assert IsAxis(AxisBody(axes, m - 1));
    }
  }

  /** When every unordered pair is evaluated, an aspect between the planets
      at positions a < b is stored once, under the earlier key and tagged
      with the later, and never under the later key tagged with the
      earlier. */
  lemma PairStoredOnce(planets: Dict<Body>, resolve: (Body, Body) -> Option<AspectResult>, a: nat, b: nat, x: AspectResult)
    requires planets.Valid() && a < b < |planets.keys|
    requires resolve(planets.entries[planets.keys[a]], planets.entries[planets.keys[b]]) == Some(x)
    ensures InRange(AllPairs(|planets.keys|), |planets.keys|)
    ensures AspectEntry(x, planets.keys[b]) in PairEntries(planets, resolve, AllPairs(|planets.keys|), planets.keys[a])
    ensures forall e | e in PairEntries(planets, resolve, AllPairs(|planets.keys|), planets.keys[b]) :: e.with != planets.keys[a]
  {
    var n := |planets.keys|;
    var keys := planets.keys;
    AllPairsShape(n);
    assert (a, b) in AllPairs(n);
    PairEntriesMembers(planets, resolve, AllPairs(n), keys[a], AspectEntry(x, keys[b]));
    forall e | e in PairEntries(planets, resolve, AllPairs(n), keys[b])
      ensures e.with != keys[a]
    {
      PairEntriesMembers(planets, resolve, AllPairs(n), keys[b], e);
      var p :| p in AllPairs(n) && keys[p.0] == keys[b] && keys[p.1] == e.with
        && resolve(planets.entries[keys[p.0]], planets.entries[keys[p.1]]) == Some(e.aspect);
      assert p.0 == b;
    }
  }

  /** For `aspects` as written, with any pair naming: no entry under the
      key at position b is tagged with a key at an earlier position a, so
      a pair's aspect is never stored under its later key. */
  lemma PairNeverReversed<T>(planets: Dict<Body>, resolve: (Body, Body) -> Option<AspectResult>, pairKey: (string, string) -> T, a: nat, b: nat)
    requires planets.Valid() && a < b < |planets.keys|
    ensures InRange(Visited(planets.keys, pairKey), |planets.keys|)
    ensures forall e | e in PairEntries(planets, resolve, Visited(planets.keys, pairKey), planets.keys[b]) :: e.with != planets.keys[a]
  {
    var keys := planets.keys;
    var v := Visited(keys, pairKey);
    VisitedForward(keys, pairKey);
    forall e | e in PairEntries(planets, resolve, v, keys[b])
      ensures e.with != keys[a]
    {
      PairEntriesMembers(planets, resolve, v, keys[b], e);
      var p :| p in v && keys[p.0] == keys[b] && keys[p.1] == e.with
        && resolve(planets.entries[keys[p.0]], planets.entries[keys[p.1]]) == Some(e.aspect);
      assert p.0 == b && b < p.1;
    }
  }

  /** The keys of the returned object are exactly the planets with at least
      one entry, each with its whole list; `PruneOrder` gives their order. */
  lemma GraphKeys(planets: Dict<Body>, axes: Option<Dict<Longitude>>, resolve: (Body, Body) -> Option<AspectResult>,
                  visited: seq<(nat, nat)>, k: string)
    requires planets.Valid() && AxesValid(axes) && InRange(visited, |planets.keys|)
    ensures var g := Graph(planets, axes, resolve, visited);
      (k in g.keys <==> k in planets.keys && (PairEntries(planets, resolve, visited, k) != [] ||
                                             AxisEntries(planets.entries[k], axes, resolve) != []))
      && (k in g.keys ==> g.entries[k] == PairEntries(planets, resolve, visited, k) + AxisEntries(planets.entries[k], axes, resolve))
  {
  }
}
