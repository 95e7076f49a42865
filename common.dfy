/** Small building blocks shared by every engine: an optional value, a
    JavaScript object used as a dictionary, and JavaScript's remainder. */
module Common {

  /** `undefined`/`null` versus a present value. */
  datatype Option<T> = None | Some(value: T)

  /** A JavaScript object used as a dictionary: its keys in enumeration
      order, and the value stored under each key. */
  datatype Dict<V> = Dict(keys: seq<string>, entries: map<string, V>) {
    predicate Valid() {
      && (forall i, j | 0 <= i < j < |keys| :: keys[i] != keys[j])
      && (forall k | k in keys :: k in entries)
      && (forall k | k in entries :: k in keys)
    }
  }

  /** The entries of d after a `forEach` over its first n keys has
      replaced each of their values v by f(v). */
  function MapPrefix<V>(d: Dict<V>, f: V -> V, n: nat): map<string, V>
    requires d.Valid() && n <= |d.keys|
  {
    if n == 0 then d.entries
    else MapPrefix(d, f, n - 1)[d.keys[n - 1] := f(d.entries[d.keys[n - 1]])]
  }

  /** The keys the `forEach` has not reached still hold their old value. */
  lemma {:induction false} MapPrefixUntouched<V>(d: Dict<V>, f: V -> V, n: nat, t: nat)
    requires d.Valid() && n <= t < |d.keys|
    ensures d.keys[t] in MapPrefix(d, f, n) && MapPrefix(d, f, n)[d.keys[t]] == d.entries[d.keys[t]]
  {
    if n > 0 {
      MapPrefixUntouched(d, f, n - 1, t);
      assert d.keys[n - 1] != d.keys[t];
    }
  }

  /** After the first n keys, the reached keys hold f of their value and the
      key set is unchanged. */
  lemma {:induction false} MapPrefixReached<V>(d: Dict<V>, f: V -> V, n: nat)
    requires d.Valid() && n <= |d.keys|
    ensures forall k :: k in MapPrefix(d, f, n) <==> k in d.entries
    ensures forall t | 0 <= t < n :: MapPrefix(d, f, n)[d.keys[t]] == f(d.entries[d.keys[t]])
  {
    if n > 0 {
      MapPrefixReached(d, f, n - 1);
      forall t | 0 <= t < n ensures MapPrefix(d, f, n)[d.keys[t]] == f(d.entries[d.keys[t]]) {
        if t < n - 1 {
          assert d.keys[n - 1] != d.keys[t];
        }
      }
    }
  }

  /** A `forEach` over every key maps every entry through f. */
  lemma MapPrefixAll<V>(d: Dict<V>, f: V -> V)
    requires d.Valid()
    ensures MapPrefix(d, f, |d.keys|) == map k | k in d.entries :: f(d.entries[k])
  {
    var m := MapPrefix(d, f, |d.keys|);
    MapPrefixReached(d, f, |d.keys|);
    var target := map k | k in d.entries :: f(d.entries[k]);
    forall k | k in m ensures m[k] == target[k] {
      var t :| 0 <= t < |d.keys| && d.keys[t] == k;
    }
    MapsAgree(m, target);
  }

  /** Two maps with the same keys and the same value under every key are
      equal. */
  lemma MapsAgree<V>(m1: map<string, V>, m2: map<string, V>)
    requires forall k :: k in m1 <==> k in m2
    requires forall k | k in m1 :: m1[k] == m2[k]
    ensures m1 == m2
  {
  }

  /** JavaScript `a % 12` on integers: the remainder takes the sign of `a`. */
  function Rem12(a: int): (r: int)
    ensures a >= 0 ==> 0 <= r < 12
    ensures a < 0 ==> -12 < r <= 0
    ensures (a - r) % 12 == 0
  {
    if a >= 0 then a % 12 else -((-a) % 12)
  }

  /** `Math.trunc`: rounds toward zero. */
  function Trunc(x: real): (t: int)
    ensures x >= 0.0 ==> t as real <= x < t as real + 1.0
    ensures x < 0.0 ==> t as real - 1.0 < x <= t as real
  {
    if x >= 0.0 then x.Floor else -((-x).Floor)
  }

  /** JavaScript `x % 360` on a Number: the remainder takes the sign of `x`. */
  function Rem360(x: real): (r: real)
    ensures x >= 0.0 ==> 0.0 <= r < 360.0
    ensures x >= 0.0 ==> r == x - 360.0 * (x / 360.0).Floor as real
  {
    x - 360.0 * Trunc(x / 360.0) as real
  }
}
