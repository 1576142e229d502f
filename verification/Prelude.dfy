/** Definitions shared by the models of the service. */
module Prelude {

  datatype Option<+T> = None | Some(value: T)

  newtype Byte = b: int | 0 <= b < 256
  type Bytes = seq<Byte>

  /** Instants and durations are whole nanoseconds, as in the source's `chrono` and `Instant` types. */
  type Time = int
  const SECOND: int := 1_000_000_000

  function Seconds(n: int): Time {
    n * 1_000_000_000
  }

  function Min(a: int, b: int): int {
    if a <= b then a else b
  }

  /** A subset has no more elements than the set it is in. */
  lemma {:induction false} SubsetSize<T>(a: set<T>, b: set<T>)
    requires a <= b
    ensures |a| <= |b|
    decreases |a|
  {
    if a != {} {
      var x :| x in a;
      SubsetSize(a - {x}, b - {x});
    }
  }

  lemma UpdatedTwice<K, V>(m: map<K, V>, k: K, v: V, w: V)
    ensures m[k := v][k := w] == m[k := w]
  {
  }

  /** A finite set of numbers leaves two numbers out. */
  lemma {:induction false} TwoFresh(used: set<nat>) returns (p: nat, q: nat)
    ensures p !in used && q !in used && p < q
  {
    p := Above(used);
    q := p + 1;
  }

  lemma {:induction false} Above(used: set<nat>) returns (bound: nat)
    ensures forall n | n >= bound :: n !in used
    decreases |used|
  {
    if used == {} {
      bound := 0;
    } else {
      var n :| n in used;
      var rest := Above(used - {n});
      bound := if rest > n then rest else n + 1;
      forall m | m >= bound
        ensures m !in used
      {
        assert m !in used - {n};
      }
    }
  }
}
