/** Utilities/src/main/java/phd/research/Tuple.java: an immutable triple of non-null values.
    As for Pair, null is `None` and the components' `equals` is value equality. */
module Tuples {
  import opened Wrappers
  import opened JavaInt

  datatype Tuple<L(==), M(==), R(==)> = Tuple(left: L, middle: M, right: R) {

    function GetLeft(): L { left }

    function GetMiddle(): M { middle }

    function GetRight(): R { right }

    /** `equals(Object)`: null is never equal; otherwise all three components must be equal. */
    predicate Equals(obj: Option<Tuple<L, M, R>>) {
      obj.Some? && obj.value.left == left && obj.value.middle == middle && obj.value.right == right
    }

    /** `hashCode()`: the int sum, wrapping at 32 bits, of the three components' hash codes. */
    function HashCode(hashL: L -> int32, hashM: M -> int32, hashR: R -> int32): (h: int32)
      ensures (h as int - hashL(left) as int - hashM(middle) as int - hashR(right) as int) % TWO_32 == 0
    {
      Wrap(Wrap(hashL(left) as int + hashM(middle) as int) as int + hashR(right) as int)
    }
  }

  /** The constructor: `Objects.requireNonNull` on each argument, left to right. */
  function NewTuple<L(==), M(==), R(==)>(left: Option<L>, middle: Option<M>, right: Option<R>)
    : (r: Result<Tuple<L, M, R>>)
    ensures r.Ok? <==> left.Some? && middle.Some? && right.Some?
    ensures r.Err? ==> r.error == NullPointer
    ensures r.Ok? ==> r.value.GetLeft() == left.value && r.value.GetMiddle() == middle.value
                      && r.value.GetRight() == right.value
  {
    if left.None? || middle.None? || right.None? then Err(NullPointer)
    else Ok(Tuple(left.value, middle.value, right.value))
  }

  lemma EqualsIsEquivalence<L, M, R>(p: Tuple<L, M, R>, q: Tuple<L, M, R>, s: Tuple<L, M, R>)
    ensures p.Equals(Some(p))
    ensures p.Equals(Some(q)) <==> q.Equals(Some(p))
    ensures p.Equals(Some(q)) && q.Equals(Some(s)) ==> p.Equals(Some(s))
    ensures !p.Equals(None)
  {
  }

  lemma EqualTuplesEqualHash<L, M, R>(p: Tuple<L, M, R>, q: Tuple<L, M, R>,
                                   hashL: L -> int32, hashM: M -> int32, hashR: R -> int32)
    requires p.Equals(Some(q))
    ensures p.HashCode(hashL, hashM, hashR) == q.HashCode(hashL, hashM, hashR)
  {
  }

  /** Permuting the components keeps the hash code (the sum is taken modulo 2^32) but
      rotating them gives an equal tuple only when all three are equal. */
  lemma {:induction false} PermutedTuple<T>(a: T, b: T, c: T, hash: T -> int32)
    ensures Tuple(a, b, c).HashCode(hash, hash, hash) == Tuple(c, a, b).HashCode(hash, hash, hash)
    ensures Tuple(a, b, c).HashCode(hash, hash, hash) == Tuple(b, a, c).HashCode(hash, hash, hash)
    ensures Tuple(a, b, c).Equals(Some(Tuple(c, a, b))) <==> a == b == c
  {
    HashIsWrappedSum(Tuple(a, b, c), hash);
    HashIsWrappedSum(Tuple(c, a, b), hash);
    HashIsWrappedSum(Tuple(b, a, c), hash);
  }

  /** The hash of a tuple is the wrapped mathematical sum of its components' hashes. */
  lemma HashIsWrappedSum<T>(t: Tuple<T, T, T>, hash: T -> int32)
    ensures t.HashCode(hash, hash, hash) == Wrap(hash(t.left) as int + hash(t.middle) as int + hash(t.right) as int)
  {
    WrapSumAssociates(hash(t.left) as int, hash(t.middle) as int, hash(t.right) as int);
  }

  /** Wrap(Wrap(x + y) + z) depends only on the mathematical sum x + y + z. */
  lemma WrapSumAssociates(x: int, y: int, z: int)
    ensures Wrap(Wrap(x + y) as int + z) == Wrap(x + y + z)
  {
    var w := Wrap(x + y) as int;
    var d := (x + y - w) / TWO_32;
    assert x + y == w + d * TWO_32;
    WrapShift(w + z, d);
  }

  lemma WrapShift(x: int, d: int)
    ensures Wrap(x + d * TWO_32) == Wrap(x)
  {
    assert (x + d * TWO_32 - INT_MIN) % TWO_32 == (x - INT_MIN) % TWO_32;
  }
}
