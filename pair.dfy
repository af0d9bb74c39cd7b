/** Utilities/src/main/java/phd/research/Pair.java: an immutable pair of non-null values.
    A Java reference that may be null is an `Option`; the component types' own
    `equals` is taken to be value equality (as for Integer, Boolean and String). */
module Pairs {
  import opened Wrappers
  import opened JavaInt

  datatype Pair<L(==), R(==)> = Pair(left: L, right: R) {

    function GetLeft(): L { left }

    function GetRight(): R { right }

    /** `equals(Object)`: null is never equal; otherwise both components must be
        equal (`Objects.equals` on non-null values). The reference shortcut
        `this == obj` is subsumed: the same object has the same components. */
    predicate Equals(obj: Option<Pair<L, R>>) {
      obj.Some? && obj.value.left == left && obj.value.right == right
    }

    /** `hashCode()`: the int sum, wrapping at 32 bits, of the components' hash codes. */
    function HashCode(hashL: L -> int32, hashR: R -> int32): (h: int32)
      ensures (h as int - hashL(left) as int - hashR(right) as int) % TWO_32 == 0
    {
      Wrap(hashL(left) as int + hashR(right) as int)
    }
  }

  /** The constructor: `Objects.requireNonNull` on each argument, left first. */
  function NewPair<L(==), R(==)>(left: Option<L>, right: Option<R>): (r: Result<Pair<L, R>>)
    ensures r.Ok? <==> left.Some? && right.Some?
    ensures r.Err? ==> r.error == NullPointer
    ensures r.Ok? ==> r.value.GetLeft() == left.value && r.value.GetRight() == right.value
  {
    if left.None? || right.None? then Err(NullPointer) else Ok(Pair(left.value, right.value))
  }

  lemma EqualsIsEquivalence<L, R>(p: Pair<L, R>, q: Pair<L, R>, s: Pair<L, R>)
    ensures p.Equals(Some(p))
    ensures p.Equals(Some(q)) <==> q.Equals(Some(p))
    ensures p.Equals(Some(q)) && q.Equals(Some(s)) ==> p.Equals(Some(s))
    ensures !p.Equals(None)
  {
  }

  /** Equal pairs have equal hash codes, for any component hash functions. */
  lemma EqualPairsEqualHash<L, R>(p: Pair<L, R>, q: Pair<L, R>, hashL: L -> int32, hashR: R -> int32)
    requires p.Equals(Some(q))
    ensures p.HashCode(hashL, hashR) == q.HashCode(hashL, hashR)
  {
  }

  /** Swapping the components keeps the hash code but breaks equality unless they are equal. */
  lemma SwappedPair<T>(a: T, b: T, hash: T -> int32)
    ensures Pair(a, b).HashCode(hash, hash) == Pair(b, a).HashCode(hash, hash)
    ensures Pair(a, b).Equals(Some(Pair(b, a))) <==> a == b
  {
  }
}
