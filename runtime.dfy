/** The part of the .NET runtime the style engine relies on: types, the
    BaseType relation that reflection exposes, IsInstanceOfType, and the
    objects being styled. Reflection itself is not modelled. */
module Runtime {

  /** A runtime type, identified by a tag. */
  type TypeId = nat

  /** typeof(Object). */
  const ObjectType: TypeId := 0

  /** Type.BaseType as a finite map; a type missing from the map has a null
      BaseType. Tags are numbered so that a base type always has a smaller tag
      than the types deriving from it, which makes every BaseType walk finite. */
  type Hierarchy = h: map<TypeId, TypeId> | forall t :: t in h ==> h[t] < t
    witness map[]

  /** An object being styled: its identity and its runtime type (GetType()). */
  datatype Target = Target(id: nat, runtimeType: TypeId)

  /** Type.IsInstanceOfType for class types: `t` is `sup` or derives from it.
      A supertype never has a larger tag than its subtype. */
  predicate IsSubtypeOf(h: Hierarchy, t: TypeId, sup: TypeId)
    ensures IsSubtypeOf(h, t, sup) ==> sup <= t
    decreases t
  {
    t == sup || (t in h && IsSubtypeOf(h, h[t], sup))
  }

  /** The types a BaseType walk from `t` visits, nearest first: `t`, its base,
      and so on, stopping at Object or at a null BaseType. */
  function Ancestry(h: Hierarchy, t: TypeId): (a: seq<TypeId>)
    ensures |a| >= 1 && a[0] == t
    ensures forall i :: 0 < i < |a| ==> a[i] < a[i - 1]
    decreases t
  {
    if t == ObjectType || t !in h then [t] else [t] + Ancestry(h, h[t])
  }

  /** Object is the root: it has no base type in any hierarchy. */
  lemma ObjectHasNoBase(h: Hierarchy)
    ensures ObjectType !in h
  {
  }

  /** IsInstanceOfType is exactly "lies on the BaseType walk". */
  lemma {:induction false} SubtypeIffInAncestry(h: Hierarchy, t: TypeId, s: TypeId)
    ensures IsSubtypeOf(h, t, s) <==> s in Ancestry(h, t)
    decreases t
  {
    if t != s && t in h {
      ObjectHasNoBase(h);
      SubtypeIffInAncestry(h, h[t], s);
    }
  }

  /** Subtyping is transitive. */
  lemma {:induction false} SubtypeTransitive(h: Hierarchy, a: TypeId, b: TypeId, c: TypeId)
    requires IsSubtypeOf(h, a, b) && IsSubtypeOf(h, b, c)
    ensures IsSubtypeOf(h, a, c)
    decreases a
  {
    if a != b {
      SubtypeTransitive(h, h[a], b, c);
    }
  }

  /** Subtyping is antisymmetric: the hierarchy has no cycles. */
  lemma SubtypeAntisymmetric(h: Hierarchy, a: TypeId, b: TypeId)
    requires IsSubtypeOf(h, a, b) && IsSubtypeOf(h, b, a)
    ensures a == b
  {
  }

  /** The walk never visits a type twice. */
  lemma AncestryDistinct(h: Hierarchy, t: TypeId)
    ensures forall i, j :: 0 <= i < j < |Ancestry(h, t)| ==> Ancestry(h, t)[j] < Ancestry(h, t)[i]
  {
  }
}
