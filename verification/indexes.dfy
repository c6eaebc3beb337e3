/** The three index kinds, the triple component each one leads with, the
    two dimension names written next to each array, and their display
    names, which double as array paths and metadata attribute keys. */
module Indexes {
  import opened Types

  datatype Index = Subject | Predicate | Object

  /** The slot a triple position occupies: 0, 1 or 2. */
  function Slot(idx: Index): (r: nat)
    ensures r < 3
    ensures idx.Subject? <==> r == 0
    ensures idx.Predicate? <==> r == 1
    ensures idx.Object? <==> r == 2
  {
    match idx
    case Subject => 0
    case Predicate => 1
    case Object => 2
  }

  /** The component of a triple at a slot. */
  function At(t: Triple, slot: nat): nat
    requires slot < 3
  {
    if slot == 0 then t.0 else if slot == 1 then t.1 else t.2
  }

  /** The leading component of `t` for the index `idx`. */
  function TripleToComponent(idx: Index, t: Triple): (r: nat)
    ensures idx.Subject? ==> r == t.0
    ensures idx.Predicate? ==> r == t.1
    ensures idx.Object? ==> r == t.2
  {
    match idx
    case Subject => t.0
    case Predicate => t.1
    case Object => t.2
  }

  /** The two positions that are not `idx`, in subject, predicate, object
      order. */
  function DimensionIndexes(idx: Index): (r: seq<Index>)
    ensures |r| == 2
    ensures idx !in r
    ensures Slot(r[0]) < Slot(r[1])
  {
    match idx
    case Subject => [Predicate, Object]
    case Predicate => [Subject, Object]
    case Object => [Subject, Predicate]
  }

  /** `Display`: the name used for array paths and attribute keys. */
  function Name(idx: Index): (r: string)
    ensures |r| > 0
    ensures idx == Subject <==> r == "subject"
    ensures idx == Predicate <==> r == "predicate"
    ensures idx == Object <==> r == "object"
  {
    assert "subject"[0] != "predicate"[0] && "subject"[0] != "object"[0] && "predicate"[0] != "object"[0];
    match idx
    case Subject => "subject"
    case Predicate => "predicate"
    case Object => "object"
  }

  /** The dimension names stored with an index's array. */
  function DimensionNames(idx: Index): (r: seq<string>)
    ensures |r| == 2
    ensures Name(idx) !in r
    ensures r[0] != r[1]
    ensures r == [Name(DimensionIndexes(idx)[0]), Name(DimensionIndexes(idx)[1])]
  {
    NameInjective();
    var dims := DimensionIndexes(idx);
    [Name(dims[0]), Name(dims[1])]
  }

  /** Distinct indexes have distinct display names, so neither array paths
      nor attribute keys collide. */
  lemma NameInjective()
    ensures forall a: Index, b: Index :: Name(a) == Name(b) ==> a == b
  {
    assert "subject"[0] != "predicate"[0];
    assert "subject"[0] != "object"[0];
    assert "predicate"[0] != "object"[0];
  }

  /** The slot of the leading component is where `TripleToComponent` reads. */
  lemma SlotIsComponent(idx: Index, t: Triple)
    ensures TripleToComponent(idx, t) == At(t, Slot(idx))
  {
  }

  /** An index together with its two dimensions covers every position
      exactly once. */
  lemma DimensionsCoverPositions(idx: Index)
    ensures forall x: Index :: x == idx || x in DimensionIndexes(idx)
    ensures multiset{idx} + multiset(DimensionIndexes(idx)) == multiset{Subject, Predicate, Object}
  {
  }
}
