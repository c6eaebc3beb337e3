/** Rendering parsed RDF terms to the strings the dictionary stores, and the
    persist/reload pair for a vocabulary (a JSON array of strings in the
    store's metadata, modelled as `seq<string>`). */
module Utils {
  import opened Types
  import opened StrOrder
  import opened Dictionary

  /** What a literal carries besides its lexical value. A datatype is
      carried in its rendered form, as oxrdf's `Display` writes the named
      node. The parser never yields both a datatype and a language tag, so
      that case is absent. */
  datatype Annotation = Plain | Typed(dtype: string) | Tagged(language: string)

  /** A parsed term. A blank node carries its label; a named node's `iri`
      is its already-rendered form. */
  datatype Term =
    | BlankNode(id: string)
    | NamedNode(iri: string)
    | Literal(value: string, annotation: Annotation)

  /** oxrdf's `Display` of a blank node: its label behind the `_:` prefix. */
  function BlankNodeDisplay(id: string): string {
    "_:" + id
  }

  /** `serialize_term`: the canonical string of a term. A blank node goes
      through `format!("_:{id}")` with `id` displayed, which already carries
      the prefix, so the label ends up behind `_:_:`. */
  function SerializeTerm(t: Term): (r: string)
    ensures t.BlankNode? ==> r == "_:_:" + t.id
    ensures t.NamedNode? ==> r == t.iri
    ensures t.Literal? && t.annotation.Plain? ==> r == t.value
    ensures t.Literal? && t.annotation.Typed? ==> r == "\"" + t.value + "\"^^" + t.annotation.dtype
    ensures t.Literal? && t.annotation.Tagged? ==> r == "\"" + t.value + "\"@" + t.annotation.language
  {
    match t
    case BlankNode(id) => "_:" + BlankNodeDisplay(id)
    case NamedNode(iri) => iri
    case Literal(value, Plain) => value
    case Literal(value, Typed(dt)) => "\"" + value + "\"^^" + dt
    case Literal(value, Tagged(lang)) => "\"" + value + "\"@" + lang
  }

  /** Only an empty plain literal (or an empty rendered IRI) renders as the
      empty string; blank nodes and annotated literals never do. */
  lemma SerializedEmptyIff(t: Term)
    ensures SerializeTerm(t) == "" <==>
      (t.NamedNode? && t.iri == "") || (t.Literal? && t.annotation.Plain? && t.value == "")
  {
    match t
    case BlankNode(_) =>
      assert |SerializeTerm(t)| >= 4;
    case NamedNode(_) =>
    case Literal(value, Plain) =>
    case Literal(value, Typed(dt)) =>
      assert |SerializeTerm(t)| >= 4;
    case Literal(value, Tagged(lang)) =>
      assert |SerializeTerm(t)| >= 3;
  }

  /** Blank nodes with different labels render differently. */
  lemma BlankNodeRenderingInjective(a: string, b: string)
    requires SerializeTerm(BlankNode(a)) == SerializeTerm(BlankNode(b))
    ensures a == b
  {
    assert a == SerializeTerm(BlankNode(a))[4..];
  }

  /** Plain literals are rendered without quotes, so the plain literal
      `_:_:x` receives the same string as the blank node labelled `x`, and
      the two share one dictionary id; no other literal does, since an
      annotated literal renders with a leading quote. */
  lemma PlainLiteralMeetsBlankNode(id: string, t: Term)
    ensures SerializeTerm(Literal("_:_:" + id, Plain)) == SerializeTerm(BlankNode(id))
    ensures t.Literal? && SerializeTerm(t) == SerializeTerm(BlankNode(id)) ==>
      t == Literal("_:_:" + id, Plain)
  {
    if t.Literal? && SerializeTerm(t) == SerializeTerm(BlankNode(id)) {
      assert SerializeTerm(BlankNode(id))[0] == '_';
    }
  }

  /** `rdf_to_value`: a set's keys in id order, so that the string at
      position i is the term whose id is i. */
  function RdfToValue(ts: TermSet): (r: seq<string>)
    requires StrictlySorted(ts.keys)
    ensures |r| == |ts.keys|
    ensures forall i :: 0 <= i < |r| ==> Rank(ts.keys, r[i]) == Some(i)
  {
    forall i | 0 <= i < |ts.keys|
      ensures Rank(ts.keys, ts.keys[i]) == Some(i)
    {
      var j := Rank(ts.keys, ts.keys[i]).value;
      StrictlySortedIndexUnique(ts.keys, i, j);
    }
    ts.keys
  }

  /** `value_to_rdf`: the persisted strings, sorted again rather than trusted
      to be in order. */
  function ValueToRdf(v: seq<string>): (r: seq<string>)
    ensures Sorted(r)
    ensures multiset(r) == multiset(v)
  {
    Sort(v)
  }

  /** Re-sorting persisted strings that are already sorted changes nothing. */
  lemma ValueToRdfIdempotent(v: seq<string>)
    requires Sorted(v)
    ensures ValueToRdf(v) == v
  {
    SortIdempotent(v);
  }

  /** Persisting a vocabulary and reading it back gives the keys in id order,
      and rebuilding the set from them gives the same set. */
  lemma ValueRoundTrip(ts: TermSet)
    requires StrictlySorted(ts.keys) && NulFree(ts.keys)
    ensures ValueToRdf(RdfToValue(ts)) == ts.keys
    ensures NewSet(ValueToRdf(RdfToValue(ts))) == Ok(ts)
  {
    assert Sorted(ts.keys);
    SortIdempotent(ts.keys);
  }
}
