/** Building the store from parsed triples: the empty-term filter, the
    per-position vocabularies, dictionary encoding, the grouping of each
    index into rows with its chunk-size plan, the batched writes, and
    reopening a store from its metadata. The chunked array engine is
    abstracted: an index array is the sequence of its rows, chunk k being
    row k. */
module Storage {
  import opened Types
  import opened StrOrder
  import opened Dictionary
  import opened Indexes
  import opened Utils
  import opened RdfFormats

  /** Number of rows handed to the array engine per write. */
  const CHUNK_SIZE: nat := 10000

  /** The subject, predicate and object terms of one parsed quad; the graph
      name plays no role. */
  type Quad = (Term, Term, Term)

  /** The rows of one index array: row k holds the flattened pairs of chunk k. */
  type Rows = seq<seq<nat>>

  // ---------------------------------------------------------------------
  // Reading parsed triples

  function Render(q: Quad): StrTriple {
    (SerializeTerm(q.0), SerializeTerm(q.1), SerializeTerm(q.2))
  }

  /** A rendered triple survives when none of its terms renders empty. */
  predicate Kept(t: StrTriple) {
    t.0 != "" && t.1 != "" && t.2 != ""
  }

  /** `read_rdf` after parsing: render each quad, drop those with an empty
      term, keep the order of the rest. */
  function ReadRdf(quads: seq<Quad>): (r: seq<StrTriple>)
    ensures |r| <= |quads|
    ensures forall k :: 0 <= k < |r| ==> Kept(r[k])
    ensures forall t :: t in r <==> exists q :: q in quads && Render(q) == t && Kept(t)
    ensures (forall q :: q in quads ==> Kept(Render(q))) ==> |r| == |quads|
  {
    if |quads| == 0 then []
    else
      var rest := ReadRdf(quads[1..]);
      assert quads == [quads[0]] + quads[1..];
      var t := Render(quads[0]);
      if Kept(t) then [t] + rest else rest
  }

  /** When every term renders non-empty, triple k is the rendering of quad
      k: nothing is dropped or moved. */
  lemma {:induction false} ReadRdfAllKept(quads: seq<Quad>)
    requires forall k :: 0 <= k < |quads| ==> Kept(Render(quads[k]))
    ensures |ReadRdf(quads)| == |quads|
    ensures forall k :: 0 <= k < |quads| ==> ReadRdf(quads)[k] == Render(quads[k])
    decreases |quads|
  {
    if |quads| > 0 {
      var rest := quads[1..];
      forall k | 0 <= k < |rest|
        ensures Kept(Render(rest[k]))
      {
        assert rest[k] == quads[k + 1];
      }
      ReadRdfAllKept(rest);
      ReadRdfFirstKept(quads);
      forall k | 0 <= k < |quads|
        ensures ReadRdf(quads)[k] == Render(quads[k])
      {
        if k > 0 {
          assert quads[k] == rest[k - 1];
        }
      }
    }
  }

  /** A first quad that is kept heads the triples read. */
  lemma ReadRdfFirstKept(quads: seq<Quad>)
    requires |quads| > 0 && Kept(Render(quads[0]))
    ensures ReadRdf(quads) == [Render(quads[0])] + ReadRdf(quads[1..])
  {
  }

  /** Reading keeps the order of the parse: the triples of a parse split in
      two are those of the first part followed by those of the second. */
  lemma {:induction false} ReadRdfAppend(a: seq<Quad>, b: seq<Quad>)
    ensures ReadRdf(a + b) == ReadRdf(a) + ReadRdf(b)
    decreases |a|
  {
    if |a| > 0 {
      assert (a + b)[1..] == a[1..] + b;
      assert (a + b)[0] == a[0];
      ReadRdfAppend(a[1..], b);
    } else {
      assert a + b == b;
    }
  }

  // ---------------------------------------------------------------------
  // Collecting the vocabularies

  /** The string at a triple position. */
  function StrComponent(t: StrTriple, idx: Index): string {
    match idx
    case Subject => t.0
    case Predicate => t.1
    case Object => t.2
  }

  /** The hash set of one position's terms, filled triple by triple: it
      holds that position's term of every triple (and, by
      `CollectOnlyComponents`, nothing else). */
  function Collect(ts: seq<StrTriple>, idx: Index): (r: set<string>)
    ensures forall k :: 0 <= k < |ts| ==> StrComponent(ts[k], idx) in r
  {
    if |ts| == 0 then {}
    else
      var rest := Collect(ts[1..], idx);
      assert forall k :: 1 <= k < |ts| ==> ts[k] == ts[1..][k - 1];
      rest + {StrComponent(ts[0], idx)}
  }

  /** A collected term is the term of some triple at that position. */
  lemma {:induction false} CollectOnlyComponents(ts: seq<StrTriple>, idx: Index, s: string)
    ensures s in Collect(ts, idx) <==> exists k :: 0 <= k < |ts| && StrComponent(ts[k], idx) == s
    decreases |ts|
  {
    if |ts| > 0 {
      CollectOnlyComponents(ts[1..], idx, s);
      if s in Collect(ts[1..], idx) {
        var k :| 0 <= k < |ts[1..]| && StrComponent(ts[1..][k], idx) == s;
        assert StrComponent(ts[k + 1], idx) == s;
      }
    }
  }

  /** `xs` lists the members of `s`, each once: what iterating a hash set
      yields, in an order the model leaves open. */
  predicate Enumerates(xs: seq<string>, s: set<string>) {
    NoDup(xs) && (forall x :: x in xs ==> x in s) && (forall x :: x in s ==> x in xs)
  }

  /** No term of any triple contains U+0000. */
  predicate NulFreeTerms(ts: seq<StrTriple>) {
    forall k :: 0 <= k < |ts| ==> '\0' !in ts[k].0 && '\0' !in ts[k].1 && '\0' !in ts[k].2
  }

  /** An enumeration of one position's collected terms is free of NUL
      exactly when that position's terms of all triples are. */
  lemma EnumerationNulFree(ts: seq<StrTriple>, idx: Index, xs: seq<string>)
    requires Enumerates(xs, Collect(ts, idx))
    ensures NulFree(xs) <==> forall k :: 0 <= k < |ts| ==> '\0' !in StrComponent(ts[k], idx)
  {
    forall i | 0 <= i < |xs| && '\0' in xs[i]
      ensures exists k :: 0 <= k < |ts| && '\0' in StrComponent(ts[k], idx)
    {
      CollectOnlyComponents(ts, idx, xs[i]);
    }
    forall k | 0 <= k < |ts| && '\0' in StrComponent(ts[k], idx)
      ensures !NulFree(xs)
    {
      var t := StrComponent(ts[k], idx);
      assert t in xs;
      var i :| 0 <= i < |xs| && xs[i] == t;
    }
  }

  /** `Dictionary::new` on the collected sets succeeds exactly when no term
      contains U+0000: hash-set members are distinct, so only the NUL end
      marker can make a set refuse them. */
  lemma DictionaryAcceptsTerms(ts: seq<StrTriple>, es: seq<string>, ep: seq<string>, eo: seq<string>)
    requires Enumerates(es, Collect(ts, Subject))
    requires Enumerates(ep, Collect(ts, Predicate))
    requires Enumerates(eo, Collect(ts, Object))
    ensures New(es, ep, eo).Ok? <==> NulFreeTerms(ts)
    ensures New(es, ep, eo).Err? ==> New(es, ep, eo).error == DictionaryCreation
  {
    EnumerationNulFree(ts, Subject, es);
    EnumerationNulFree(ts, Predicate, ep);
    EnumerationNulFree(ts, Object, eo);
    if NulFreeTerms(ts) {
      assert forall k :: 0 <= k < |ts| ==> '\0' !in StrComponent(ts[k], Subject);
      assert forall k :: 0 <= k < |ts| ==> '\0' !in StrComponent(ts[k], Predicate);
      assert forall k :: 0 <= k < |ts| ==> '\0' !in StrComponent(ts[k], Object);
    } else {
      var k :| 0 <= k < |ts| && !('\0' !in ts[k].0 && '\0' !in ts[k].1 && '\0' !in ts[k].2);
      assert StrComponent(ts[k], Subject) == ts[k].0;
      assert StrComponent(ts[k], Predicate) == ts[k].1;
      assert StrComponent(ts[k], Object) == ts[k].2;
    }
  }

  /** `Dictionary::new` on the three collected sets, given the order their
      iteration happens to produce, for terms free of U+0000. It cannot
      fail then: hash-set members are distinct, so each sorted list is
      strictly sorted. */
  function BuildDictionary(ts: seq<StrTriple>, es: seq<string>, ep: seq<string>, eo: seq<string>): (r: Dictionary)
    requires Enumerates(es, Collect(ts, Subject))
    requires Enumerates(ep, Collect(ts, Predicate))
    requires Enumerates(eo, Collect(ts, Object))
    requires NulFreeTerms(ts)
    ensures StrictlySorted(r.subjects.keys) && StrictlySorted(r.predicates.keys) && StrictlySorted(r.objects.keys)
    ensures forall s :: s in r.subjects.keys <==> s in Collect(ts, Subject)
    ensures forall s :: s in r.predicates.keys <==> s in Collect(ts, Predicate)
    ensures forall s :: s in r.objects.keys <==> s in Collect(ts, Object)
    ensures |r.subjects.keys| <= |ts| && |r.predicates.keys| <= |ts| && |r.objects.keys| <= |ts|
    ensures NulFree(r.subjects.keys) && NulFree(r.predicates.keys) && NulFree(r.objects.keys)
  {
    DictionaryAcceptsTerms(ts, es, ep, eo);
    var d := New(es, ep, eo).value;
    assert forall s :: s in d.subjects.keys <==> s in multiset(es);
    assert forall s :: s in d.predicates.keys <==> s in multiset(ep);
    assert forall s :: s in d.objects.keys <==> s in multiset(eo);
    CollectSize(ts, Subject);
    CollectSize(ts, Predicate);
    CollectSize(ts, Object);
    EnumerationSize(es, Collect(ts, Subject));
    EnumerationSize(ep, Collect(ts, Predicate));
    EnumerationSize(eo, Collect(ts, Object));
    d
  }

  lemma {:induction false} CollectSize(ts: seq<StrTriple>, idx: Index)
    ensures |Collect(ts, idx)| <= |ts|
    decreases |ts|
  {
    if |ts| > 0 {
      CollectSize(ts[1..], idx);
    }
  }

  lemma {:induction false} EnumerationSize(xs: seq<string>, s: set<string>)
    requires Enumerates(xs, s)
    ensures |xs| == |s|
    decreases |xs|
  {
    if |xs| > 0 {
      var rest := xs[1..];
      assert Enumerates(rest, s - {xs[0]}) by {
        forall x
          ensures x in rest <==> x in s - {xs[0]}
        {
          if x in rest {
            var k :| 0 <= k < |rest| && rest[k] == x;
            assert xs[k + 1] == x;
          }
          if x in s - {xs[0]} {
            assert x in xs;
            var k :| 0 <= k < |xs| && xs[k] == x;
            assert k != 0;
            assert rest[k - 1] == x;
          }
        }
      }
      EnumerationSize(rest, s - {xs[0]});
    } else {
      assert forall x :: x !in s;
    }
  }

  /** Whatever order the hash sets are iterated in, the dictionary is the same. */
  lemma BuildDictionaryIgnoresOrder(ts: seq<StrTriple>, es: seq<string>, ep: seq<string>, eo: seq<string>,
                                    es': seq<string>, ep': seq<string>, eo': seq<string>)
    requires Enumerates(es, Collect(ts, Subject)) && Enumerates(es', Collect(ts, Subject))
    requires Enumerates(ep, Collect(ts, Predicate)) && Enumerates(ep', Collect(ts, Predicate))
    requires Enumerates(eo, Collect(ts, Object)) && Enumerates(eo', Collect(ts, Object))
    requires NulFreeTerms(ts)
    ensures BuildDictionary(ts, es, ep, eo) == BuildDictionary(ts, es', ep', eo')
  {
    EnumerationsSameMultiset(es, es', Collect(ts, Subject));
    EnumerationsSameMultiset(ep, ep', Collect(ts, Predicate));
    EnumerationsSameMultiset(eo, eo', Collect(ts, Object));
    NewIgnoresOrder(es, ep, eo, es', ep', eo');
  }

  lemma EnumerationsSameMultiset(xs: seq<string>, ys: seq<string>, s: set<string>)
    requires Enumerates(xs, s) && Enumerates(ys, s)
    ensures multiset(xs) == multiset(ys)
  {
    NoDupIffSingletons(xs);
    NoDupIffSingletons(ys);
    forall x
      ensures multiset(xs)[x] == multiset(ys)[x]
    {
      if x in s {
        assert x in multiset(xs) && x in multiset(ys);
      } else {
        assert x !in multiset(xs) && x !in multiset(ys);
      }
    }
  }

  // ---------------------------------------------------------------------
  // Dictionary encoding

  /** Every term of every triple has an entry in the dictionary. */
  predicate Covers(d: Dictionary, ts: seq<StrTriple>) {
    forall k :: 0 <= k < |ts| ==>
      ts[k].0 in d.subjects.keys && ts[k].1 in d.predicates.keys && ts[k].2 in d.objects.keys
  }

  /** Every vocabulary has fewer than 2^31 terms, so ids survive the casts. */
  predicate SmallVocabularies(d: Dictionary) {
    |d.subjects.keys| <= TWO_POW_31 && |d.predicates.keys| <= TWO_POW_31 && |d.objects.keys| <= TWO_POW_31
  }

  /** Encodes one triple: each term's id, cast `i32` then `u64`; absent when
      a term has no id. */
  function EncodeTriple(d: Dictionary, t: StrTriple): Option<Triple> {
    match (GetSubjectIdx(d, t.0), GetPredicateIdx(d, t.1), GetObjectIdx(d, t.2))
    case (Some(s), Some(p), Some(o)) => Some((I32AsU64(s), I32AsU64(p), I32AsU64(o)))
    case _ => None
  }

  /** The triple `t` encodes to under a dictionary whose vocabularies list
      each term at its id. */
  predicate EncodesTo(d: Dictionary, t: StrTriple, e: Triple) {
    && e.0 < |d.subjects.keys| && d.subjects.keys[e.0] == t.0
    && e.1 < |d.predicates.keys| && d.predicates.keys[e.1] == t.1
    && e.2 < |d.objects.keys| && d.objects.keys[e.2] == t.2
  }

  /** The `filter_map` encoding pass: order is kept, triples with an unknown
      term are skipped. When the dictionary knows every term nothing is
      skipped, and with small vocabularies each id names its term. */
  function Encode(d: Dictionary, ts: seq<StrTriple>): (r: seq<Triple>)
    ensures |r| <= |ts|
    ensures Covers(d, ts) ==> |r| == |ts|
    ensures Covers(d, ts) ==> forall k :: 0 <= k < |r| ==> EncodeTriple(d, ts[k]) == Some(r[k])
    ensures Covers(d, ts) && SmallVocabularies(d) ==>
      forall k :: 0 <= k < |r| ==> EncodesTo(d, ts[k], r[k])
  {
    if |ts| == 0 then []
    else
      var rest := Encode(d, ts[1..]);
      var r := match EncodeTriple(d, ts[0])
        case None => rest
        case Some(e) => [e] + rest;
      EncodeStep(d, ts, rest, r);
      EncodedIdsNameTerms(d, ts, r);
      r
  }

  /** One step of the encoding pass: when the dictionary knows every term,
      the first triple is encoded in front of the encoded rest. */
  lemma EncodeStep(d: Dictionary, ts: seq<StrTriple>, rest: seq<Triple>, r: seq<Triple>)
    requires |ts| > 0
    requires Covers(d, ts[1..]) ==>
      |rest| == |ts| - 1 && forall k :: 0 <= k < |rest| ==> EncodeTriple(d, ts[1..][k]) == Some(rest[k])
    requires r == match EncodeTriple(d, ts[0]) case None => rest case Some(e) => [e] + rest
    ensures |r| <= |rest| + 1
    ensures Covers(d, ts) ==> |r| == |ts| && forall k :: 0 <= k < |r| ==> EncodeTriple(d, ts[k]) == Some(r[k])
  {
    if Covers(d, ts) {
      assert Covers(d, ts[1..]) by {
        assert forall k :: 1 <= k < |ts| ==> ts[k] == ts[1..][k - 1];
      }
      KnownTermsEncode(d, ts[0]);
      EncodedCons(d, ts, EncodeTriple(d, ts[0]).value, rest);
    }
  }

  /** The encoding of the first triple in front of the pointwise encoding
      of the rest is the pointwise encoding of all. */
  lemma EncodedCons(d: Dictionary, ts: seq<StrTriple>, e: Triple, rest: seq<Triple>)
    requires |ts| > 0 && EncodeTriple(d, ts[0]) == Some(e) && |rest| == |ts| - 1
    requires forall k :: 0 <= k < |rest| ==> EncodeTriple(d, ts[1..][k]) == Some(rest[k])
    ensures forall k :: 0 <= k < |rest| + 1 ==> EncodeTriple(d, ts[k]) == Some(([e] + rest)[k])
  {
    forall k | 0 < k < |rest| + 1
      ensures EncodeTriple(d, ts[k]) == Some(([e] + rest)[k])
    {
      assert ts[k] == ts[1..][k - 1] && ([e] + rest)[k] == rest[k - 1];
    }
  }

  /** A triple whose terms are all known encodes. */
  lemma KnownTermsEncode(d: Dictionary, t: StrTriple)
    requires t.0 in d.subjects.keys && t.1 in d.predicates.keys && t.2 in d.objects.keys
    ensures EncodeTriple(d, t).Some?
  {
  }

  /** With small vocabularies, an id an encoded triple carries is its
      term's index. */
  lemma EncodeTripleNamesTerms(d: Dictionary, t: StrTriple, e: Triple)
    requires SmallVocabularies(d) && EncodeTriple(d, t) == Some(e)
    ensures EncodesTo(d, t, e)
  {
  }

  lemma EncodedIdsNameTerms(d: Dictionary, ts: seq<StrTriple>, r: seq<Triple>)
    ensures (&& SmallVocabularies(d) && |r| <= |ts|
             && forall k :: 0 <= k < |r| ==> EncodeTriple(d, ts[k]) == Some(r[k])) ==>
      forall k :: 0 <= k < |r| ==> EncodesTo(d, ts[k], r[k])
  {
    if SmallVocabularies(d) && |r| <= |ts| && forall k :: 0 <= k < |r| ==> EncodeTriple(d, ts[k]) == Some(r[k]) {
      forall k | 0 <= k < |r|
        ensures EncodesTo(d, ts[k], r[k])
      {
        EncodeTripleNamesTerms(d, ts[k], r[k]);
      }
    }
  }

  /** A dictionary whose vocabularies contain the collected sets knows
      every term of the triples. */
  lemma CollectedTermsCovered(ts: seq<StrTriple>, d: Dictionary)
    requires forall s :: s in Collect(ts, Subject) ==> s in d.subjects.keys
    requires forall s :: s in Collect(ts, Predicate) ==> s in d.predicates.keys
    requires forall s :: s in Collect(ts, Object) ==> s in d.objects.keys
    ensures Covers(d, ts)
  {
    forall k | 0 <= k < |ts|
      ensures ts[k].0 in d.subjects.keys && ts[k].1 in d.predicates.keys && ts[k].2 in d.objects.keys
    {
      assert ts[k].0 in Collect(ts, Subject) by {
        assert StrComponent(ts[k], Subject) == ts[k].0;
      }
      assert ts[k].1 in Collect(ts, Predicate) by {
        assert StrComponent(ts[k], Predicate) == ts[k].1;
      }
      assert ts[k].2 in Collect(ts, Object) by {
        assert StrComponent(ts[k], Object) == ts[k].2;
      }
    }
  }

  /** A dictionary built from the triples themselves knows every term of
      them, and its vocabularies are no larger than the triple count. */
  lemma BuiltDictionaryCovers(ts: seq<StrTriple>, es: seq<string>, ep: seq<string>, eo: seq<string>)
    requires Enumerates(es, Collect(ts, Subject))
    requires Enumerates(ep, Collect(ts, Predicate))
    requires Enumerates(eo, Collect(ts, Object))
    requires NulFreeTerms(ts)
    ensures Covers(BuildDictionary(ts, es, ep, eo), ts)
    ensures |ts| <= TWO_POW_31 ==> SmallVocabularies(BuildDictionary(ts, es, ep, eo))
  {
    var d := BuildDictionary(ts, es, ep, eo);
    CollectedTermsCovered(ts, d);
    VocabulariesBounded(d, |ts|);
  }

  /** Vocabularies no larger than a triple count of at most 2^31 are small. */
  lemma VocabulariesBounded(d: Dictionary, n: nat)
    requires |d.subjects.keys| <= n && |d.predicates.keys| <= n && |d.objects.keys| <= n
    ensures n <= TWO_POW_31 ==> SmallVocabularies(d)
  {
  }

  // ---------------------------------------------------------------------
  // Grouping an index into rows

  function Flatten<T>(xss: seq<seq<T>>): (r: seq<T>)
  {
    if |xss| == 0 then [] else xss[0] + Flatten(xss[1..])
  }

  lemma {:induction false} FlattenAppend<T>(a: seq<seq<T>>, b: seq<seq<T>>)
    ensures Flatten(a + b) == Flatten(a) + Flatten(b)
    decreases |a|
  {
    if |a| > 0 {
      assert (a + b)[1..] == a[1..] + b;
      FlattenAppend(a[1..], b);
    } else {
      assert a + b == b;
    }
  }

  /** All triples of a group share the key of its first triple. */
  predicate SameKey(g: seq<Triple>, idx: Index)
    requires |g| > 0
  {
    forall i :: 0 <= i < |g| ==> TripleToComponent(idx, g[i]) == TripleToComponent(idx, g[0])
  }

  /** Non-empty groups of equal keys, no two adjacent ones sharing a key:
      each group is a maximal run. */
  predicate MaximalRuns(gs: seq<seq<Triple>>, idx: Index) {
    && (forall k :: 0 <= k < |gs| ==> |gs[k]| > 0 && SameKey(gs[k], idx))
    && (forall k :: 0 < k < |gs| ==>
          TripleToComponent(idx, gs[k - 1][0]) != TripleToComponent(idx, gs[k][0]))
  }

  /** `chunk_by` on the leading component: the maximal runs of adjacent
      triples with equal keys. Non-adjacent triples with the same key land
      in different runs; nothing is sorted first. */
  function ChunkBy(ts: seq<Triple>, idx: Index): (r: seq<seq<Triple>>)
    ensures Flatten(r) == ts
    ensures MaximalRuns(r, idx)
    ensures |r| <= |ts|
    ensures |ts| > 0 ==> |r| > 0 && r[0][0] == ts[0]
  {
    if |ts| == 0 then []
    else
      var rest := ChunkBy(ts[1..], idx);
      assert ts == [ts[0]] + ts[1..];
      if |rest| > 0 && TripleToComponent(idx, rest[0][0]) == TripleToComponent(idx, ts[0]) then
        JoinRun(ts[0], rest, idx);
        [[ts[0]] + rest[0]] + rest[1..]
      else
        StartRun(ts[0], rest, idx);
        [[ts[0]]] + rest
  }

  /** A triple with the key of the first run joins that run. */
  lemma JoinRun(t: Triple, rest: seq<seq<Triple>>, idx: Index)
    requires MaximalRuns(rest, idx) && |rest| > 0
    requires TripleToComponent(idx, rest[0][0]) == TripleToComponent(idx, t)
    ensures MaximalRuns([[t] + rest[0]] + rest[1..], idx)
    ensures Flatten([[t] + rest[0]] + rest[1..]) == [t] + Flatten(rest)
  {
    var g := [t] + rest[0];
    JoinedGroupSameKey(t, rest[0], idx);
    ReplaceFirstRun(g, rest, idx);
  }

  lemma JoinedGroupSameKey(t: Triple, g: seq<Triple>, idx: Index)
    requires |g| > 0 && SameKey(g, idx) && TripleToComponent(idx, g[0]) == TripleToComponent(idx, t)
    ensures SameKey([t] + g, idx)
  {
    var h := [t] + g;
    forall i | 0 < i < |h|
      ensures TripleToComponent(idx, h[i]) == TripleToComponent(idx, h[0])
    {
      assert h[i] == g[i - 1];
    }
  }

  /** Replacing the first run by a run with the same key that extends it at
      the front keeps the runs maximal, and flattens to the added triples in
      front. */
  lemma ReplaceFirstRun(g: seq<Triple>, rest: seq<seq<Triple>>, idx: Index)
    requires MaximalRuns(rest, idx) && |rest| > 0
    requires |g| > |rest[0]| && SameKey(g, idx) && g[|g| - |rest[0]|..] == rest[0]
    requires TripleToComponent(idx, g[0]) == TripleToComponent(idx, rest[0][0])
    ensures MaximalRuns([g] + rest[1..], idx)
    ensures Flatten([g] + rest[1..]) == g[..|g| - |rest[0]|] + Flatten(rest)
  {
    var r := [g] + rest[1..];
    forall k | 0 < k < |r|
      ensures r[k] == rest[k]
    {
    }
    assert r[1..] == rest[1..];
    assert Flatten(rest) == rest[0] + Flatten(rest[1..]);
    assert g == g[..|g| - |rest[0]|] + rest[0];
  }

  /** A triple with another key than the first run starts a run of its own. */
  lemma StartRun(t: Triple, rest: seq<seq<Triple>>, idx: Index)
    requires MaximalRuns(rest, idx)
    requires |rest| > 0 ==> TripleToComponent(idx, rest[0][0]) != TripleToComponent(idx, t)
    ensures MaximalRuns([[t]] + rest, idx)
    ensures Flatten([[t]] + rest) == [t] + Flatten(rest)
  {
    var r := [[t]] + rest;
    forall k | 0 < k < |r|
      ensures |r[k]| > 0 && SameKey(r[k], idx)
      ensures TripleToComponent(idx, r[k - 1][0]) != TripleToComponent(idx, r[k][0])
    {
      assert r[k] == rest[k - 1];
      if k > 1 {
        assert r[k - 1] == rest[k - 2];
      }
    }
    assert r[1..] == rest;
    assert Flatten(r) == r[0] + Flatten(r[1..]);
  }

  /** The `[a, b]` pairs of a group, flattened: components 0 and 1 of every
      triple, whatever the index. */
  function PairsOf(g: seq<Triple>): (r: seq<nat>)
    ensures |r| == 2 * |g|
    ensures forall i :: 0 <= i < |g| ==> r[2 * i] == g[i].0 && r[2 * i + 1] == g[i].1
  {
    if |g| == 0 then []
    else
      var rest := PairsOf(g[1..]);
      var r := [g[0].0, g[0].1] + rest;
      assert forall i :: 0 <= i < |g| ==> r[2 * i] == g[i].0 && r[2 * i + 1] == g[i].1 by {
        forall i | 0 <= i < |g|
          ensures r[2 * i] == g[i].0 && r[2 * i + 1] == g[i].1
        {
          if i > 0 {
            assert r[2 * i] == rest[2 * (i - 1)] && r[2 * i + 1] == rest[2 * (i - 1) + 1];
            assert g[i] == g[1..][i - 1];
          }
        }
      }
      r
  }

  lemma {:induction false} PairsOfAppend(a: seq<Triple>, b: seq<Triple>)
    ensures PairsOf(a + b) == PairsOf(a) + PairsOf(b)
    decreases |a|
  {
    if |a| > 0 {
      assert (a + b)[1..] == a[1..] + b;
      PairsOfAppend(a[1..], b);
    } else {
      assert a + b == b;
    }
  }

  /** One row per group, holding that group's pairs. */
  function RowsOf(groups: seq<seq<Triple>>): (r: Rows)
    ensures |r| == |groups|
    ensures forall k :: 0 <= k < |r| ==> r[k] == PairsOf(groups[k])
    ensures Flatten(r) == PairsOf(Flatten(groups))
  {
    if |groups| == 0 then []
    else
      var rest := RowsOf(groups[1..]);
      var r := [PairsOf(groups[0])] + rest;
      assert r[1..] == rest;
      PairsOfAppend(groups[0], Flatten(groups[1..]));
      r
  }

  function Sum(xs: seq<nat>): nat {
    if |xs| == 0 then 0 else xs[0] + Sum(xs[1..])
  }

  /** Pair counts of the rows: `chunk.len() / 2` for each. */
  function ChunkSizes(rows: Rows): (r: seq<nat>)
    ensures |r| == |rows|
    ensures forall k :: 0 <= k < |r| ==> r[k] == |rows[k]| / 2
    ensures (forall k :: 0 <= k < |rows| ==> |rows[k]| % 2 == 0) ==> 2 * Sum(r) == |Flatten(rows)|
  {
    if |rows| == 0 then []
    else
      var rest := ChunkSizes(rows[1..]);
      var r := [|rows[0]| / 2] + rest;
      assert r[1..] == rest;
      r
  }

  /** What `write_index` hands to the array engine: the chunk-size plan, the
      rows, the array shape, the dimension names and the array's name. */
  datatype IndexLayout = IndexLayout(
    chunkSizes: seq<nat>,
    rows: Rows,
    shape: (nat, nat),
    dimensionNames: seq<string>,
    name: string)

  /** `write_index` up to the array creation: group, collect pairs and
      sizes, size the array. */
  function WriteIndex(ts: seq<Triple>, idx: Index): (r: IndexLayout)
    ensures |r.rows| == |r.chunkSizes| == |ChunkBy(ts, idx)|
    ensures forall k :: 0 <= k < |r.rows| ==>
      r.chunkSizes[k] == |ChunkBy(ts, idx)[k]| > 0 && |r.rows[k]| == 2 * r.chunkSizes[k]
    ensures Flatten(r.rows) == PairsOf(ts)
    ensures Sum(r.chunkSizes) == |ts|
    ensures r.shape == (|ts|, 2)
    ensures r.dimensionNames == DimensionNames(idx) && r.name == Name(idx)
  {
    var groups := ChunkBy(ts, idx);
    var rows := RowsOf(groups);
    var sizes := ChunkSizes(rows);
    IndexLayout(sizes, rows, (Sum(sizes), 2), DimensionNames(idx), Name(idx))
  }

  // ---------------------------------------------------------------------
  // Batched writes

  /** One `store_array_subset_elements` call: a block of `numRows` rows
      starting at row `start`, both columns, filled from `data`. */
  datatype WriteOp = WriteOp(start: nat, numRows: nat, data: seq<nat>)

  /** All values handed to the array engine, in call order. */
  function WrittenData(ws: seq<WriteOp>): seq<nat> {
    if |ws| == 0 then [] else ws[0].data + WrittenData(ws[1..])
  }

  predicate EvenRows(rows: Rows) {
    forall k :: 0 <= k < |rows| ==> |rows[k]| % 2 == 0
  }

  /** Every row holds at least one pair, as `write_index` guarantees. */
  predicate NonEmptyEvenRows(rows: Rows) {
    forall k :: 0 <= k < |rows| ==> |rows[k]| % 2 == 0 && |rows[k]| >= 2
  }

  function Min(a: nat, b: nat): nat {
    if a < b then a else b
  }

  /** `ws` is the batch plan of `rows` from batch `i` on: one write per
      `CHUNK_SIZE` rows, the k-th at row `(i + k) * CHUNK_SIZE`, holding
      the flattened rows of its batch and spanning one row per pair. */
  predicate BatchPlan(ws: seq<WriteOp>, rows: Rows, i: nat) {
    && |ws| == (|rows| + CHUNK_SIZE - 1) / CHUNK_SIZE
    && (forall k :: 0 <= k < |ws| ==> ws[k].start == (i + k) * CHUNK_SIZE)
    && (forall k :: 0 <= k < |ws| ==>
          ws[k].data == Flatten(rows[k * CHUNK_SIZE .. Min((k + 1) * CHUNK_SIZE, |rows|)]))
    && (forall k :: 0 <= k < |ws| ==> ws[k].numRows == |ws[k].data| / 2)
  }

  /** The loop of `serialize`: takes the rows `CHUNK_SIZE` at a time and
      writes batch `i` at row `i * CHUNK_SIZE`, with as many rows as the
      batch holds pairs. Every batch but the last holds exactly
      `CHUNK_SIZE` rows of the layout. */
  function BatchWrites(rows: Rows, i: nat): (r: seq<WriteOp>)
    ensures BatchPlan(r, rows, i)
    ensures WrittenData(r) == Flatten(rows)
    ensures |rows| == 0 <==> |r| == 0
    ensures 0 < |rows| <= CHUNK_SIZE ==> |r| == 1
    ensures |rows| > CHUNK_SIZE ==> |r| >= 2 && r[0].data == Flatten(rows[..CHUNK_SIZE])
    decreases |rows|
  {
    if |rows| == 0 then []
    else
      var n := Min(|rows|, CHUNK_SIZE);
      var data := Flatten(rows[..n]);
      var rest := BatchWrites(rows[n..], i + 1);
      var r := [WriteOp(i * CHUNK_SIZE, |data| / 2, data)] + rest;
      PrependBatch(rows, i, rest);
      assert r[1..] == rest;
      assert rows == rows[..n] + rows[n..];
      FlattenAppend(rows[..n], rows[n..]);
      r
  }

  /** The first batch of `rows`, followed by the plan of the rows after
      it, is the plan of `rows`. */
  lemma PrependBatch(rows: Rows, i: nat, rest: seq<WriteOp>)
    requires |rows| > 0
    requires BatchPlan(rest, rows[Min(|rows|, CHUNK_SIZE)..], i + 1)
    ensures var data := Flatten(rows[..Min(|rows|, CHUNK_SIZE)]);
      BatchPlan([WriteOp(i * CHUNK_SIZE, |data| / 2, data)] + rest, rows, i)
  {
    var n := Min(|rows|, CHUNK_SIZE);
    var data := Flatten(rows[..n]);
    var r := [WriteOp(i * CHUNK_SIZE, |data| / 2, data)] + rest;
    assert |r| == (|rows| + CHUNK_SIZE - 1) / CHUNK_SIZE;
    BatchDataShift(rows, rest);
    forall k | 1 <= k < |r|
      ensures r[k].start == (i + k) * CHUNK_SIZE
      ensures r[k].numRows == |r[k].data| / 2
      ensures r[k].data == Flatten(rows[k * CHUNK_SIZE .. Min((k + 1) * CHUNK_SIZE, |rows|)])
    {
      assert r[k] == rest[k - 1];
    }
  }

  /** The data clause of `PrependBatch`, batch by batch. */
  lemma BatchDataShift(rows: Rows, rest: seq<WriteOp>)
    requires |rows| > 0
    requires |rest| == (|rows| - Min(|rows|, CHUNK_SIZE) + CHUNK_SIZE - 1) / CHUNK_SIZE
    requires forall k :: 0 <= k < |rest| ==>
      rest[k].data == Flatten(rows[Min(|rows|, CHUNK_SIZE)..][k * CHUNK_SIZE .. Min((k + 1) * CHUNK_SIZE, |rows| - Min(|rows|, CHUNK_SIZE))])
    ensures forall k :: 1 <= k <= |rest| ==>
      rest[k - 1].data == Flatten(rows[k * CHUNK_SIZE .. Min((k + 1) * CHUNK_SIZE, |rows|)])
  {
    var n := Min(|rows|, CHUNK_SIZE);
    forall k | 1 <= k <= |rest|
      ensures rest[k - 1].data == Flatten(rows[k * CHUNK_SIZE .. Min((k + 1) * CHUNK_SIZE, |rows|)])
    {
      assert n == CHUNK_SIZE;
      assert (k - 1) * CHUNK_SIZE + n == k * CHUNK_SIZE;
      assert Min(k * CHUNK_SIZE, |rows| - n) + n == Min((k + 1) * CHUNK_SIZE, |rows|);
      assert rows[n..][(k - 1) * CHUNK_SIZE .. Min(k * CHUNK_SIZE, |rows| - n)]
        == rows[k * CHUNK_SIZE .. Min((k + 1) * CHUNK_SIZE, |rows|)];
    }
  }

  function SerializeWrites(rows: Rows): seq<WriteOp> {
    BatchWrites(rows, 0)
  }

  /** With at most `CHUNK_SIZE` groups an index is written in one call that
      starts at row 0 and spans the whole array shape. */
  lemma SmallIndexSingleWrite(ts: seq<Triple>, idx: Index)
    requires 0 < |WriteIndex(ts, idx).rows| <= CHUNK_SIZE
    ensures var layout := WriteIndex(ts, idx);
      SerializeWrites(layout.rows) == [WriteOp(0, layout.shape.0, Flatten(layout.rows))]
  {
    var layout := WriteIndex(ts, idx);
    var w := SerializeWrites(layout.rows);
    assert |w| == 1;
    assert WrittenData(w) == w[0].data + WrittenData(w[1..]);
    assert WrittenData(w[1..]) == [];
    assert |Flatten(layout.rows)| == 2 * |ts|;
    assert w[0].start == 0 && w[0].data == Flatten(layout.rows);
    assert w[0].numRows == |ts| == layout.shape.0;
    assert w == [w[0]];
  }

  // ---------------------------------------------------------------------
  // The array the writes leave behind

  /** A fresh index array of `n` values in row-major order, both columns of
      every row: each holds the fill value 0. */
  function Zeros(n: nat): (r: seq<nat>)
    ensures |r| == n
    ensures forall j :: 0 <= j < n ==> r[j] == 0
  {
    seq(n, _ => 0)
  }

  /** A write's block lies inside an array of `len` values and its data
      fills the block exactly. */
  predicate Fits(w: WriteOp, len: nat) {
    2 * (w.start + w.numRows) <= len && |w.data| == 2 * w.numRows
  }

  predicate AllFit(ws: seq<WriteOp>, len: nat) {
    forall k :: 0 <= k < |ws| ==> Fits(ws[k], len)
  }

  /** `store_array_subset_elements`: the rows of the write's block take its
      data, and every value outside the block is left as it was. */
  function ApplyWrite(a: seq<nat>, w: WriteOp): (r: seq<nat>)
    requires Fits(w, |a|)
    ensures |r| == |a|
    ensures r[2 * w.start .. 2 * (w.start + w.numRows)] == w.data
    ensures r[..2 * w.start] == a[..2 * w.start]
    ensures r[2 * (w.start + w.numRows)..] == a[2 * (w.start + w.numRows)..]
  {
    a[..2 * w.start] + w.data + a[2 * (w.start + w.numRows)..]
  }

  /** The writes applied in call order. The block of the last write holds
      its data: nothing after it can overwrite it. */
  function ApplyWrites(a: seq<nat>, ws: seq<WriteOp>): (r: seq<nat>)
    requires AllFit(ws, |a|)
    ensures |r| == |a|
    ensures |ws| > 0 ==> var w := ws[|ws| - 1];
      Fits(w, |r|) && r[2 * w.start .. 2 * (w.start + w.numRows)] == w.data
    decreases |ws|
  {
    if |ws| == 0 then a
    else
      assert forall k :: 0 <= k < |ws| - 1 ==> ws[1..][k] == ws[k + 1];
      ApplyWrites(ApplyWrite(a, ws[0]), ws[1..])
  }

  /** Writes that all start at or after value `lo` leave the values before
      it unchanged. */
  lemma {:induction false} ApplyWritesFrame(a: seq<nat>, ws: seq<WriteOp>, lo: nat)
    requires AllFit(ws, |a|)
    requires lo <= |a| && forall k :: 0 <= k < |ws| ==> lo <= 2 * ws[k].start
    ensures ApplyWrites(a, ws)[..lo] == a[..lo]
    decreases |ws|
  {
    if |ws| > 0 {
      var a' := ApplyWrite(a, ws[0]);
      assert a'[..lo] == a[..lo] by {
        assert a'[..lo] == a'[..2 * ws[0].start][..lo];
      }
      assert forall k :: 0 <= k < |ws| - 1 ==> ws[1..][k] == ws[k + 1];
      ApplyWritesFrame(a', ws[1..], lo);
    }
  }

  /** The rectangular chunk grid along the rows: chunk k is the block of
      `sizes[k]` rows that follows chunks 0 to k - 1, read whole. */
  function ChunksOf(a: seq<nat>, sizes: seq<nat>): (r: Rows)
    requires 2 * Sum(sizes) == |a|
    ensures |r| == |sizes|
    ensures forall k :: 0 <= k < |r| ==> |r[k]| == 2 * sizes[k]
    ensures Flatten(r) == a
    decreases |sizes|
  {
    if |sizes| == 0 then []
    else
      var rest := ChunksOf(a[2 * sizes[0]..], sizes[1..]);
      var r := [a[..2 * sizes[0]]] + rest;
      assert r[1..] == rest;
      assert a == a[..2 * sizes[0]] + a[2 * sizes[0]..];
      r
  }

  /** Reading back the flattened rows along their own pair counts gives the
      rows again. */
  lemma {:induction false} ChunksOfFlatten(rows: Rows, sizes: seq<nat>)
    requires |sizes| == |rows|
    requires forall k :: 0 <= k < |rows| ==> |rows[k]| == 2 * sizes[k]
    ensures 2 * Sum(sizes) == |Flatten(rows)|
    ensures ChunksOf(Flatten(rows), sizes) == rows
    decreases |rows|
  {
    if |rows| > 0 {
      assert forall k :: 0 <= k < |rows| - 1 ==> rows[1..][k] == rows[k + 1] && sizes[1..][k] == sizes[k + 1];
      ChunksOfFlatten(rows[1..], sizes[1..]);
      var f := Flatten(rows);
      assert f == rows[0] + Flatten(rows[1..]);
      assert f[..2 * sizes[0]] == rows[0];
      assert f[2 * sizes[0]..] == Flatten(rows[1..]);
    }
  }

  /** Rows of whole, non-empty pairs flatten to an even number of values,
      at least one pair per row. */
  lemma {:induction false} FlattenPairs(rows: Rows)
    requires NonEmptyEvenRows(rows)
    ensures |Flatten(rows)| % 2 == 0 && |Flatten(rows)| >= 2 * |rows|
    decreases |rows|
  {
    if |rows| > 0 {
      assert NonEmptyEvenRows(rows[1..]) by {
        assert forall j :: 0 <= j < |rows| - 1 ==> rows[1..][j] == rows[j + 1];
      }
      FlattenPairs(rows[1..]);
    }
  }

  /** Each batch from batch `i` on lies inside an array of `before` rows
      followed by the rows' pairs, as long as batch `i`'s offset does not
      pass `before`: every earlier batch of `CHUNK_SIZE` rows holds at least
      `CHUNK_SIZE` pairs. */
  lemma BatchesFit(rows: Rows, i: nat, before: nat)
    requires NonEmptyEvenRows(rows) && i * CHUNK_SIZE <= before
    ensures AllFit(BatchWrites(rows, i), 2 * before + |Flatten(rows)|)
  {
    var ws := BatchWrites(rows, i);
    forall k | 0 <= k < |ws|
      ensures Fits(ws[k], 2 * before + |Flatten(rows)|)
    {
      BatchFits(rows, i, before, k, ws[k]);
    }
  }

  /** Batch `k` of the plan from batch `i` on fits: the `k` batches before
      it hold at least `k * CHUNK_SIZE` pairs. */
  lemma BatchFits(rows: Rows, i: nat, before: nat, k: nat, w: WriteOp)
    requires NonEmptyEvenRows(rows) && i * CHUNK_SIZE <= before
    requires k < (|rows| + CHUNK_SIZE - 1) / CHUNK_SIZE
    requires w.start == (i + k) * CHUNK_SIZE && w.numRows == |w.data| / 2
    requires w.data == Flatten(rows[k * CHUNK_SIZE .. Min((k + 1) * CHUNK_SIZE, |rows|)])
    ensures Fits(w, 2 * before + |Flatten(rows)|)
  {
    var lo := k * CHUNK_SIZE;
    var hi := Min((k + 1) * CHUNK_SIZE, |rows|);
    SplitNonEmptyRows(rows, lo);
    SplitNonEmptyRows(rows[lo..], hi - lo);
    SliceOfSuffix(rows, lo, hi);
    assert (i + k) * CHUNK_SIZE == i * CHUNK_SIZE + lo;
    assert |Flatten(rows)| >= 2 * lo + |w.data|;
  }

  lemma SliceOfSuffix<T>(s: seq<T>, lo: nat, hi: nat)
    requires lo <= hi <= |s|
    ensures s[lo..][..hi - lo] == s[lo..hi]
  {
  }

  /** Splitting rows of whole, non-empty pairs at `n`: both parts keep that
      shape, and the first holds at least `n` pairs. */
  lemma SplitNonEmptyRows(rows: Rows, n: nat)
    requires NonEmptyEvenRows(rows) && n <= |rows|
    ensures NonEmptyEvenRows(rows[..n]) && NonEmptyEvenRows(rows[n..])
    ensures |Flatten(rows[..n])| % 2 == 0 && |Flatten(rows[..n])| >= 2 * n
    ensures Flatten(rows) == Flatten(rows[..n]) + Flatten(rows[n..])
  {
    assert forall j :: 0 <= j < n ==> rows[..n][j] == rows[j];
    assert forall j :: 0 <= j < |rows| - n ==> rows[n..][j] == rows[n + j];
    FlattenPairs(rows[..n]);
    assert rows == rows[..n] + rows[n..];
    FlattenAppend(rows[..n], rows[n..]);
  }

  /** A layout whose batches fit its array, and whose chunk sizes add up
      to its row count. */
  predicate Writable(l: IndexLayout) {
    Sum(l.chunkSizes) == l.shape.0 && AllFit(SerializeWrites(l.rows), 2 * l.shape.0)
  }

  /** What an array laid out by `l` holds once `serialize` is done: a fresh
      array of the layout's shape with every batch written in turn, read
      back chunk by chunk along the layout's chunk sizes. */
  function StoredRows(l: IndexLayout): (r: Rows)
    requires Writable(l)
    ensures |r| == |l.chunkSizes|
    ensures forall k :: 0 <= k < |r| ==> |r[k]| == 2 * l.chunkSizes[k]
  {
    ChunksOf(ApplyWrites(Zeros(2 * l.shape.0), SerializeWrites(l.rows)), l.chunkSizes)
  }

  /** Every layout `write_index` plans is writable. */
  lemma LayoutWritesFit(ts: seq<Triple>, idx: Index)
    ensures Writable(WriteIndex(ts, idx))
    ensures 2 * WriteIndex(ts, idx).shape.0 == |Flatten(WriteIndex(ts, idx).rows)|
  {
    var l := WriteIndex(ts, idx);
    ChunksOfFlatten(l.rows, l.chunkSizes);
    BatchesFit(l.rows, 0, 0);
  }

  /** The stored array has the layout's chunks, each of its row's length. */
  lemma StoredRowLengths(ts: seq<Triple>, idx: Index)
    ensures Writable(WriteIndex(ts, idx))
    ensures var r := StoredRows(WriteIndex(ts, idx));
      |r| == |WriteIndex(ts, idx).rows| && forall k :: 0 <= k < |r| ==> |r[k]| == |WriteIndex(ts, idx).rows[k]|
  {
    LayoutWritesFit(ts, idx);
  }

  /** A single batch fills the fresh array with the layout's rows, so they
      are read back unchanged. */
  lemma SmallIndexStored(ts: seq<Triple>, idx: Index)
    requires |WriteIndex(ts, idx).rows| <= CHUNK_SIZE
    ensures Writable(WriteIndex(ts, idx))
    ensures StoredRows(WriteIndex(ts, idx)) == WriteIndex(ts, idx).rows
  {
    var l := WriteIndex(ts, idx);
    LayoutWritesFit(ts, idx);
    ChunksOfFlatten(l.rows, l.chunkSizes);
    if |l.rows| > 0 {
      SmallIndexSingleWrite(ts, idx);
      var ws := SerializeWrites(l.rows);
      var z := Zeros(2 * l.shape.0);
      assert ApplyWrites(z, ws) == ApplyWrites(ApplyWrite(z, ws[0]), ws[1..]);
      assert ApplyWrite(z, ws[0]) == Flatten(l.rows);
    }
  }

  /** The index array `serialize` leaves for `ts`. With at most
      `CHUNK_SIZE` groups it holds the layout's rows; beyond that the
      batches overlap and later ones overwrite earlier ones. */
  function StoredIndex(ts: seq<Triple>, idx: Index): (r: Rows)
    ensures |r| == |WriteIndex(ts, idx).rows|
    ensures forall k :: 0 <= k < |r| ==> |r[k]| == |WriteIndex(ts, idx).rows[k]|
    ensures |WriteIndex(ts, idx).rows| <= CHUNK_SIZE ==> r == WriteIndex(ts, idx).rows
  {
    StoredRowLengths(ts, idx);
    if |WriteIndex(ts, idx).rows| <= CHUNK_SIZE then
      SmallIndexStored(ts, idx);
      StoredRows(WriteIndex(ts, idx))
    else
      StoredRows(WriteIndex(ts, idx))
  }

  /** The stored index splits into whole pairs, and its chunk sizes are
      those `write_index` planned. */
  lemma StoredIndexShape(ts: seq<Triple>, idx: Index)
    ensures EvenRows(StoredIndex(ts, idx))
    ensures ChunkSizes(StoredIndex(ts, idx)) == WriteIndex(ts, idx).chunkSizes
  {
    var r := StoredIndex(ts, idx);
    var l := WriteIndex(ts, idx);
    forall k | 0 <= k < |r|
      ensures |r[k]| == 2 * l.chunkSizes[k]
    {
      assert |r[k]| == |l.rows[k]|;
    }
    SizedRows(r, l.chunkSizes);
  }

  /** Rows of twice the given sizes split into whole pairs, and their
      chunk sizes are the given ones. */
  lemma SizedRows(rows: Rows, sizes: seq<nat>)
    requires |rows| == |sizes| && forall k :: 0 <= k < |rows| ==> |rows[k]| == 2 * sizes[k]
    ensures EvenRows(rows) && ChunkSizes(rows) == sizes
  {
  }

  // ---------------------------------------------------------------------
  // When row k is the group of id k

  /** The triples whose leading component is `v`, in input order. */
  function FilterKey(ts: seq<Triple>, idx: Index, v: nat): (r: seq<Triple>)
    ensures forall i :: 0 <= i < |r| ==> TripleToComponent(idx, r[i]) == v
    ensures |r| <= |ts|
  {
    if |ts| == 0 then []
    else if TripleToComponent(idx, ts[0]) == v then [ts[0]] + FilterKey(ts[1..], idx, v)
    else FilterKey(ts[1..], idx, v)
  }

  lemma {:induction false} FilterKeyAppend(a: seq<Triple>, b: seq<Triple>, idx: Index, v: nat)
    ensures FilterKey(a + b, idx, v) == FilterKey(a, idx, v) + FilterKey(b, idx, v)
    decreases |a|
  {
    if |a| > 0 {
      assert (a + b)[1..] == a[1..] + b;
      FilterKeyAppend(a[1..], b, idx, v);
    } else {
      assert a + b == b;
    }
  }

  /** A group whose triples all have key `v` filters to itself on `v` and to
      nothing on any other key. */
  lemma {:induction false} FilterKeyOfGroup(g: seq<Triple>, idx: Index, v: nat)
    requires forall i :: 0 <= i < |g| ==> TripleToComponent(idx, g[i]) == TripleToComponent(idx, g[0])
    requires |g| > 0
    ensures TripleToComponent(idx, g[0]) == v ==> FilterKey(g, idx, v) == g
    ensures TripleToComponent(idx, g[0]) != v ==> FilterKey(g, idx, v) == []
    decreases |g|
  {
    if |g| > 1 {
      FilterKeyOfGroup(g[1..], idx, v);
      assert g == [g[0]] + g[1..];
    }
  }

  /** The input sorted by leading component. */
  predicate SortedByKey(ts: seq<Triple>, idx: Index) {
    forall i, j :: 0 <= i <= j < |ts| ==> TripleToComponent(idx, ts[i]) <= TripleToComponent(idx, ts[j])
  }

  /** The leading components of the triples, in order. */
  function KeysOf(ts: seq<Triple>, idx: Index): (r: seq<nat>)
    ensures |r| == |ts|
    ensures forall i :: 0 <= i < |ts| ==> r[i] == TripleToComponent(idx, ts[i])
  {
    seq(|ts|, i requires 0 <= i < |ts| => TripleToComponent(idx, ts[i]))
  }

  /** The leading components are exactly the ids 0 .. n-1. */
  predicate DenseKeys(ts: seq<Triple>, idx: Index, n: nat) {
    && (forall i :: 0 <= i < |ts| ==> TripleToComponent(idx, ts[i]) < n)
    && (forall v :: 0 <= v < n ==> v in KeysOf(ts, idx))
  }

  /** The key each group was formed on. */
  function GroupKey(g: seq<Triple>, idx: Index): nat
    requires |g| > 0
  {
    TripleToComponent(idx, g[0])
  }

  /** Groups, all non-empty, with strictly increasing keys. */
  predicate KeysIncrease(gs: seq<seq<Triple>>, idx: Index) {
    && (forall a :: 0 <= a < |gs| ==> |gs[a]| > 0)
    && (forall a, b :: 0 <= a < b < |gs| ==> GroupKey(gs[a], idx) < GroupKey(gs[b], idx))
  }

  lemma PrependKeepsIncrease(g: seq<Triple>, rest: seq<seq<Triple>>, idx: Index)
    requires |g| > 0 && KeysIncrease(rest, idx)
    requires |rest| > 0 ==> GroupKey(g, idx) < GroupKey(rest[0], idx)
    ensures KeysIncrease([g] + rest, idx)
  {
    var r := [g] + rest;
    forall a, b | 0 <= a < b < |r|
      ensures GroupKey(r[a], idx) < GroupKey(r[b], idx)
    {
      assert r[b] == rest[b - 1];
      if a == 0 {
        if b > 1 {
          assert GroupKey(rest[0], idx) < GroupKey(rest[b - 1], idx);
        }
      } else {
        assert r[a] == rest[a - 1];
      }
    }
  }

  lemma ReplaceHeadKeepsIncrease(g: seq<Triple>, rest: seq<seq<Triple>>, idx: Index)
    requires |g| > 0 && KeysIncrease(rest, idx) && |rest| > 0
    requires GroupKey(g, idx) == GroupKey(rest[0], idx)
    ensures KeysIncrease([g] + rest[1..], idx)
  {
    var r := [g] + rest[1..];
    forall a, b | 0 <= a < b < |r|
      ensures GroupKey(r[a], idx) < GroupKey(r[b], idx)
    {
      assert r[b] == rest[b];
      if a == 0 {
        assert GroupKey(rest[0], idx) < GroupKey(rest[b], idx);
      } else {
        assert r[a] == rest[a];
      }
    }
  }

  /** On sorted input the runs have strictly increasing keys. */
  lemma {:induction false} SortedRunsIncrease(ts: seq<Triple>, idx: Index)
    requires SortedByKey(ts, idx)
    ensures KeysIncrease(ChunkBy(ts, idx), idx)
    decreases |ts|
  {
    if |ts| > 1 {
      var rest := ChunkBy(ts[1..], idx);
      SortedRunsIncrease(ts[1..], idx);
      assert rest[0][0] == ts[1];
      if TripleToComponent(idx, rest[0][0]) == TripleToComponent(idx, ts[0]) {
        ReplaceHeadKeepsIncrease([ts[0]] + rest[0], rest, idx);
      } else {
        PrependKeepsIncrease([ts[0]], rest, idx);
      }
    }
  }

  lemma {:induction false} FlattenMember<T>(gs: seq<seq<T>>, x: T)
    ensures x in Flatten(gs) <==> exists a :: 0 <= a < |gs| && x in gs[a]
    decreases |gs|
  {
    if |gs| > 0 {
      FlattenMember(gs[1..], x);
      if x in Flatten(gs[1..]) {
        var a :| 0 <= a < |gs[1..]| && x in gs[1..][a];
        assert x in gs[a + 1];
      }
      if exists a :: 0 <= a < |gs| && x in gs[a] {
        var a :| 0 <= a < |gs| && x in gs[a];
        if a > 0 {
          assert x in gs[1..][a - 1];
        }
      }
    }
  }

  /** Filtering the concatenation of groups with pairwise distinct keys on
      the key of group `a` gives back group `a`. */
  lemma {:induction false} FilterDistinctGroups(gs: seq<seq<Triple>>, idx: Index, a: nat)
    requires forall b :: 0 <= b < |gs| ==> |gs[b]| > 0 && SameKey(gs[b], idx)
    requires forall b, c :: 0 <= b < c < |gs| ==> GroupKey(gs[b], idx) != GroupKey(gs[c], idx)
    requires a < |gs|
    ensures FilterKey(Flatten(gs), idx, GroupKey(gs[a], idx)) == gs[a]
    decreases |gs|
  {
    var v := GroupKey(gs[a], idx);
    FilterKeyAppend(gs[0], Flatten(gs[1..]), idx, v);
    FilterKeyOfGroup(gs[0], idx, v);
    if a == 0 {
      FilterAbsentKey(gs[1..], idx, v);
    } else {
      FilterDistinctGroups(gs[1..], idx, a - 1);
    }
  }

  lemma {:induction false} FilterAbsentKey(gs: seq<seq<Triple>>, idx: Index, v: nat)
    requires forall b :: 0 <= b < |gs| ==> |gs[b]| > 0 && SameKey(gs[b], idx) && GroupKey(gs[b], idx) != v
    ensures FilterKey(Flatten(gs), idx, v) == []
    decreases |gs|
  {
    if |gs| > 0 {
      FilterKeyAppend(gs[0], Flatten(gs[1..]), idx, v);
      FilterKeyOfGroup(gs[0], idx, v);
      FilterAbsentKey(gs[1..], idx, v);
    }
  }

  /** A strictly increasing sequence of ids below `n` that hits every id
      below `n` is 0, 1, …, n-1. */
  lemma {:induction false} IncreasingCoverIsIdentity(ks: seq<nat>, n: nat, a: nat)
    requires forall b, c :: 0 <= b < c < |ks| ==> ks[b] < ks[c]
    requires forall b :: 0 <= b < |ks| ==> ks[b] < n
    requires forall v :: 0 <= v < n ==> v in ks
    requires a < |ks|
    ensures ks[a] == a
    decreases a
  {
    forall c | 0 <= c < a {
      IncreasingCoverIsIdentity(ks, n, c);
    }
    AtLeastIndex(ks, a);
    assert a < n;
    assert a in ks;
    var b :| 0 <= b < |ks| && ks[b] == a;
  }

  lemma {:induction false} AtLeastIndex(ks: seq<nat>, a: nat)
    requires forall b, c :: 0 <= b < c < |ks| ==> ks[b] < ks[c]
    requires a < |ks|
    ensures ks[a] >= a
    decreases a
  {
    if a > 0 {
      AtLeastIndex(ks, a - 1);
    }
  }

  /** The key of every group, in order. */
  function GroupKeys(gs: seq<seq<Triple>>, idx: Index): (r: seq<nat>)
    requires forall a :: 0 <= a < |gs| ==> |gs[a]| > 0
    ensures |r| == |gs|
    ensures forall a :: 0 <= a < |gs| ==> r[a] == GroupKey(gs[a], idx)
  {
    seq(|gs|, a requires 0 <= a < |gs| => GroupKey(gs[a], idx))
  }

  /** The keys of groups that partition `ts` are exactly the keys of `ts`. */
  lemma GroupKeysAreKeys(gs: seq<seq<Triple>>, ts: seq<Triple>, idx: Index, n: nat)
    requires Flatten(gs) == ts
    requires forall a :: 0 <= a < |gs| ==> |gs[a]| > 0 && SameKey(gs[a], idx)
    requires DenseKeys(ts, idx, n)
    ensures forall a :: 0 <= a < |gs| ==> GroupKey(gs[a], idx) < n
    ensures forall v :: 0 <= v < n ==> v in GroupKeys(gs, idx)
  {
    forall a | 0 <= a < |gs|
      ensures GroupKey(gs[a], idx) < n
    {
      FlattenMember(gs, gs[a][0]);
      var i :| 0 <= i < |ts| && ts[i] == gs[a][0];
    }
    forall v | 0 <= v < n
      ensures v in GroupKeys(gs, idx)
    {
      assert v in KeysOf(ts, idx);
      var i :| 0 <= i < |ts| && KeysOf(ts, idx)[i] == v;
      FlattenMember(gs, ts[i]);
      var a :| 0 <= a < |gs| && ts[i] in gs[a];
      var j :| 0 <= j < |gs[a]| && gs[a][j] == ts[i];
      assert GroupKeys(gs, idx)[a] == v;
    }
  }

  /** Groups with increasing keys below `n` that hit every id below `n`
      are keyed 0, 1, …, n-1. */
  lemma GroupKeysAreIds(gs: seq<seq<Triple>>, idx: Index, n: nat)
    requires KeysIncrease(gs, idx)
    requires forall a :: 0 <= a < |gs| ==> GroupKey(gs[a], idx) < n
    requires forall v :: 0 <= v < n ==> v in GroupKeys(gs, idx)
    ensures |gs| == n
    ensures forall a :: 0 <= a < n ==> GroupKey(gs[a], idx) == a
  {
    var ks := GroupKeys(gs, idx);
    forall a | 0 <= a < |gs|
      ensures ks[a] == a
    {
      IncreasingCoverIsIdentity(ks, n, a);
    }
    if |gs| > 0 {
      assert ks[|gs| - 1] < n;
    }
    if n > 0 {
      assert n - 1 in ks;
    }
  }

  /** On input sorted by its leading component whose ids are exactly
      0 .. n-1, there are n runs and run k holds exactly the triples with
      leading id k, in input order. */
  lemma RunsAreIdGroups(ts: seq<Triple>, idx: Index, n: nat)
    requires SortedByKey(ts, idx) && DenseKeys(ts, idx, n)
    ensures |ChunkBy(ts, idx)| == n
    ensures forall k :: 0 <= k < n ==> ChunkBy(ts, idx)[k] == FilterKey(ts, idx, k)
  {
    var r := ChunkBy(ts, idx);
    SortedRunsIncrease(ts, idx);
    GroupKeysAreKeys(r, ts, idx, n);
    GroupKeysAreIds(r, idx, n);
    forall k | 0 <= k < n
      ensures r[k] == FilterKey(ts, idx, k)
    {
      FilterDistinctGroups(r, idx, k);
    }
  }

  /** The same in terms of what `write_index` produces: row k holds the pairs
      of exactly the triples with leading id k and `chunk_sizes[k]` counts
      them. */
  lemma RowsAreIdRows(ts: seq<Triple>, idx: Index, n: nat)
    requires SortedByKey(ts, idx) && DenseKeys(ts, idx, n)
    ensures var layout := WriteIndex(ts, idx);
      && |layout.rows| == n
      && forall k :: 0 <= k < n ==>
        layout.rows[k] == PairsOf(FilterKey(ts, idx, k)) && layout.chunkSizes[k] == |FilterKey(ts, idx, k)|
  {
    RunsAreIdGroups(ts, idx, n);
  }

  // ---------------------------------------------------------------------
  // Building a store, reopening it

  /** The store as the query engine sees it: the dictionary and the three
      index arrays, each possibly not opened. */
  datatype Store = Store(dictionary: Dictionary, subjectIndex: Option<Rows>, predicateIndex: Option<Rows>, objectIndex: Option<Rows>)

  /** Root attributes of the store: one persisted vocabulary per position. */
  type Attributes = map<string, seq<string>>

  /** Everything a build produces: the store, the root attributes and what
      was handed to the array engine for each index. */
  datatype Built = Built(store: Store, attributes: Attributes,
                         subjectLayout: IndexLayout, predicateLayout: IndexLayout, objectLayout: IndexLayout)

  /** The three vocabularies as root attributes, keyed by index name. */
  function DictionaryAttributes(d: Dictionary): (r: Attributes)
    requires StrictlySorted(d.subjects.keys) && StrictlySorted(d.predicates.keys) && StrictlySorted(d.objects.keys)
    ensures r.Keys == {"subject", "predicate", "object"}
    ensures r["subject"] == d.subjects.keys && r["predicate"] == d.predicates.keys && r["object"] == d.objects.keys
  {
    map[Name(Subject) := RdfToValue(d.subjects),
        Name(Predicate) := RdfToValue(d.predicates),
        Name(Object) := RdfToValue(d.objects)]
  }

  /** The part of `from_rdf_and_store` after reading: build the dictionary
      from the kept triples, encode them, persist the vocabularies and write
      the three indexes; the store holds what the writes leave in each
      array. */
  function BuildFrom(ts: seq<StrTriple>, es: seq<string>, ep: seq<string>, eo: seq<string>): (b: Built)
    requires Enumerates(es, Collect(ts, Subject))
    requires Enumerates(ep, Collect(ts, Predicate))
    requires Enumerates(eo, Collect(ts, Object))
    requires NulFreeTerms(ts)
  {
    var d := BuildDictionary(ts, es, ep, eo);
    BuiltDictionaryCovers(ts, es, ep, eo);
    var encoded := Encode(d, ts);
    var ls := WriteIndex(encoded, Subject);
    var lp := WriteIndex(encoded, Predicate);
    var lo := WriteIndex(encoded, Object);
    var st := Store(d, Some(StoredIndex(encoded, Subject)), Some(StoredIndex(encoded, Predicate)),
                    Some(StoredIndex(encoded, Object)));
    Built(st, DictionaryAttributes(d), ls, lp, lo)
  }

  /** `from_rdf_and_store` for the parse result `quads` of the file at
      `path`, with `es`, `ep` and `eo` the iteration orders of the three
      hash sets. An unknown format fails before any term is collected or
      anything is written; a kept term containing U+0000 makes
      `Dictionary::new` fail before anything is written. */
  function FromRdfAndStore(path: string, quads: seq<Quad>, es: seq<string>, ep: seq<string>, eo: seq<string>): (r: Result<Built>)
    requires Enumerates(es, Collect(ReadRdf(quads), Subject))
    requires Enumerates(ep, Collect(ReadRdf(quads), Predicate))
    requires Enumerates(eo, Collect(ReadRdf(quads), Object))
    ensures r.Err? <==> FromPath(path).Err? || New(es, ep, eo).Err?
    ensures r.Err? <==> FromPath(path).Err? || !NulFreeTerms(ReadRdf(quads))
    ensures FromPath(path).Err? ==> r == Err(FromPath(path).error)
    ensures FromPath(path).Ok? && r.Err? ==> r.error == DictionaryCreation
    ensures r.Ok? ==> NulFreeTerms(ReadRdf(quads)) && r.value == BuildFrom(ReadRdf(quads), es, ep, eo)
  {
    DictionaryAcceptsTerms(ReadRdf(quads), es, ep, eo);
    match FromPath(path)
    case Err(e) => Err(e)
    case Ok(_) =>
      if NulFreeTerms(ReadRdf(quads)) then Ok(BuildFrom(ReadRdf(quads), es, ep, eo))
      else Err(DictionaryCreation)
  }

  /** A build encodes every kept triple, in order, and with at most 2^31
      triples each component is the id of its term. */
  lemma BuildEncodesEveryTriple(ts: seq<StrTriple>, es: seq<string>, ep: seq<string>, eo: seq<string>)
    requires Enumerates(es, Collect(ts, Subject))
    requires Enumerates(ep, Collect(ts, Predicate))
    requires Enumerates(eo, Collect(ts, Object))
    requires NulFreeTerms(ts)
    ensures var d := BuildDictionary(ts, es, ep, eo);
      var encoded := Encode(d, ts);
      && |encoded| == |ts|
      && (|ts| <= TWO_POW_31 ==> forall k :: 0 <= k < |ts| ==> EncodesTo(d, ts[k], encoded[k]))
  {
    BuiltDictionaryCovers(ts, es, ep, eo);
  }

  /** Each index of a build is written from the encoded triples and is open
      in the resulting store, holding what the writes leave there: the
      planned rows whenever the index has at most `CHUNK_SIZE` groups. */
  lemma BuildWritesEncodedTriples(ts: seq<StrTriple>, es: seq<string>, ep: seq<string>, eo: seq<string>)
    requires Enumerates(es, Collect(ts, Subject))
    requires Enumerates(ep, Collect(ts, Predicate))
    requires Enumerates(eo, Collect(ts, Object))
    requires NulFreeTerms(ts)
    ensures BuildFrom(ts, es, ep, eo).store.dictionary == BuildDictionary(ts, es, ep, eo)
    ensures BuildFrom(ts, es, ep, eo).subjectLayout == WriteIndex(Encode(BuildDictionary(ts, es, ep, eo), ts), Subject)
    ensures BuildFrom(ts, es, ep, eo).predicateLayout == WriteIndex(Encode(BuildDictionary(ts, es, ep, eo), ts), Predicate)
    ensures BuildFrom(ts, es, ep, eo).objectLayout == WriteIndex(Encode(BuildDictionary(ts, es, ep, eo), ts), Object)
    ensures var e := Encode(BuildDictionary(ts, es, ep, eo), ts);
      && BuildFrom(ts, es, ep, eo).store.subjectIndex == Some(StoredIndex(e, Subject))
      && BuildFrom(ts, es, ep, eo).store.predicateIndex == Some(StoredIndex(e, Predicate))
      && BuildFrom(ts, es, ep, eo).store.objectIndex == Some(StoredIndex(e, Object))
    ensures var b := BuildFrom(ts, es, ep, eo);
      && (|b.subjectLayout.rows| <= CHUNK_SIZE ==> b.store.subjectIndex == Some(b.subjectLayout.rows))
      && (|b.predicateLayout.rows| <= CHUNK_SIZE ==> b.store.predicateIndex == Some(b.predicateLayout.rows))
      && (|b.objectLayout.rows| <= CHUNK_SIZE ==> b.store.objectIndex == Some(b.objectLayout.rows))
  {
  }

  /** `from_zarr` once the three arrays are open: the vocabularies are read
      from the root attributes, subjects first, then predicates, then
      objects, and the first missing one decides the error. */
  function FromZarr(attributes: Attributes, subjectRows: Rows, predicateRows: Rows, objectRows: Rows): (r: Result<Store>)
    ensures "subject" !in attributes ==> r == Err(SubjectsNotInMetadata)
    ensures "subject" in attributes && "predicate" !in attributes ==> r == Err(PredicatesNotInMetadata)
    ensures "subject" in attributes && "predicate" in attributes && "object" !in attributes ==>
      r == Err(ObjectsNotInMetadata)
    ensures r.Ok? <==> && "subject" in attributes && "predicate" in attributes && "object" in attributes
                       && NoDup(attributes["subject"]) && NoDup(attributes["predicate"]) && NoDup(attributes["object"])
                       && NulFree(attributes["subject"]) && NulFree(attributes["predicate"]) && NulFree(attributes["object"])
    ensures r.Err? && "subject" in attributes && "predicate" in attributes && "object" in attributes ==>
      r.error == DictionaryCreation
    ensures r.Ok? ==> && StrictlySorted(r.value.dictionary.subjects.keys)
                      && multiset(r.value.dictionary.subjects.keys) == multiset(attributes["subject"])
    ensures r.Ok? ==> && StrictlySorted(r.value.dictionary.predicates.keys)
                      && multiset(r.value.dictionary.predicates.keys) == multiset(attributes["predicate"])
    ensures r.Ok? ==> && StrictlySorted(r.value.dictionary.objects.keys)
                      && multiset(r.value.dictionary.objects.keys) == multiset(attributes["object"])
    ensures r.Ok? ==> r.value.subjectIndex == Some(subjectRows) && r.value.predicateIndex == Some(predicateRows) && r.value.objectIndex == Some(objectRows)
  {
    if Name(Subject) !in attributes then Err(SubjectsNotInMetadata)
    else if Name(Predicate) !in attributes then Err(PredicatesNotInMetadata)
    else if Name(Object) !in attributes then Err(ObjectsNotInMetadata)
    else
      SortKeepsNoDup(attributes[Name(Subject)]);
      SortKeepsNoDup(attributes[Name(Predicate)]);
      SortKeepsNoDup(attributes[Name(Object)]);
      NulFreePermutation(attributes[Name(Subject)], ValueToRdf(attributes[Name(Subject)]));
      NulFreePermutation(attributes[Name(Predicate)], ValueToRdf(attributes[Name(Predicate)]));
      NulFreePermutation(attributes[Name(Object)], ValueToRdf(attributes[Name(Object)]));
      match New(ValueToRdf(attributes[Name(Subject)]),
                ValueToRdf(attributes[Name(Predicate)]),
                ValueToRdf(attributes[Name(Object)]))
      case Err(e) => Err(e)
      case Ok(d) => Ok(Store(d, Some(subjectRows), Some(predicateRows), Some(objectRows)))
  }

  /** Rebuilding a dictionary from its own persisted vocabularies gives the
      same dictionary. */
  lemma DictionaryReloads(d: Dictionary)
    requires StrictlySorted(d.subjects.keys) && StrictlySorted(d.predicates.keys) && StrictlySorted(d.objects.keys)
    requires NulFree(d.subjects.keys) && NulFree(d.predicates.keys) && NulFree(d.objects.keys)
    ensures New(ValueToRdf(RdfToValue(d.subjects)),
                ValueToRdf(RdfToValue(d.predicates)),
                ValueToRdf(RdfToValue(d.objects))) == Ok(d)
  {
    ValueRoundTrip(d.subjects);
    ValueRoundTrip(d.predicates);
    ValueRoundTrip(d.objects);
    StrictlySortedIff(d.subjects.keys);
    StrictlySortedIff(d.predicates.keys);
    StrictlySortedIff(d.objects.keys);
    SortIdempotent(d.subjects.keys);
    SortIdempotent(d.predicates.keys);
    SortIdempotent(d.objects.keys);
  }

  /** Reopening a built store from its attributes and arrays gives back the
      same store, so every term keeps the id it was given at build time. */
  lemma ReopenRoundTrip(ts: seq<StrTriple>, es: seq<string>, ep: seq<string>, eo: seq<string>)
    requires Enumerates(es, Collect(ts, Subject))
    requires Enumerates(ep, Collect(ts, Predicate))
    requires Enumerates(eo, Collect(ts, Object))
    requires NulFreeTerms(ts)
    ensures var b := BuildFrom(ts, es, ep, eo);
      FromZarr(b.attributes, b.store.subjectIndex.value, b.store.predicateIndex.value, b.store.objectIndex.value) == Ok(b.store)
  {
    var b := BuildFrom(ts, es, ep, eo);
    DictionaryReloads(b.store.dictionary);
  }
}
