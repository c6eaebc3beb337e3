/** Inputs on which the index layout as written and the layout the query
    side reads disagree, each next to what the corrected layout gives. */
module Findings {
  import opened Types
  import opened StrOrder
  import opened Indexes
  import opened Storage
  import opened Query
  import opened Corrected

  /** The dictionary built from `ts` has exactly the vocabularies `s`,
      `p` and `o` when these are sorted and hold the collected terms,
      whatever order the hash sets are iterated in. */
  lemma BuiltVocabularies(ts: seq<StrTriple>, es: seq<string>, ep: seq<string>, eo: seq<string>,
                          s: seq<string>, p: seq<string>, o: seq<string>)
    requires Enumerates(es, Collect(ts, Subject))
    requires Enumerates(ep, Collect(ts, Predicate))
    requires Enumerates(eo, Collect(ts, Object))
    requires NulFreeTerms(ts)
    requires StrictlySorted(s) && StrictlySorted(p) && StrictlySorted(o)
    requires forall x :: x in s <==> x in Collect(ts, Subject)
    requires forall x :: x in p <==> x in Collect(ts, Predicate)
    requires forall x :: x in o <==> x in Collect(ts, Object)
    ensures var d := BuildDictionary(ts, es, ep, eo);
      d.subjects.keys == s && d.predicates.keys == p && d.objects.keys == o
  {
    var d := BuildDictionary(ts, es, ep, eo);
    StrictlySortedUnique(d.subjects.keys, s);
    StrictlySortedUnique(d.predicates.keys, p);
    StrictlySortedUnique(d.objects.keys, o);
  }

  /** Two triples, (a, q, x) and (b, p, y), whose predicates sort the
      other way round from their subjects. */
  const SubjectWitness: seq<StrTriple> := [("a", "q", "x"), ("b", "p", "y")]

  /** Three triples whose objects y, x, y do not come in id order. */
  const ObjectWitness: seq<StrTriple> := [("a", "q", "y"), ("b", "p", "x"), ("c", "p", "y")]

  /** The terms collected from two triples at one position. */
  lemma CollectTwo(t0: StrTriple, t1: StrTriple, idx: Index)
    ensures Collect([t0, t1], idx) == {StrComponent(t0, idx), StrComponent(t1, idx)}
  {
    var ts := [t0, t1];
    assert ts[1..] == [t1] && ts[1..][1..] == [];
    assert Collect(ts[1..][1..], idx) == {};
    assert Collect(ts[1..], idx) == {StrComponent(t1, idx)};
  }

  /** The terms collected from three triples at one position. */
  lemma CollectThree(t0: StrTriple, t1: StrTriple, t2: StrTriple, idx: Index)
    ensures Collect([t0, t1, t2], idx) == {StrComponent(t0, idx), StrComponent(t1, idx), StrComponent(t2, idx)}
  {
    var ts := [t0, t1, t2];
    assert ts[1..] == [t1, t2];
    CollectTwo(t1, t2, idx);
  }

  /** No term of either witness contains U+0000, so the dictionary accepts
      them. */
  lemma WitnessesNulFree()
    ensures NulFreeTerms(SubjectWitness) && NulFreeTerms(ObjectWitness)
  {
  }

  /** A build encodes the first witness as (0, 1, 0), (1, 0, 1). */
  lemma SubjectWitnessEncoding(es: seq<string>, ep: seq<string>, eo: seq<string>)
    requires Enumerates(es, Collect(SubjectWitness, Subject))
    requires Enumerates(ep, Collect(SubjectWitness, Predicate))
    requires Enumerates(eo, Collect(SubjectWitness, Object))
    ensures NulFreeTerms(SubjectWitness)
    ensures Encode(BuildDictionary(SubjectWitness, es, ep, eo), SubjectWitness) == [(0, 1, 0), (1, 0, 1)]
  {
    WitnessesNulFree();
    var ts := SubjectWitness;
    CollectTwo(ts[0], ts[1], Subject);
    CollectTwo(ts[0], ts[1], Predicate);
    CollectTwo(ts[0], ts[1], Object);
    BuiltVocabularies(ts, es, ep, eo, ["a", "b"], ["p", "q"], ["x", "y"]);
    EncodeCrossedPair(BuildDictionary(ts, es, ep, eo), "a", "b", "p", "q", "x", "y");
  }

  /** Two triples whose predicates sort the other way round from their
      subjects, under two-term vocabularies. */
  lemma EncodeCrossedPair(d: Dictionary.Dictionary, a: string, b: string, p: string, q: string, x: string, y: string)
    requires a != b && p != q && x != y
    requires d.subjects.keys == [a, b] && d.predicates.keys == [p, q] && d.objects.keys == [x, y]
    ensures Encode(d, [(a, q, x), (b, p, y)]) == [(0, 1, 0), (1, 0, 1)]
  {
    assert DistinctTerms(d);
    EncodeOne(d, (b, p, y), 1, 0, 1);
    EncodeCons(d, (b, p, y), [], (1, 0, 1));
    EncodeOne(d, (a, q, x), 0, 1, 0);
    EncodeCons(d, (a, q, x), [(b, p, y)], (0, 1, 0));
  }

  /** A build encodes the second witness as (0, 1, 1), (1, 0, 0), (2, 0, 1). */
  lemma ObjectWitnessEncoding(es: seq<string>, ep: seq<string>, eo: seq<string>)
    requires Enumerates(es, Collect(ObjectWitness, Subject))
    requires Enumerates(ep, Collect(ObjectWitness, Predicate))
    requires Enumerates(eo, Collect(ObjectWitness, Object))
    ensures NulFreeTerms(ObjectWitness)
    ensures Encode(BuildDictionary(ObjectWitness, es, ep, eo), ObjectWitness) == [(0, 1, 1), (1, 0, 0), (2, 0, 1)]
  {
    WitnessesNulFree();
    var ts := ObjectWitness;
    CollectThree(ts[0], ts[1], ts[2], Subject);
    CollectThree(ts[0], ts[1], ts[2], Predicate);
    CollectThree(ts[0], ts[1], ts[2], Object);
    BuiltVocabularies(ts, es, ep, eo, ["a", "b", "c"], ["p", "q"], ["x", "y"]);
    EncodeUnsortedObjects(BuildDictionary(ts, es, ep, eo), "a", "b", "c", "p", "q", "x", "y");
  }

  /** Three triples whose objects come as y, x, y, under vocabularies
      a, b, c / p, q / x, y. */
  lemma EncodeUnsortedObjects(d: Dictionary.Dictionary, a: string, b: string, c: string,
                              p: string, q: string, x: string, y: string)
    requires a != b && a != c && b != c && p != q && x != y
    requires d.subjects.keys == [a, b, c] && d.predicates.keys == [p, q] && d.objects.keys == [x, y]
    ensures Encode(d, [(a, q, y), (b, p, x), (c, p, y)]) == [(0, 1, 1), (1, 0, 0), (2, 0, 1)]
  {
    assert DistinctTerms(d);
    EncodeOne(d, (c, p, y), 2, 0, 1);
    EncodeCons(d, (c, p, y), [], (2, 0, 1));
    EncodeOne(d, (b, p, x), 1, 0, 0);
    EncodeCons(d, (b, p, x), [(c, p, y)], (1, 0, 0));
    EncodeOne(d, (a, q, y), 0, 1, 1);
    EncodeCons(d, (a, q, y), [(b, p, x), (c, p, y)], (0, 1, 1));
  }

  /** Small vocabularies without repetitions. */
  predicate DistinctTerms(d: Dictionary.Dictionary) {
    && NoDup(d.subjects.keys) && NoDup(d.predicates.keys) && NoDup(d.objects.keys)
    && SmallVocabularies(d)
  }

  /** Under small vocabularies without repetitions, a triple encodes to
      the positions of its terms. */
  lemma EncodeOne(d: Dictionary.Dictionary, t: StrTriple, i: nat, j: nat, k: nat)
    requires DistinctTerms(d)
    requires i < |d.subjects.keys| && d.subjects.keys[i] == t.0
    requires j < |d.predicates.keys| && d.predicates.keys[j] == t.1
    requires k < |d.objects.keys| && d.objects.keys[k] == t.2
    ensures EncodeTriple(d, t) == Some((i, j, k))
  {
  }

  /** A triple that encodes is encoded in front of the rest. */
  lemma EncodeCons(d: Dictionary.Dictionary, t: StrTriple, ts: seq<StrTriple>, e: Triple)
    requires EncodeTriple(d, t) == Some(e)
    ensures Encode(d, [t] + ts) == [e] + Encode(d, ts)
  {
    assert ([t] + ts)[1..] == ts;
  }

  /** Every index row keeps components 0 and 1 of its triples. The subject
      index therefore keeps the subject and predicate, and the query side,
      which reads a subject row as (predicate, object), answers subject 0
      of the store built from (a, q, x), (b, p, y) with (0, 0, 1) instead
      of (0, 1, 0). The corrected layout returns (0, 1, 0). */
  lemma SubjectRowsLoseObject(es: seq<string>, ep: seq<string>, eo: seq<string>)
    requires Enumerates(es, Collect(SubjectWitness, Subject))
    requires Enumerates(ep, Collect(SubjectWitness, Predicate))
    requires Enumerates(eo, Collect(SubjectWitness, Object))
    ensures NulFreeTerms(SubjectWitness)
    ensures Encode(BuildDictionary(SubjectWitness, es, ep, eo), SubjectWitness) == [(0, 1, 0), (1, 0, 1)]
    ensures WriteIndex([(0, 1, 0), (1, 0, 1)], Subject).rows == [[0, 1], [1, 0]]
    ensures var st := BuildFrom(SubjectWitness, es, ep, eo).store;
      && st.subjectIndex == Some([[0, 1], [1, 0]])
      && WellFormed(st)
      && TriplesMatching(st, Some(0), None, None) == Ok([(0, 0, 1)])
    ensures Select(Pattern(Some(0), None, None), [(0, 1, 0), (1, 0, 1)]) == [(0, 1, 0)]
    ensures var d := BuildDictionary(SubjectWitness, es, ep, eo);
      TriplesMatching(CorrectedStore(d, [(0, 1, 0), (1, 0, 1)], 2, 2, 2), Some(0), None, None) == Ok([(0, 1, 0)])
  {
    WitnessesNulFree();
    var ts := SubjectWitness;
    var e: seq<Triple> := [(0, 1, 0), (1, 0, 1)];
    SubjectWitnessEncoding(es, ep, eo);
    SubjectRows();
    BuildWritesEncodedTriples(ts, es, ep, eo);
    BuiltStoreWellFormed(ts, es, ep, eo);
    var st := BuildFrom(ts, es, ep, eo).store;
    ProbeSubjectRows(st);
    assert Select(Pattern(Some(0), None, None), e[1..]) == [];
    CorrectedQueryExact(BuildDictionary(ts, es, ep, eo), e, 2, 2, 2, Some(0), None, None);
  }

  /** The two runs of subjects 0 and 1 and the rows written for them. */
  lemma SubjectRows()
    ensures WriteIndex([(0, 1, 0), (1, 0, 1)], Subject).rows == [[0, 1], [1, 0]]
  {
    var ts: seq<Triple> := [(0, 1, 0), (1, 0, 1)];
    assert ChunkBy(ts[1..], Subject) == [[(1, 0, 1)]];
    var gs := [[(0, 1, 0)], [(1, 0, 1)]];
    assert ChunkBy(ts, Subject) == gs;
    assert PairsOf(gs[0]) == [0, 1];
    assert PairsOf(gs[1]) == [1, 0];
  }

  /** Probing those rows for subject 0. */
  lemma ProbeSubjectRows(st: Store)
    requires WellFormed(st) && st.subjectIndex == Some([[0, 1], [1, 0]])
    ensures TriplesMatching(st, Some(0), None, None) == Ok([(0, 0, 1)])
  {
    assert Pairs([0, 1]) == [(0, 1)];
    var pat := Pattern(Some(0), None, None);
    assert CastPattern(Some(0), None, None) == pat;
    assert FilterPairs(pat, [(0, 1)]) == [(0, 0, 1)];
  }

  /** Rows follow runs of adjacent equal keys, not ids. In the store built
      from (a, q, y), (b, p, x), (c, p, y) the objects are 1, 0, 1, so the
      object index holds three rows: probing object 0 reads the run of the
      first triple and answers (0, 1, 0) instead of (1, 0, 0), and object
      2, which no triple has, still finds a row. */
  lemma UnsortedRunsMisplaceIds(es: seq<string>, ep: seq<string>, eo: seq<string>)
    requires Enumerates(es, Collect(ObjectWitness, Subject))
    requires Enumerates(ep, Collect(ObjectWitness, Predicate))
    requires Enumerates(eo, Collect(ObjectWitness, Object))
    ensures NulFreeTerms(ObjectWitness)
    ensures Encode(BuildDictionary(ObjectWitness, es, ep, eo), ObjectWitness) == [(0, 1, 1), (1, 0, 0), (2, 0, 1)]
    ensures WriteIndex([(0, 1, 1), (1, 0, 0), (2, 0, 1)], Object).rows == [[0, 1], [1, 0], [2, 0]]
    ensures var st := BuildFrom(ObjectWitness, es, ep, eo).store;
      && st.objectIndex == Some([[0, 1], [1, 0], [2, 0]])
      && WellFormed(st)
      && TriplesMatching(st, None, None, Some(0)) == Ok([(0, 1, 0)])
      && TriplesMatching(st, None, None, Some(2)) == Ok([(2, 0, 2)])
    ensures Select(Pattern(None, None, Some(0)), [(0, 1, 1), (1, 0, 0), (2, 0, 1)]) == [(1, 0, 0)]
  {
    WitnessesNulFree();
    BuiltObjectRows(es, ep, eo);
    ProbeObjectRuns(BuildFrom(ObjectWitness, es, ep, eo).store);
  }

  /** The object rows of the store built from the second witness. */
  lemma BuiltObjectRows(es: seq<string>, ep: seq<string>, eo: seq<string>)
    requires Enumerates(es, Collect(ObjectWitness, Subject))
    requires Enumerates(ep, Collect(ObjectWitness, Predicate))
    requires Enumerates(eo, Collect(ObjectWitness, Object))
    ensures NulFreeTerms(ObjectWitness)
    ensures Encode(BuildDictionary(ObjectWitness, es, ep, eo), ObjectWitness) == [(0, 1, 1), (1, 0, 0), (2, 0, 1)]
    ensures WriteIndex([(0, 1, 1), (1, 0, 0), (2, 0, 1)], Object).rows == [[0, 1], [1, 0], [2, 0]]
    ensures var st := BuildFrom(ObjectWitness, es, ep, eo).store;
      st.objectIndex == Some([[0, 1], [1, 0], [2, 0]]) && WellFormed(st)
  {
    WitnessesNulFree();
    var ts := ObjectWitness;
    ObjectWitnessEncoding(es, ep, eo);
    RunsOfObjects();
    BuildWritesEncodedTriples(ts, es, ep, eo);
    BuiltStoreWellFormed(ts, es, ep, eo);
  }

  /** The corrected layout keys rows by id: the same encoded triples give
      object 0 its own triple and object 2 no row. */
  lemma IdRowsPlaceIds(es: seq<string>, ep: seq<string>, eo: seq<string>)
    requires Enumerates(es, Collect(ObjectWitness, Subject))
    requires Enumerates(ep, Collect(ObjectWitness, Predicate))
    requires Enumerates(eo, Collect(ObjectWitness, Object))
    ensures NulFreeTerms(ObjectWitness)
    ensures var d := BuildDictionary(ObjectWitness, es, ep, eo);
      var st := CorrectedStore(d, Encode(d, ObjectWitness), 3, 2, 2);
      && TriplesMatching(st, None, None, Some(0)) == Ok([(1, 0, 0)])
      && TriplesMatching(st, None, None, Some(2)) == Err(ChunkNotFound(2))
  {
    WitnessesNulFree();
    ObjectWitnessEncoding(es, ep, eo);
    ProbeIdRows(BuildDictionary(ObjectWitness, es, ep, eo));
  }

  /** Probing the corrected rows of the encoded second witness. */
  lemma ProbeIdRows(d: Dictionary.Dictionary)
    ensures var st := CorrectedStore(d, [(0, 1, 1), (1, 0, 0), (2, 0, 1)], 3, 2, 2);
      && TriplesMatching(st, None, None, Some(0)) == Ok([(1, 0, 0)])
      && TriplesMatching(st, None, None, Some(2)) == Err(ChunkNotFound(2))
  {
    var ts: seq<Triple> := [(0, 1, 1), (1, 0, 0), (2, 0, 1)];
    var p0 := Pattern(None, None, Some(0));
    assert CastPattern(None, None, Some(0)) == p0;
    assert CastPattern(None, None, Some(2)) == Pattern(None, None, Some(2));
    assert Select(p0, ts[2..]) == [];
    assert Select(p0, ts) == [(1, 0, 0)];
    CorrectedQueryExact(d, ts, 3, 2, 2, None, None, Some(0));
    CorrectedQueryExact(d, ts, 3, 2, 2, None, None, Some(2));
  }

  /** The three runs of the second witness and the rows written for them. */
  lemma RunsOfObjects()
    ensures WriteIndex([(0, 1, 1), (1, 0, 0), (2, 0, 1)], Object).rows == [[0, 1], [1, 0], [2, 0]]
  {
    var ts: seq<Triple> := [(0, 1, 1), (1, 0, 0), (2, 0, 1)];
    assert ChunkBy(ts[2..], Object) == [[(2, 0, 1)]];
    assert ChunkBy(ts[1..], Object) == [[(1, 0, 0)], [(2, 0, 1)]];
    var gs := [[(0, 1, 1)], [(1, 0, 0)], [(2, 0, 1)]];
    assert ChunkBy(ts, Object) == gs;
    assert PairsOf(gs[0]) == [0, 1];
    assert PairsOf(gs[1]) == [1, 0];
    assert PairsOf(gs[2]) == [2, 0];
  }

  /** Probing those rows for objects 0 and 2. */
  lemma ProbeObjectRuns(st: Store)
    requires WellFormed(st) && st.objectIndex == Some([[0, 1], [1, 0], [2, 0]])
    ensures TriplesMatching(st, None, None, Some(0)) == Ok([(0, 1, 0)])
    ensures TriplesMatching(st, None, None, Some(2)) == Ok([(2, 0, 2)])
  {
    assert Pairs([0, 1]) == [(0, 1)];
    assert Pairs([2, 0]) == [(2, 0)];
    var p0 := Pattern(None, None, Some(0));
    var p2 := Pattern(None, None, Some(2));
    assert CastPattern(None, None, Some(0)) == p0;
    assert CastPattern(None, None, Some(2)) == p2;
    assert FilterPairs(p0, [(0, 1)]) == [(0, 1, 0)];
    assert FilterPairs(p2, [(2, 0)]) == [(2, 0, 2)];
  }

  /** Batch i is written at row i * `CHUNK_SIZE`, but a batch of
      `CHUNK_SIZE` rows spans one array row per pair. Once an index has more
      than `CHUNK_SIZE` ids and one of the first `CHUNK_SIZE` ids has two
      triples, the first write reaches past the start of the second. */
  lemma BatchOffsetsOverlap(rows: Rows, k: nat)
    requires |rows| > CHUNK_SIZE && NonEmptyEvenRows(rows)
    requires k < CHUNK_SIZE && |rows[k]| >= 4
    ensures var w := SerializeWrites(rows);
      |w| >= 2 && w[0].start + w[0].numRows > w[1].start
  {
    var first := rows[..CHUNK_SIZE];
    assert NonEmptyEvenRows(first) by {
      assert forall j :: 0 <= j < |first| ==> first[j] == rows[j];
    }
    assert first[k] == rows[k];
    FlattenAtLeast(first, k);
  }

  /** The same rows written contiguously never overlap: each batch starts
      exactly where the previous one ended. */
  lemma ContiguousWritesDoNotOverlap(rows: Rows)
    requires NonEmptyEvenRows(rows)
    ensures var w := ContiguousWrites(rows, 0);
      forall j :: 0 < j < |w| ==> w[j - 1].start + w[j - 1].numRows <= w[j].start
  {
    TilesAdjacent(ContiguousWrites(rows, 0), 0);
  }
}
