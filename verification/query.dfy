/** The query side: probing one chunk of an index array, and answering a
    triple pattern by probing the index of the first bound component and
    filtering on the others. */
module Query {
  import opened Types
  import opened Indexes
  import opened Storage

  /** `Query::query`: the elements of one chunk of an index array. A chunk
      the array does not hold is reported with its own index. */
  function QueryChunk(rows: Rows, chunk: nat): (r: Result<seq<nat>>)
    ensures r.Ok? <==> chunk < |rows|
    ensures r.Ok? ==> r.value == rows[chunk]
    ensures r.Err? ==> r.error == ChunkNotFound(chunk)
  {
    if chunk < |rows| then Ok(rows[chunk]) else Err(ChunkNotFound(chunk))
  }

  /** `chunks(2)` over a row of even length: its consecutive pairs. */
  function Pairs(row: seq<nat>): (r: seq<(nat, nat)>)
    requires |row| % 2 == 0
    ensures |r| == |row| / 2
    ensures forall i :: 0 <= i < |r| ==> r[i] == (row[2 * i], row[2 * i + 1])
    decreases |row|
  {
    if |row| == 0 then []
    else
      var rest := Pairs(row[2..]);
      var r := [(row[0], row[1])] + rest;
      assert forall i :: 1 <= i < |r| ==> r[i] == rest[i - 1];
      r
  }

  /** Reading back the pairs a group was written with gives the first two
      components of each of its triples. */
  lemma PairsOfRoundTrip(g: seq<Triple>)
    ensures |Pairs(PairsOf(g))| == |g|
    ensures forall i :: 0 <= i < |g| ==> Pairs(PairsOf(g))[i] == (g[i].0, g[i].1)
  {
  }

  /** A query pattern after the casts `s as u64`, `p as u64`, `o as u64`. */
  datatype Pattern = Pattern(s: Option<nat>, p: Option<nat>, o: Option<nat>)

  function CastId(x: Option<int>): (r: Option<nat>)
    requires x.Some? ==> IsI32(x.value)
    ensures r.Some? <==> x.Some?
    ensures x.Some? ==> r.value == I32AsU64(x.value)
  {
    match x
    case None => None
    case Some(v) => Some(I32AsU64(v))
  }

  predicate IsI32Id(x: Option<int>) {
    x.Some? ==> IsI32(x.value)
  }

  function CastPattern(s: Option<int>, p: Option<int>, o: Option<int>): Pattern
    requires IsI32Id(s) && IsI32Id(p) && IsI32Id(o)
  {
    Pattern(CastId(s), CastId(p), CastId(o))
  }

  /** A triple agrees with every bound component of the pattern. */
  predicate Matches(pat: Pattern, t: Triple) {
    && (pat.s.Some? ==> t.0 == pat.s.value)
    && (pat.p.Some? ==> t.1 == pat.p.value)
    && (pat.o.Some? ==> t.2 == pat.o.value)
  }

  /** The index a pattern is answered from and the chunk probed in it: the
      first bound component in subject, predicate, object order. A pattern
      with nothing bound has no probe; it is a full scan. */
  function Probe(pat: Pattern): (r: Option<(Index, nat)>)
    ensures r.None? <==> pat.s.None? && pat.p.None? && pat.o.None?
    ensures pat.s.Some? ==> r == Some((Subject, pat.s.value))
    ensures pat.s.None? && pat.p.Some? ==> r == Some((Predicate, pat.p.value))
    ensures pat.s.None? && pat.p.None? && pat.o.Some? ==> r == Some((Object, pat.o.value))
  {
    if pat.s.Some? then Some((Subject, pat.s.value))
    else if pat.p.Some? then Some((Predicate, pat.p.value))
    else if pat.o.Some? then Some((Object, pat.o.value))
    else None
  }

  /** The triple a stored pair stands for in the probed index: the bound id
      goes in its own slot and the pair fills the other two, in order. */
  function Reconstruct(pat: Pattern, pair: (nat, nat)): (r: Option<Triple>)
    ensures r.Some? <==> Probe(pat).Some?
    ensures r.Some? ==> At(r.value, Slot(Probe(pat).value.0)) == Probe(pat).value.1
    ensures r.Some? ==>
      var dims := DimensionIndexes(Probe(pat).value.0);
      At(r.value, Slot(dims[0])) == pair.0 && At(r.value, Slot(dims[1])) == pair.1
  {
    match (pat.s, pat.p, pat.o)
    case (Some(s), _, _) => Some((s, pair.0, pair.1))
    case (None, Some(p), _) => Some((pair.0, p, pair.1))
    case (None, None, Some(o)) => Some((pair.0, pair.1, o))
    case _ => None
  }

  /** The `filter_map` over a probed chunk: reconstruct each pair, keep it
      when the predicate and object filters accept it. */
  function FilterPairs(pat: Pattern, pairs: seq<(nat, nat)>): (r: seq<Triple>)
    ensures |r| <= |pairs|
    ensures forall t :: t in r <==>
      exists i :: 0 <= i < |pairs| && Reconstruct(pat, pairs[i]) == Some(t) && Matches(pat, t)
  {
    if |pairs| == 0 then []
    else
      var rest := FilterPairs(pat, pairs[1..]);
      assert forall i :: 1 <= i < |pairs| ==> pairs[i] == pairs[1..][i - 1];
      match Reconstruct(pat, pairs[0])
      case Some(t) =>
        if (pat.p.None? || t.1 == pat.p.value) && (pat.o.None? || t.2 == pat.o.value) then
          [t] + rest
        else
          rest
      case None => rest
  }

  /** `[i, pair0, pair1]` for every pair of chunk `i`. */
  function Tag(i: nat, pairs: seq<(nat, nat)>): (r: seq<Triple>)
    ensures |r| == |pairs|
    ensures forall j :: 0 <= j < |r| ==> r[j] == (i, pairs[j].0, pairs[j].1)
  {
    seq(|pairs|, j requires 0 <= j < |pairs| => (i, pairs[j].0, pairs[j].1))
  }

  /** The full scan from chunk `i` on: every chunk of the subject array
      in turn, until the first chunk that does not exist. */
  function ScanFrom(rows: Rows, i: nat): seq<Triple>
    requires EvenRows(rows)
    decreases |rows| - i
  {
    match QueryChunk(rows, i)
    case Err(_) => []
    case Ok(chunk) => Tag(i, Pairs(chunk)) + ScanFrom(rows, i + 1)
  }

  function FullScan(rows: Rows): seq<Triple>
    requires EvenRows(rows)
  {
    ScanFrom(rows, 0)
  }

  /** A triple comes out of the scan from chunk `i` exactly when its first
      component names a chunk at or after `i` and the other two are a pair
      of that chunk. */
  lemma {:induction false} ScanMember(rows: Rows, i: nat, t: Triple)
    requires EvenRows(rows)
    ensures t in ScanFrom(rows, i) <==> i <= t.0 < |rows| && (t.1, t.2) in Pairs(rows[t.0])
    decreases |rows| - i
  {
    if i < |rows| {
      ScanMember(rows, i + 1, t);
      var head := Tag(i, Pairs(rows[i]));
      assert ScanFrom(rows, i) == head + ScanFrom(rows, i + 1);
      if t in head {
        var j :| 0 <= j < |head| && head[j] == t;
        assert Pairs(rows[i])[j] == (t.1, t.2);
      }
      if t.0 == i && (t.1, t.2) in Pairs(rows[i]) {
        var j :| 0 <= j < |Pairs(rows[i])| && Pairs(rows[i])[j] == (t.1, t.2);
        assert head[j] == t;
      }
    }
  }

  /** The scan yields one triple per stored pair. */
  lemma {:induction false} ScanCount(rows: Rows, i: nat)
    requires EvenRows(rows) && i <= |rows|
    ensures |ScanFrom(rows, i)| == Sum(ChunkSizes(rows[i..]))
    decreases |rows| - i
  {
    if i < |rows| {
      ScanCount(rows, i + 1);
      assert rows[i..][1..] == rows[i + 1..];
      assert ChunkSizes(rows[i..])[1..] == ChunkSizes(rows[i + 1..]);
    }
  }

  /** Everything a full scan yields: one triple per stored pair, and
      exactly the pairs of each chunk tagged with the chunk's index. */
  lemma FullScanContents(rows: Rows)
    requires EvenRows(rows)
    ensures |FullScan(rows)| == Sum(ChunkSizes(rows))
    ensures forall t :: t in FullScan(rows) <==> t.0 < |rows| && (t.1, t.2) in Pairs(rows[t.0])
  {
    ScanCount(rows, 0);
    assert rows[0..] == rows;
    forall t
      ensures t in FullScan(rows) <==> t.0 < |rows| && (t.1, t.2) in Pairs(rows[t.0])
    {
      ScanMember(rows, 0, t);
    }
  }

  /** `results.extend(...)` for one chunk: appends `[i, pair0, pair1]` for
      each pair of the chunk, in order. */
  method ExtendTagged(results: seq<Triple>, i: nat, chunk: seq<nat>) returns (r: seq<Triple>)
    requires |chunk| % 2 == 0
    ensures r == results + Tag(i, Pairs(chunk))
  {
    r := results;
    var j := 0;
    while j < |chunk| / 2
      invariant 0 <= j <= |chunk| / 2
      invariant r == results + Tag(i, Pairs(chunk))[..j]
    {
      r := r + [(i, chunk[2 * j], chunk[2 * j + 1])];
      j := j + 1;
    }
    assert Tag(i, Pairs(chunk))[..j] == Tag(i, Pairs(chunk));
  }

  /** The loop of the unbound case: probe chunk 0, 1, ... of the subject
      array and emit `[i, pair0, pair1]` for each pair, until a probe finds
      no chunk. */
  method FullScanLoop(rows: Rows) returns (results: seq<Triple>)
    requires EvenRows(rows)
    ensures results == FullScan(rows)
    ensures |results| == Sum(ChunkSizes(rows))
    ensures forall t :: t in results <==> t.0 < |rows| && (t.1, t.2) in Pairs(rows[t.0])
  {
    results := [];
    var i: nat := 0;
    var probe := QueryChunk(rows, i);
    while probe.Ok?
      invariant i <= |rows|
      invariant probe == QueryChunk(rows, i)
      invariant results + ScanFrom(rows, i) == FullScan(rows)
      decreases |rows| - i
    {
      ScanStep(rows, i, results);
      results := ExtendTagged(results, i, probe.value);
      i := i + 1;
      probe := QueryChunk(rows, i);
    }
    ScanEnd(rows, i, results);
    FullScanContents(rows);
  }

  /** One round of the loop: the results so far followed by the scan from
      chunk `i` are the results extended with chunk `i`, followed by the
      scan from chunk `i + 1`. */
  lemma ScanStep(rows: Rows, i: nat, results: seq<Triple>)
    requires EvenRows(rows) && i < |rows|
    ensures results + ScanFrom(rows, i) == (results + Tag(i, Pairs(rows[i]))) + ScanFrom(rows, i + 1)
  {
    assert ScanFrom(rows, i) == Tag(i, Pairs(rows[i])) + ScanFrom(rows, i + 1);
  }

  /** Past the last chunk the scan yields nothing. */
  lemma ScanEnd(rows: Rows, i: nat, results: seq<Triple>)
    requires EvenRows(rows) && i >= |rows|
    ensures results + ScanFrom(rows, i) == results
  {
    assert ScanFrom(rows, i) == [];
  }

  /** The index array of one position, if the store has it open. */
  function IndexRows(st: Store, idx: Index): Option<Rows> {
    match idx
    case Subject => st.subjectIndex
    case Predicate => st.predicateIndex
    case Object => st.objectIndex
  }

  /** Every open index array splits into whole pairs, as `write_index`
      writes them; `chunks(2)` on an odd chunk would leave a lone element
      and `pair[1]` would panic. */
  predicate WellFormed(st: Store) {
    && (st.subjectIndex.Some? ==> EvenRows(st.subjectIndex.value))
    && (st.predicateIndex.Some? ==> EvenRows(st.predicateIndex.value))
    && (st.objectIndex.Some? ==> EvenRows(st.objectIndex.value))
  }

  /** The index a pattern needs: the probed one, or the subject index for
      a full scan. */
  function Needed(pat: Pattern): Index {
    if Probe(pat).Some? then Probe(pat).value.0 else Subject
  }

  /** `triples_matching`. A missing index is an invalid query; a probe of a
      chunk the index does not hold fails with that chunk; otherwise every
      returned triple agrees with the whole pattern. */
  function TriplesMatching(st: Store, s: Option<int>, p: Option<int>, o: Option<int>): (r: Result<seq<Triple>>)
    requires IsI32Id(s) && IsI32Id(p) && IsI32Id(o)
    requires WellFormed(st)
    ensures var pat := CastPattern(s, p, o);
      r == Err(InvalidQuery) <==> IndexRows(st, Needed(pat)).None?
    ensures var pat := CastPattern(s, p, o);
      Probe(pat).Some? && IndexRows(st, Needed(pat)).Some? ==>
        && (r.Err? <==> Probe(pat).value.1 >= |IndexRows(st, Needed(pat)).value|)
        && (r.Err? ==> r.error == ChunkNotFound(Probe(pat).value.1))
        && (r.Ok? ==> |r.value| <= |IndexRows(st, Needed(pat)).value[Probe(pat).value.1]| / 2)
    ensures var pat := CastPattern(s, p, o);
      Probe(pat).Some? && r.Ok? ==>
        r.value == Select(pat, ReconstructAll(pat, Pairs(IndexRows(st, Needed(pat)).value[Probe(pat).value.1])))
    ensures var pat := CastPattern(s, p, o);
      Probe(pat).None? && st.subjectIndex.Some? ==> r == Ok(FullScan(st.subjectIndex.value))
    ensures r.Ok? ==> forall t :: t in r.value ==> Matches(CastPattern(s, p, o), t)
  {
    var pat := CastPattern(s, p, o);
    match Probe(pat)
    case None =>
      (match st.subjectIndex
       case None => Err(InvalidQuery)
       case Some(rows) => Ok(FullScan(rows)))
    case Some((idx, chunk)) =>
      match IndexRows(st, idx)
      case None => Err(InvalidQuery)
      case Some(rows) =>
        match QueryChunk(rows, chunk)
        case Err(e) => Err(e)
        case Ok(elements) =>
          ProbeResultInStoredOrder(pat, Pairs(elements));
          Ok(FilterPairs(pat, Pairs(elements)))
  }

  /** The triples of `ts` a pattern selects, in their order: what a query
      over a store built from `ts` is meant to return. */
  function Select(pat: Pattern, ts: seq<Triple>): (r: seq<Triple>)
    ensures |r| <= |ts|
    ensures forall t :: t in r <==> t in ts && Matches(pat, t)
  {
    if |ts| == 0 then []
    else
      var rest := Select(pat, ts[1..]);
      assert forall t :: t in ts <==> t == ts[0] || t in ts[1..] by {
        assert ts == [ts[0]] + ts[1..];
      }
      if Matches(pat, ts[0]) then [ts[0]] + rest else rest
  }

  /** Filtering reconstructed pairs is selection on the triples they
      reconstruct to: the residual filters accept exactly the triples that
      agree with the pattern. */
  lemma {:induction false} FilterPairsSelects(pat: Pattern, pairs: seq<(nat, nat)>, g: seq<Triple>)
    requires |pairs| == |g|
    requires forall i :: 0 <= i < |g| ==> Reconstruct(pat, pairs[i]) == Some(g[i])
    ensures FilterPairs(pat, pairs) == Select(pat, g)
    decreases |g|
  {
    if |g| > 0 {
      FilterPairsSelects(pat, pairs[1..], g[1..]);
    }
  }

  /** A negative id becomes a chunk index of at least 2^64 - 2^31 after the
      `i32` to `u64` cast, so it is reported as a missing chunk. */
  lemma NegativeIdNotFound(st: Store, x: int, p: Option<int>, o: Option<int>)
    requires IsI32(x) && x < 0 && IsI32Id(p) && IsI32Id(o)
    requires WellFormed(st) && st.subjectIndex.Some? && |st.subjectIndex.value| <= TWO_POW_32
    ensures TriplesMatching(st, Some(x), p, o) == Err(ChunkNotFound(x + TWO_POW_64))
  {
  }

  /** Selecting within the triples whose probed component is the bound id
      loses nothing: a triple with another id there cannot match. */
  lemma {:induction false} SelectWithinKey(pat: Pattern, ts: seq<Triple>, idx: Index, v: nat)
    requires Probe(pat) == Some((idx, v))
    ensures Select(pat, FilterKey(ts, idx, v)) == Select(pat, ts)
    decreases |ts|
  {
    if |ts| > 0 {
      SelectWithinKey(pat, ts[1..], idx, v);
    }
  }

  /** The object index as written answers an object-only pattern exactly
      on input sorted by object with dense object ids, up to `CHUNK_SIZE`
      of them: its rows keep the subject and predicate of each triple,
      which are the two components that index needs, and a single batch
      writes them all. */
  lemma ObjectQueryExact(st: Store, ts: seq<Triple>, n: nat, v: int)
    requires SortedByKey(ts, Object) && DenseKeys(ts, Object, n) && n <= CHUNK_SIZE
    requires 0 <= v < n && IsI32(v)
    requires WellFormed(st) && st.objectIndex == Some(StoredIndex(ts, Object))
    ensures TriplesMatching(st, None, None, Some(v)) == Ok(Select(Pattern(None, None, Some(v)), ts))
  {
    var pat := Pattern(None, None, Some(v));
    assert CastPattern(None, None, Some(v)) == pat;
    ObjectRowSelects(ts, n, v);
    assert st.objectIndex.value == WriteIndex(ts, Object).rows;
  }

  /** Row v of the planned object index, filtered for object v, is the
      selection of `ts` for object v. */
  lemma ObjectRowSelects(ts: seq<Triple>, n: nat, v: nat)
    requires SortedByKey(ts, Object) && DenseKeys(ts, Object, n) && v < n
    ensures var rows := WriteIndex(ts, Object).rows;
      && |rows| == n && |rows[v]| % 2 == 0
      && FilterPairs(Pattern(None, None, Some(v)), Pairs(rows[v])) == Select(Pattern(None, None, Some(v)), ts)
  {
    var pat := Pattern(None, None, Some(v));
    RowsAreIdRows(ts, Object, n);
    var g := FilterKey(ts, Object, v);
    PairsOfRoundTrip(g);
    FilterPairsSelects(pat, Pairs(PairsOf(g)), g);
    SelectWithinKey(pat, ts, Object, v);
  }

  /** Every stored pair of a probed chunk, reconstructed. */
  function ReconstructAll(pat: Pattern, pairs: seq<(nat, nat)>): (r: seq<Triple>)
    requires Probe(pat).Some?
    ensures |r| == |pairs|
    ensures forall i :: 0 <= i < |pairs| ==> Reconstruct(pat, pairs[i]) == Some(r[i])
  {
    seq(|pairs|, i requires 0 <= i < |pairs| => Reconstruct(pat, pairs[i]).value)
  }

  /** A probe's result is the chunk's reconstructed pairs that agree with
      the pattern, in stored order: a subsequence of the chunk. */
  lemma ProbeResultInStoredOrder(pat: Pattern, pairs: seq<(nat, nat)>)
    requires Probe(pat).Some?
    ensures FilterPairs(pat, pairs) == Select(pat, ReconstructAll(pat, pairs))
  {
    FilterPairsSelects(pat, pairs, ReconstructAll(pat, pairs));
  }

  /** The scan from chunk `i` emits first components that never decrease,
      all at least `i`. */
  lemma {:induction false} ScanNonDecreasing(rows: Rows, i: nat)
    requires EvenRows(rows)
    ensures forall t :: t in ScanFrom(rows, i) ==> t.0 >= i
    ensures forall a, b :: 0 <= a < b < |ScanFrom(rows, i)| ==> ScanFrom(rows, i)[a].0 <= ScanFrom(rows, i)[b].0
    decreases |rows| - i
  {
    if i < |rows| {
      ScanNonDecreasing(rows, i + 1);
      var head := Tag(i, Pairs(rows[i]));
      var tail := ScanFrom(rows, i + 1);
      var all := ScanFrom(rows, i);
      assert all == head + tail;
      forall a, b | 0 <= a < b < |all|
        ensures all[a].0 <= all[b].0
      {
        if b >= |head| {
          assert all[b] == tail[b - |head|];
          assert tail[b - |head|] in tail;
        }
      }
      forall t | t in all
        ensures t.0 >= i
      {
        if t !in head {
          assert t in tail;
        }
      }
    }
  }

  // ---------------------------------------------------------------------
  // Querying a built store

  /** Every index of a built store splits into whole pairs, so a built
      store meets what `triples_matching` needs. */
  lemma BuiltStoreWellFormed(ts: seq<StrTriple>, es: seq<string>, ep: seq<string>, eo: seq<string>)
    requires Enumerates(es, Collect(ts, Subject))
    requires Enumerates(ep, Collect(ts, Predicate))
    requires Enumerates(eo, Collect(ts, Object))
    requires NulFreeTerms(ts)
    ensures WellFormed(BuildFrom(ts, es, ep, eo).store)
  {
    var e := Encode(BuildDictionary(ts, es, ep, eo), ts);
    BuildWritesEncodedTriples(ts, es, ep, eo);
    StoredIndexShape(e, Subject);
    StoredIndexShape(e, Predicate);
    StoredIndexShape(e, Object);
  }

  /** With nothing bound, querying a built store returns one triple per
      triple it was built from, whatever their number. */
  lemma FullScanCountIsKept(ts: seq<StrTriple>, es: seq<string>, ep: seq<string>, eo: seq<string>)
    requires Enumerates(es, Collect(ts, Subject))
    requires Enumerates(ep, Collect(ts, Predicate))
    requires Enumerates(eo, Collect(ts, Object))
    requires NulFreeTerms(ts)
    ensures var st := BuildFrom(ts, es, ep, eo).store;
      && WellFormed(st)
      && TriplesMatching(st, None, None, None).Ok?
      && |TriplesMatching(st, None, None, None).value| == |ts|
  {
    var e := Encode(BuildDictionary(ts, es, ep, eo), ts);
    var st := BuildFrom(ts, es, ep, eo).store;
    BuiltStoreWellFormed(ts, es, ep, eo);
    BuildWritesEncodedTriples(ts, es, ep, eo);
    BuildEncodesEveryTriple(ts, es, ep, eo);
    StoredIndexShape(e, Subject);
    assert CastPattern(None, None, None) == Pattern(None, None, None);
    FullScanContents(StoredIndex(e, Subject));
  }
}
