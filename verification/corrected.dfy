/** The index layout the query side reads, and batch offsets that tile an
    index array. Each row keeps the two components named by its index's
    dimension names, row k holds exactly the triples whose leading id is k,
    and each batch is written where the previous one ended. Queries over a
    store laid out this way return exactly the matching triples. */
module Corrected {
  import opened Types
  import opened Indexes
  import opened Storage
  import opened Query

  /** The pair a row of index `idx` keeps for `t`: the components at the
      index's two dimensions, in order. */
  function ResidualPair(idx: Index, t: Triple): (nat, nat) {
    var dims := DimensionIndexes(idx);
    (At(t, Slot(dims[0])), At(t, Slot(dims[1])))
  }

  /** Reconstructing a kept pair under a probe of its own index and id
      gives the triple back. */
  lemma ReconstructResidual(pat: Pattern, idx: Index, t: Triple)
    requires Probe(pat) == Some((idx, TripleToComponent(idx, t)))
    ensures Reconstruct(pat, ResidualPair(idx, t)) == Some(t)
  {
    match idx
    case Subject =>
    case Predicate =>
    case Object =>
  }

  /** The kept pairs of a group, flattened as the array stores them. */
  function ResidualPairsOf(idx: Index, g: seq<Triple>): (r: seq<nat>)
    ensures |r| == 2 * |g|
    ensures forall i :: 0 <= i < |g| ==> (r[2 * i], r[2 * i + 1]) == ResidualPair(idx, g[i])
  {
    if |g| == 0 then []
    else
      var rest := ResidualPairsOf(idx, g[1..]);
      var pr := ResidualPair(idx, g[0]);
      var r := [pr.0, pr.1] + rest;
      assert forall i :: 0 <= i < |g| ==> (r[2 * i], r[2 * i + 1]) == ResidualPair(idx, g[i]) by {
        forall i | 0 <= i < |g|
          ensures (r[2 * i], r[2 * i + 1]) == ResidualPair(idx, g[i])
        {
          if i > 0 {
            assert r[2 * i] == rest[2 * (i - 1)] && r[2 * i + 1] == rest[2 * (i - 1) + 1];
            assert g[i] == g[1..][i - 1];
          }
        }
      }
      r
  }

  /** The triples with leading id k, for every id below `n`. */
  function IdGroups(ts: seq<Triple>, idx: Index, n: nat): (r: seq<seq<Triple>>)
    ensures |r| == n
    ensures forall k :: 0 <= k < n ==> r[k] == FilterKey(ts, idx, k)
  {
    seq(n, k requires 0 <= k < n => FilterKey(ts, idx, k))
  }

  /** The rows of the corrected `write_index`: row k holds the kept pairs of
      exactly the triples with leading id k, in input order, for every id
      of a vocabulary of size `n`. */
  function IdRows(ts: seq<Triple>, idx: Index, n: nat): (r: Rows)
    ensures |r| == n
    ensures EvenRows(r)
    ensures forall k :: 0 <= k < n ==> Pairs(r[k]) == seq(|FilterKey(ts, idx, k)|, i requires 0 <= i < |FilterKey(ts, idx, k)| => ResidualPair(idx, FilterKey(ts, idx, k)[i]))
  {
    seq(n, k requires 0 <= k < n => ResidualPairsOf(idx, FilterKey(ts, idx, k)))
  }

  /** The vocabulary size of a position. */
  function Size(idx: Index, ns: nat, np: nat, no: nat): nat {
    match idx
    case Subject => ns
    case Predicate => np
    case Object => no
  }

  /** A store holding the corrected layout of `ts` for vocabularies of
      sizes `ns`, `np`, `no`. */
  function CorrectedStore(d: Dictionary.Dictionary, ts: seq<Triple>, ns: nat, np: nat, no: nat): (st: Store)
    ensures WellFormed(st)
    ensures forall idx :: IndexRows(st, idx) == Some(IdRows(ts, idx, Size(idx, ns, np, no)))
  {
    Store(d, Some(IdRows(ts, Subject, ns)), Some(IdRows(ts, Predicate, np)), Some(IdRows(ts, Object, no)))
  }

  /** Every component of every triple is below its vocabulary size. */
  predicate WithinVocabularies(ts: seq<Triple>, ns: nat, np: nat, no: nat) {
    forall i :: 0 <= i < |ts| ==> ts[i].0 < ns && ts[i].1 < np && ts[i].2 < no
  }

  /** A pattern bound to an id beyond the vocabulary selects nothing. */
  lemma SelectBeyondVocabulary(pat: Pattern, ts: seq<Triple>, ns: nat, np: nat, no: nat)
    requires WithinVocabularies(ts, ns, np, no)
    requires Probe(pat).Some? && Probe(pat).value.1 >= Size(Probe(pat).value.0, ns, np, no)
    ensures Select(pat, ts) == []
  {
    if |Select(pat, ts)| > 0 {
      assert Select(pat, ts)[0] in Select(pat, ts);
    }
  }

  /** Over the corrected layout, a pattern with a bound component returns
      exactly the triples that match it, in input order; a bound id beyond
      its vocabulary is a missing chunk, and no triple matches it anyway. */
  lemma CorrectedQueryExact(d: Dictionary.Dictionary, ts: seq<Triple>, ns: nat, np: nat, no: nat,
                            s: Option<int>, p: Option<int>, o: Option<int>)
    requires IsI32Id(s) && IsI32Id(p) && IsI32Id(o)
    requires Probe(CastPattern(s, p, o)).Some?
    ensures var pat := CastPattern(s, p, o);
      var idx, c := Probe(pat).value.0, Probe(pat).value.1;
      TriplesMatching(CorrectedStore(d, ts, ns, np, no), s, p, o)
        == if c < Size(idx, ns, np, no) then Ok(Select(pat, ts)) else Err(ChunkNotFound(c))
  {
    var pat := CastPattern(s, p, o);
    var idx, c := Probe(pat).value.0, Probe(pat).value.1;
    var st := CorrectedStore(d, ts, ns, np, no);
    assert IndexRows(st, idx) == Some(IdRows(ts, idx, Size(idx, ns, np, no)));
    if c < Size(idx, ns, np, no) {
      var g := FilterKey(ts, idx, c);
      var pairs := Pairs(IdRows(ts, idx, Size(idx, ns, np, no))[c]);
      forall i | 0 <= i < |g|
        ensures Reconstruct(pat, pairs[i]) == Some(g[i])
      {
        ReconstructResidual(pat, idx, g[i]);
      }
      FilterPairsSelects(pat, pairs, g);
      SelectWithinKey(pat, ts, idx, c);
    }
  }

  /** A triple is among those with leading id `v` exactly when it is one of
      the triples and its leading component is `v`. */
  lemma {:induction false} FilterKeyMember(ts: seq<Triple>, idx: Index, v: nat, t: Triple)
    ensures t in FilterKey(ts, idx, v) <==> t in ts && TripleToComponent(idx, t) == v
    decreases |ts|
  {
    if |ts| > 0 {
      FilterKeyMember(ts[1..], idx, v, t);
      assert ts == [ts[0]] + ts[1..];
    }
  }

  /** The full scan over the corrected subject rows from chunk `i` on is the
      concatenation of the subject groups from `i` on. */
  lemma {:induction false} ScanIdRows(ts: seq<Triple>, n: nat, i: nat)
    requires i <= n
    ensures ScanFrom(IdRows(ts, Subject, n), i) == Flatten(IdGroups(ts, Subject, n)[i..])
    decreases n - i
  {
    var rows := IdRows(ts, Subject, n);
    var gs := IdGroups(ts, Subject, n);
    if i < n {
      ScanIdRows(ts, n, i + 1);
      var g := FilterKey(ts, Subject, i);
      assert Tag(i, Pairs(rows[i])) == g;
      assert gs[i..][0] == g && gs[i..][1..] == gs[i + 1..];
    } else {
      assert gs[i..] == [];
    }
  }

  /** On input sorted by subject whose subject ids are exactly 0 .. n-1, the
      full scan over the corrected layout returns the input itself. */
  lemma CorrectedFullScanInOrder(d: Dictionary.Dictionary, ts: seq<Triple>, ns: nat, np: nat, no: nat)
    requires SortedByKey(ts, Subject) && DenseKeys(ts, Subject, ns)
    ensures TriplesMatching(CorrectedStore(d, ts, ns, np, no), None, None, None) == Ok(ts)
  {
    ScanIdRows(ts, ns, 0);
    RunsAreIdGroups(ts, Subject, ns);
    assert IdGroups(ts, Subject, ns) == ChunkBy(ts, Subject);
    assert IdGroups(ts, Subject, ns)[0..] == IdGroups(ts, Subject, ns);
    assert CastPattern(None, None, None) == Pattern(None, None, None);
  }

  /** In any order, the full scan over the corrected layout returns exactly
      the triples, grouped by subject. */
  lemma CorrectedFullScanMembers(d: Dictionary.Dictionary, ts: seq<Triple>, ns: nat, np: nat, no: nat, t: Triple)
    requires WithinVocabularies(ts, ns, np, no)
    ensures TriplesMatching(CorrectedStore(d, ts, ns, np, no), None, None, None) == Ok(Flatten(IdGroups(ts, Subject, ns)))
    ensures t in Flatten(IdGroups(ts, Subject, ns)) <==> t in ts
  {
    var gs := IdGroups(ts, Subject, ns);
    ScanIdRows(ts, ns, 0);
    assert gs[0..] == gs;
    assert CastPattern(None, None, None) == Pattern(None, None, None);
    FlattenMember(gs, t);
    FilterKeyMember(ts, Subject, t.0, t);
    if t in ts {
      var i :| 0 <= i < |ts| && ts[i] == t;
      assert t in gs[t.0];
    }
  }

  /** The row just past the last write, or `start` when there is none. */
  function EndRow(ws: seq<WriteOp>, start: nat): nat {
    if |ws| == 0 then start else ws[|ws| - 1].start + ws[|ws| - 1].numRows
  }

  /** Writes that tile rows from `start` on: the first starts at `start`
      and spans one row per pair of its data, and the others tile on from
      the row where it ends. */
  predicate TilesFrom(ws: seq<WriteOp>, start: nat)
    decreases |ws|
  {
    || |ws| == 0
    || (&& 2 * ws[0].numRows == |ws[0].data|
        && ws[0].start == start
        && TilesFrom(ws[1..], start + ws[0].numRows))
  }

  /** In a tiling each write starts at the row where the previous one
      ended. */
  lemma {:induction false} TilesAdjacent(ws: seq<WriteOp>, start: nat)
    requires TilesFrom(ws, start)
    ensures forall k :: 0 < k < |ws| ==> ws[k - 1].start + ws[k - 1].numRows == ws[k].start
    decreases |ws|
  {
    if |ws| > 1 {
      var rest := ws[1..];
      TilesAdjacent(rest, start + ws[0].numRows);
      forall k | 1 < k < |ws|
        ensures ws[k - 1].start + ws[k - 1].numRows == ws[k].start
      {
        assert ws[k - 1] == rest[k - 2] && ws[k] == rest[k - 1];
      }
    }
  }

  /** The corrected `serialize` loop: batches of `CHUNK_SIZE` rows, each
      written at the row where the previous batch ended, so the writes tile
      the array from `start` on without gaps or overlaps. */
  function ContiguousWrites(rows: Rows, start: nat): (r: seq<WriteOp>)
    requires EvenRows(rows)
    ensures WrittenData(r) == Flatten(rows)
    ensures |rows| == 0 <==> |r| == 0
    ensures TilesFrom(r, start)
    ensures 2 * EndRow(r, start) == 2 * start + |Flatten(rows)|
    decreases |rows|
  {
    if |rows| == 0 then []
    else
      var n := if |rows| < CHUNK_SIZE then |rows| else CHUNK_SIZE;
      SplitEvenRows(rows, n);
      var data := Flatten(rows[..n]);
      var w := WriteOp(start, |data| / 2, data);
      var rest := ContiguousWrites(rows[n..], start + |data| / 2);
      PrependTile(w, rest, start);
      [w] + rest
  }

  /** A write of whole pairs at `start`, followed by writes that tile from
      where it ends, tiles from `start`. */
  lemma PrependTile(w: WriteOp, rest: seq<WriteOp>, start: nat)
    requires w.start == start && 2 * w.numRows == |w.data|
    requires TilesFrom(rest, start + w.numRows)
    ensures TilesFrom([w] + rest, start)
    ensures EndRow([w] + rest, start) == EndRow(rest, start + w.numRows)
    ensures WrittenData([w] + rest) == w.data + WrittenData(rest)
  {
    assert ([w] + rest)[1..] == rest;
  }

  /** The writes after the first of a tiling tile on from where the first
      one ends. */
  lemma TilesTail(ws: seq<WriteOp>, start: nat)
    requires TilesFrom(ws, start) && |ws| > 0
    ensures TilesFrom(ws[1..], start + ws[0].numRows)
    ensures EndRow(ws, start) == EndRow(ws[1..], start + ws[0].numRows)
    ensures WrittenData(ws) == ws[0].data + WrittenData(ws[1..])
  {
  }

  /** Tiling writes end no earlier than they start. */
  lemma {:induction false} EndRowAtLeast(ws: seq<WriteOp>, start: nat)
    requires TilesFrom(ws, start)
    ensures start <= EndRow(ws, start)
    decreases |ws|
  {
    if |ws| > 0 {
      TilesTail(ws, start);
      EndRowAtLeast(ws[1..], start + ws[0].numRows);
    }
  }

  /** Writes that tile an array from row `start` to its end leave their
      data there, behind the untouched values before `start`: each block
      lies past the ones written before it, so nothing is overwritten. */
  lemma {:induction false} ApplyTiling(a: seq<nat>, ws: seq<WriteOp>, start: nat)
    requires TilesFrom(ws, start) && 2 * EndRow(ws, start) == |a|
    ensures AllFit(ws, |a|)
    ensures ApplyWrites(a, ws) == a[..2 * start] + WrittenData(ws)
    decreases |ws|
  {
    TilingFits(ws, start, |a|);
    if |ws| == 0 {
      assert a[..2 * start] == a;
    } else {
      var w, rest := ws[0], ws[1..];
      var next := start + w.numRows;
      TilesTail(ws, start);
      var a' := ApplyWrite(a, w);
      ApplyTiling(a', rest, next);
      ApplyFirstWrite(a, ws);
      WritePrefix(a, w);
    }
  }

  /** Writes that tile an array from row `start` to its end all fit it. */
  lemma {:induction false} TilingFits(ws: seq<WriteOp>, start: nat, len: nat)
    requires TilesFrom(ws, start) && 2 * EndRow(ws, start) == len
    ensures AllFit(ws, len)
    decreases |ws|
  {
    if |ws| > 0 {
      TilesTail(ws, start);
      EndRowAtLeast(ws[1..], start + ws[0].numRows);
      TilingFits(ws[1..], start + ws[0].numRows, len);
      ApplyFirstWrite(Zeros(len), ws);
    }
  }

  /** Applying writes applies the first, then the rest. */
  lemma ApplyFirstWrite(a: seq<nat>, ws: seq<WriteOp>)
    requires |ws| > 0 && Fits(ws[0], |a|) && AllFit(ws[1..], |a|)
    ensures AllFit(ws, |a|)
    ensures ApplyWrites(a, ws) == ApplyWrites(ApplyWrite(a, ws[0]), ws[1..])
  {
    assert forall k :: 1 <= k < |ws| ==> ws[k] == ws[1..][k - 1];
  }

  /** After a write, the array up to the write's end is the old values
      before its block followed by its data. */
  lemma WritePrefix(a: seq<nat>, w: WriteOp)
    requires Fits(w, |a|)
    ensures ApplyWrite(a, w)[..2 * (w.start + w.numRows)] == a[..2 * w.start] + w.data
  {
    var r := ApplyWrite(a, w);
    assert r[..2 * (w.start + w.numRows)] == r[..2 * w.start] + r[2 * w.start .. 2 * (w.start + w.numRows)];
  }

  /** Written contiguously into a fresh array, the rows are read back chunk
      by chunk exactly as they were planned. */
  lemma ContiguousWritesStoreRows(rows: Rows)
    requires EvenRows(rows)
    ensures AllFit(ContiguousWrites(rows, 0), |Flatten(rows)|)
    ensures 2 * Sum(ChunkSizes(rows)) == |Flatten(rows)|
    ensures ChunksOf(ApplyWrites(Zeros(|Flatten(rows)|), ContiguousWrites(rows, 0)), ChunkSizes(rows)) == rows
  {
    ContiguousWritesFill(rows);
    ChunksOfFlatten(rows, ChunkSizes(rows));
  }

  /** Written contiguously into a fresh array, the rows fill it exactly. */
  lemma ContiguousWritesFill(rows: Rows)
    requires EvenRows(rows)
    ensures AllFit(ContiguousWrites(rows, 0), |Flatten(rows)|)
    ensures ApplyWrites(Zeros(|Flatten(rows)|), ContiguousWrites(rows, 0)) == Flatten(rows)
  {
    var z := Zeros(|Flatten(rows)|);
    ApplyTiling(z, ContiguousWrites(rows, 0), 0);
    assert z[..0] == [];
  }

  /** Both parts of rows split at `n` are even, the first flattens to an
      even number of elements, and flattening the parts in turn gives the
      whole. */
  lemma SplitEvenRows(rows: Rows, n: nat)
    requires EvenRows(rows) && n <= |rows|
    ensures EvenRows(rows[..n]) && EvenRows(rows[n..])
    ensures |Flatten(rows[..n])| % 2 == 0
    ensures Flatten(rows) == Flatten(rows[..n]) + Flatten(rows[n..])
  {
    assert forall k :: 0 <= k < n ==> rows[..n][k] == rows[k];
    assert forall k :: 0 <= k < |rows| - n ==> rows[n..][k] == rows[n + k];
    var sizes := ChunkSizes(rows[..n]);
    assert rows == rows[..n] + rows[n..];
    FlattenAppend(rows[..n], rows[n..]);
  }

  /** Written contiguously from row 0, an index's batches end exactly at
      the array's row count. */
  lemma CorrectedWritesFillShape(ts: seq<Triple>, idx: Index)
    ensures var layout := WriteIndex(ts, idx);
      EvenRows(layout.rows) && EndRow(ContiguousWrites(layout.rows, 0), 0) == layout.shape.0
  {
  }

  /** Rows that each hold at least one pair hold at least two elements per
      row in total, and two more when one of them holds two pairs. */
  lemma {:induction false} FlattenAtLeast(xs: Rows, k: nat)
    requires NonEmptyEvenRows(xs)
    ensures |Flatten(xs)| >= 2 * |xs|
    ensures k < |xs| && |xs[k]| >= 4 ==> |Flatten(xs)| >= 2 * |xs| + 2
    decreases |xs|
  {
    if |xs| > 0 {
      assert NonEmptyEvenRows(xs[1..]) by {
        assert forall j :: 0 <= j < |xs[1..]| ==> xs[1..][j] == xs[j + 1];
      }
      FlattenAtLeast(xs[1..], if k > 0 then k - 1 else 0);
      if k > 0 && k < |xs| {
        assert xs[1..][k - 1] == xs[k];
      }
    }
  }
}
