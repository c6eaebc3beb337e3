# ZarrDF core in Dafny

ZarrDF stores an RDF graph as three integer index arrays plus a term dictionary. Terms are encoded
through three independent per-position vocabularies: subjects, predicates and objects. Each vocabulary is a
front-coded set of sorted strings, and a term's id is its rank. An encoded triple is
`(subject_id, predicate_id, object_id)`. For each position there is an index array. Its chunk k is meant
to hold, as flattened pairs, the triples whose leading component is k (the first two rows under
Findings show where the code as written departs from this). A triple pattern is answered by
probing the chunk of the first bound component and filtering on the others. With nothing bound,
chunks 0, 1, 2, … of the subject array are read until one is missing.

This project models the pure core of that system:

- **Types** (`types.dfy`): the error enum, `Option`/`Result`, encoded triples, and the two integer
  casts ids go through. The first is `usize as i32`, which wraps. The second is `i32 as u64`, which
  adds 2^64 to a negative value.
- **StrOrder** (`strorder.dfy`): byte-wise string order, and insertion sort as the reference sort.
- **Dictionary** (`dictionary.dfy`): `Dictionary::new`, and the three getters as rank lookups.
- **Indexes** (`indexes.dfy`): `triple_to_component`, `dimension_names`, and the display names.
- **RdfFormats** (`rdf_format.dfy`): `from_str` and `from_path`, with `str::split` modelled exactly.
- **Utils** (`utils.dfy`): `serialize_term`, `rdf_to_value` and `value_to_rdf`. The JSON array of a
  vocabulary is modelled as `seq<string>`.
- **Storage** (`storage.dfy`) covers these parts of building a store:
  - the empty-term filter of `read_rdf`;
  - collecting the vocabularies;
  - dictionary encoding;
  - `write_index`, grouping by adjacent runs, with its chunk-size plan and shape;
  - the batch writes of `serialize`, and the array they leave;
  - the persisted attributes, and `from_zarr`'s reading of them.

  While it is written, an index array is a flat row-major `seq<nat>` of two values per row. It
  starts as the fill value 0, each batch write replaces one block of it, and it is then read back
  along the chunk grid. Once stored, an array is the `seq<seq<nat>>` of its chunks: row k is
  chunk k, and a chunk past the end is absent.
- **Query** (`query.dfy`): `Query::query` and `triples_matching`. The full scan is a function,
  and the loop of the source is also written as a method proved equal to it.
- **Corrected** (`corrected.dfy`): the index layout the query side actually reads. Each row keeps
  the two residual components, and row k holds exactly the triples with leading id k. This module
  also has batch writes that tile the array. Over this layout, queries are proved exact.
- **Findings** (`findings.dfy`): concrete inputs on which the layout as written and the query side
  disagree, each set beside the corrected behaviour.

Inputs the program takes from outside become parameters:

- the parser's output is a sequence of parsed quads;
- the iteration order of each hash set is a duplicate-free enumeration of the set, and the
  dictionary is proved independent of it;
- the arrays and attributes read back by `from_zarr` are given as values.

## Model

| member | source | states |
|---|---|---|
| Types.AsI32 | src/dictionary.rs:47-60 | the `as i32` cast of an id yields a 32-bit value congruent to the id mod 2^32, and is the identity below 2^31 |
| Types.I32AsU64 | src/query.rs:40-42 | the `as u64` cast of an `i32` is the identity on non-negative values and adds 2^64 to negative ones |
| Types.IdSurvivesCasts | src/dictionary.rs:47-60 | an id below 2^31 comes out of both casts unchanged |
| Types.LargeIdIsMangled | src/dictionary.rs:47-60 | the id 2^31 does not survive the two casts |
| StrOrder.Sort | src/dictionary.rs:22-24 | the sort yields a sorted permutation of its input |
| StrOrder.SortIgnoresOrder | src/dictionary.rs:22-24 | sorting two permutations of the same strings gives the same list |
| StrOrder.SortIdempotent | src/utils.rs:20 | sorting a sorted list returns it unchanged |
| StrOrder.SortedUnique | src/dictionary.rs:22-24 | two sorted lists with the same multiset of strings are equal |
| StrOrder.StrictlySortedUnique | src/dictionary.rs:22-24 | two strictly sorted lists with the same members are equal |
| StrOrder.StrictlySortedIff | src/dictionary.rs:26-30 | a sorted list is strictly sorted exactly when it has no duplicates |
| StrOrder.SortKeepsNoDup | src/dictionary.rs:22-30 | sorting neither creates nor removes duplicates |
| Dictionary.NewSet | src/dictionary.rs:26-30 | building a set succeeds exactly on strictly sorted keys none of which contains U+0000 (the set's NUL end marker), and otherwise fails with a dictionary-creation error |
| Dictionary.NulFreePermutation | src/dictionary.rs:22-30 | sorting cannot change whether some term contains U+0000 |
| Dictionary.New | src/dictionary.rs:13-33 | `new` succeeds iff no position has a repeated term and no term contains U+0000, and each position's keys are then the sorted, strictly ordered, NUL-free permutation of its input |
| Dictionary.Rank | src/dictionary.rs:47-60 | the locator finds a term exactly when it is a key, at the first index holding it |
| Dictionary.Lookup | src/dictionary.rs:47-60 | a getter returns an id iff the term is a key; the id is an `i32`, and with at most 2^31 keys it is the key's index in `0..n-1`. The getters `GetSubjectIdx`, `GetPredicateIdx` and `GetObjectIdx` are this lookup on their position's set |
| Dictionary.IdIsSortedIndex | src/dictionary.rs:18-30 | a getter returns `Some(i)` iff `i` is in range and the sorted input list of that position holds the term at `i` |
| Dictionary.AbsentTermHasNoId | src/dictionary.rs:47-60 | a term not given for a position looks up as `None` there |
| Dictionary.LookupInjective | src/dictionary.rs:22-30 | distinct terms of one position get distinct ids |
| Dictionary.LookupIsRank | src/dictionary.rs:47-60 | in a strictly sorted set, `Some(i)` is returned for a term iff the term sits at index `i` |
| Dictionary.NewIgnoresOrder | src/dictionary.rs:18-24 | any permutation of the input terms builds the identical dictionary |
| Dictionary.PositionsIndependent | src/dictionary.rs:13-30 | each position's vocabulary depends only on the terms given for that position |
| Indexes.Slot | src/index.rs:12-18 | the three index kinds occupy slots 0, 1 and 2, one each |
| Indexes.TripleToComponent | src/index.rs:12-18 | `triple_to_component` returns component 0, 1 or 2 for subject, predicate or object |
| Indexes.SlotIsComponent | src/index.rs:12-18 | the component read is the one at the index's slot |
| Indexes.DimensionIndexes | src/index.rs:20-28 | the dimensions are two positions, neither being the index itself, in subject < predicate < object order |
| Indexes.DimensionNames | src/index.rs:20-28 | the names of the two other positions, in subject, predicate, object order: two distinct names, neither equal to the index's own name |
| Indexes.DimensionsCoverPositions | src/index.rs:20-28 | the index and its two dimensions cover the three positions exactly once |
| Indexes.Name | src/index.rs:31-43 | a name is "subject" exactly for the subject index, "predicate" exactly for the predicate index and "object" exactly for the object index, so it is never empty |
| Indexes.NameInjective | src/index.rs:31-43 | distinct index kinds have distinct display names, so paths and attribute keys never collide |
| RdfFormats.FromStr | src/rdf_format.rs:29-39 | exactly the six extensions are accepted, each mapped to the format it names; any other string fails with `UnknownFormat` carrying that string |
| RdfFormats.FromStrRoundTrip | src/rdf_format.rs:29-39 | every format is recognised by its own extension |
| RdfFormats.Split | src/rdf_format.rs:18 | splitting yields at least one piece, and no piece contains the separator |
| RdfFormats.SplitJoin | src/rdf_format.rs:18 | joining the split pieces with the separator gives the string back |
| RdfFormats.SplitLastIsSuffix | src/rdf_format.rs:18-21 | the last piece is the longest dot-free suffix of the path |
| RdfFormats.FromPath | src/rdf_format.rs:17-23 | the format is that of the path's extension, so the `None` branch is never taken |
| RdfFormats.ExtensionUnique | src/rdf_format.rs:17-23 | a path has only one extension |
| RdfFormats.FromPathUsesExtension | src/rdf_format.rs:17-23 | `from_path` depends only on the extension, which never contains a dot |
| RdfFormats.FromPathExamples | src/rdf_format.rs:17-39 | "a.b.ttl" is Turtle; "foo", "file." and "data.TTL" give `UnknownFormat` with "foo", "" and "TTL" |
| Utils.SerializeTerm | src/utils.rs:24-35 | blank nodes render as `_:_:label`, because the label is displayed with its own `_:` prefix behind the literal one; named nodes as their IRI, plain literals bare, typed literals as `"v"^^dt`, and tagged literals as `"v"@lang` |
| Utils.SerializedEmptyIff | src/utils.rs:24-35 | only an empty plain literal or an empty rendered IRI string (which oxrdf never produces) renders as the empty string |
| Utils.BlankNodeRenderingInjective | src/utils.rs:26 | blank nodes with different labels render differently |
| Utils.PlainLiteralMeetsBlankNode | src/utils.rs:26-29 | the plain literal `_:_:x` renders the same as the blank node `x`, and no other literal does |
| Utils.RdfToValue | src/utils.rs:5-11 | the persisted list holds the set's keys in id order: the string at position i has id i |
| Utils.ValueToRdf | src/utils.rs:13-22 | reloading yields a sorted permutation of the persisted strings |
| Utils.ValueToRdfIdempotent | src/utils.rs:20 | reloading already sorted strings leaves them unchanged |
| Utils.ValueRoundTrip | src/utils.rs:5-22 | persisting a set that `NewSet` accepts and reloading it gives its keys in id order, and rebuilding the set from them gives the same set |
| Storage.ReadRdf | src/storage.rs:143-158 | a triple is returned iff some quad renders to it with no empty term; every returned triple has three non-empty terms; there are never more triples than quads, and exactly as many when no term renders empty |
| Storage.ReadRdfAllKept | src/storage.rs:143-158 | when no term renders empty, triple k is the rendering of quad k |
| Storage.ReadRdfAppend | src/storage.rs:143-158 | the triples read from two parts of a parse are those of the first part followed by those of the second, so the parser's order is kept |
| Storage.Collect | src/storage.rs:48-55 | each collected set contains that position's component of every kept triple |
| Storage.CollectOnlyComponents | src/storage.rs:48-55 | a string is collected for a position iff it is that position's component of some kept triple |
| Storage.EnumerationNulFree | src/storage.rs:48-55 | an enumeration of a position's collected terms is NUL-free iff that position's term of every triple is |
| Storage.DictionaryAcceptsTerms | src/storage.rs:48-56 | `Dictionary::new` on the collected sets succeeds iff no term of any triple contains U+0000, and otherwise fails with `DictionaryCreation` |
| Storage.BuildDictionary | src/storage.rs:48-56 | for NUL-free terms the dictionary built from the collected sets does not fail; its vocabularies are strictly sorted, NUL-free, hold exactly the collected terms, and are no larger than the triple count |
| Storage.BuildDictionaryIgnoresOrder | src/storage.rs:48-56 | the dictionary does not depend on the order in which the hash sets are iterated |
| Storage.Encode | src/storage.rs:58-68 | encoding never adds triples; when the dictionary knows every term nothing is dropped and order is kept: triple k encodes to result k, and with small vocabularies each id names its term |
| Storage.BuiltDictionaryCovers | src/storage.rs:48-68 | the dictionary built from the triples knows all of their terms |
| Storage.BuildEncodesEveryTriple | src/storage.rs:56-68 | a build encodes every kept triple, and with at most 2^31 triples each component is the id of its term |
| Storage.ChunkBy | src/storage.rs:165 | the groups are the maximal runs of adjacent triples with equal keys: each is non-empty with one key, neighbouring groups have different keys, they concatenate to the input, and the first group starts with the first triple |
| Storage.PairsOf | src/storage.rs:170 | a group's row is components 0 and 1 of each of its triples, in order, whatever the index |
| Storage.RowsOf | src/storage.rs:169-173 | one row per group; the rows concatenate to the pairs of the concatenated groups |
| Storage.ChunkSizes | src/storage.rs:171 | each size is the row length halved; with even rows, twice their sum is the total element count |
| Storage.WriteIndex | src/storage.rs:160-187 | row k and `chunk_sizes[k]` belong to run k, which is non-empty; the rows concatenate to the `[t0, t1]` pairs of the input; the shape is `(sum of sizes, 2)` with the sum equal to the triple count; and the dimension names and array name are those of the index |
| Storage.BatchWrites | src/storage.rs:207-214 | there are `ceil(n / CHUNK_SIZE)` writes for n groups; write k starts at row `(i + k) * CHUNK_SIZE`, holds the flattened groups `k * CHUNK_SIZE` up to `(k + 1) * CHUNK_SIZE` or the last, and spans its pair count; the written values are the rows in order; there is no write iff there is no group, one write for at most `CHUNK_SIZE` groups, and at least two beyond, the first holding the first `CHUNK_SIZE` rows |
| Storage.SmallIndexSingleWrite | src/storage.rs:207-214 | with at most `CHUNK_SIZE` groups there is one write, at row 0, spanning the full array shape |
| Storage.Zeros | src/storage.rs:182 | a fresh array holds the fill value 0 at every position |
| Storage.ApplyWrite | src/storage.rs:210-213 | after a write its block holds the write's data, and every value before or after the block is unchanged |
| Storage.ApplyWrites | src/storage.rs:207-214 | writing in call order keeps the array's length, and the last write's block ends up holding that write's data |
| Storage.ApplyWritesFrame | src/storage.rs:207-214 | writes that all start at or after a position leave every value before it unchanged |
| Storage.ChunksOf | src/storage.rs:176-181 | reading along the chunk grid gives one chunk per chunk size, chunk k holding twice its size in values, and the chunks concatenate to the array |
| Storage.ChunksOfFlatten | src/storage.rs:171-181 | reading the concatenated rows back along their own pair counts gives the rows again |
| Storage.BatchesFit | src/storage.rs:207-213 | every batch write lies inside the array, since each earlier batch of `CHUNK_SIZE` groups holds at least `CHUNK_SIZE` pairs |
| Storage.LayoutWritesFit | src/storage.rs:176-213 | the shape's row count is half the number of values written, and every batch write of a planned layout lies inside its array |
| Storage.StoredRows | src/storage.rs:176-214 | the array `serialize` leaves has one chunk per chunk size, chunk k holding twice its size in values |
| Storage.SmallIndexStored | src/storage.rs:207-214 | with at most `CHUNK_SIZE` groups, the array read back chunk by chunk is exactly the planned rows |
| Storage.StoredIndex | src/storage.rs:160-214 | the stored index has one chunk per group, each as long as that group's row, and it is exactly the planned rows when there are at most `CHUNK_SIZE` groups |
| Storage.StoredIndexShape | src/storage.rs:160-214 | the stored index splits into whole pairs, and its chunk sizes are the ones `write_index` planned, for any number of groups |
| Storage.FilterKey | src/storage.rs:165-173 | the triples with a given leading id all carry that id |
| Storage.SortedRunsIncrease | src/storage.rs:165 | on input sorted by the leading component, the run keys strictly increase |
| Storage.RunsAreIdGroups | src/storage.rs:165-173 | on sorted input whose leading ids are exactly 0..n-1, there are n runs, and run k holds exactly the triples with leading id k |
| Storage.RowsAreIdRows | src/storage.rs:165-173 | under the same conditions, row k holds the pairs of exactly the triples with leading id k, and `chunk_sizes[k]` counts them |
| Storage.DictionaryAttributes | src/storage.rs:72-83 | the root attributes are exactly the keys "subject", "predicate" and "object", each holding that vocabulary in id order |
| Storage.FromRdfAndStore | src/storage.rs:42-107 | an unknown format fails first, with that error; otherwise the build fails iff `Dictionary::new` refuses the collected terms, which happens iff some kept term contains U+0000, with `DictionaryCreation`; otherwise it is the build from the kept triples |
| Storage.BuildWritesEncodedTriples | src/storage.rs:87-104 | each index of a build is planned from the encoded triples; the store holds the built dictionary and, for each index, the array its batch writes leave, which is the planned rows when there are at most `CHUNK_SIZE` groups |
| Storage.FromZarr | src/storage.rs:109-141 | a missing subject attribute is reported before predicates or objects are looked at, and a missing predicate attribute before objects; reopening succeeds iff all three attributes are present and none repeats a string or holds one containing U+0000, and otherwise fails with `DictionaryCreation`; on success each of the three vocabularies is the strictly sorted permutation of its persisted list, and the three arrays are those opened |
| Storage.DictionaryReloads | src/storage.rs:118-131 | rebuilding a dictionary whose sets `NewSet` accepts from its own persisted vocabularies gives the same dictionary |
| Storage.ReopenRoundTrip | src/storage.rs:109-141 | reopening a built store from its attributes and arrays gives back the same store, so every term keeps its build-time id |
| Query.QueryChunk | src/query.rs:13-17 | a probe returns the chunk's elements iff the chunk exists, and otherwise fails with `ChunkNotFound` carrying that chunk number |
| Query.Pairs | src/query.rs:81-83 | `chunks(2)` yields the consecutive pairs of a row, half as many as its elements |
| Query.PairsOfRoundTrip | src/storage.rs:170 | reading back a written row yields components 0 and 1 of each triple of the group |
| Query.CastId | src/query.rs:40-42 | a bound id becomes its `u64` cast; an unbound one stays unbound |
| Query.Probe | src/query.rs:44-59 | selection has fixed priority: subject if bound, else predicate, else object; with nothing bound there is no probe |
| Query.Reconstruct | src/query.rs:85-90 | the bound id goes in its own slot, and the pair fills the index's two dimension slots in order |
| Query.FilterPairs | src/query.rs:81-99 | the result has at most one triple per pair, and holds exactly the reconstructed triples that agree with the whole pattern |
| Query.Tag | src/query.rs:69-74 | the scan emits `[i, pair0, pair1]` for each pair of chunk i, in order |
| Query.ScanMember | src/query.rs:60-78 | a triple comes out of the scan from chunk i iff its first component names an existing chunk at or after i and its other two form a pair of that chunk |
| Query.ScanCount | src/query.rs:60-78 | the scan yields one triple per stored pair |
| Query.FullScanContents | src/query.rs:60-78 | the full scan's length is the sum of the chunk sizes, and it holds exactly the stored pairs tagged with their chunk |
| Query.ScanNonDecreasing | src/query.rs:60-78 | first components of the full scan never decrease |
| Query.ExtendTagged | src/query.rs:69-74 | extending the results with one chunk appends that chunk's tagged pairs |
| Query.FullScanLoop | src/query.rs:60-78 | the probing loop returns the full scan: one triple per stored pair, exactly the stored pairs tagged with their chunk |
| Query.BuiltStoreWellFormed | src/storage.rs:87-104 | every index of a store built from any triples has chunks of whole pairs, so querying a freshly built store is always defined |
| Query.FullScanCountIsKept | src/query.rs:60-78 | on a store built from any triples, the pattern with nothing bound succeeds and returns as many triples as were kept from the input |
| Query.TriplesMatching | src/query.rs:34-102 | if the needed index is missing the result is `InvalidQuery`, also for a full scan; a probe of an absent chunk fails with that chunk number; a probe's result has at most half the chunk's element count, and it is, in stored order, the matching triples among the probed chunk's reconstructed pairs; every returned triple agrees with each bound component |
| Query.Select | src/query.rs:20-28 | the reference answer keeps, in order, exactly the triples that match the pattern |
| Query.FilterPairsSelects | src/query.rs:84-97 | filtering reconstructed pairs is selection on the triples they reconstruct to |
| Query.ReconstructAll | src/query.rs:84-90 | each stored pair reconstructs to a triple |
| Query.ProbeResultInStoredOrder | src/query.rs:81-99 | a probe's result is the subsequence, in stored order, of the chunk's reconstructed pairs that match the pattern |
| Query.NegativeIdNotFound | src/query.rs:40-49 | a negative subject id is cast to a chunk number past 2^63 and is reported as `ChunkNotFound` |
| Query.SelectWithinKey | src/query.rs:44-59 | restricting to the triples with the probed id loses no match |
| Query.ObjectRowSelects | src/storage.rs:165-173 | on sorted input with dense object ids, row v of the planned object index, filtered for object v, is the selection of the triples with object v |
| Query.ObjectQueryExact | src/query.rs:55-59 | on sorted input with at most `CHUNK_SIZE` dense object ids, the object array `serialize` leaves answers an object pattern with exactly the matching triples |
| Corrected.ReconstructResidual | src/query.rs:85-88 | a residual pair, reconstructed under a probe of its own id, gives its triple back |
| Corrected.ResidualPairsOf | src/query.rs:85-88 | a group's row holds, in order, the two components of each triple that the query side reads |
| Corrected.IdGroups | src/storage.rs:165 | group k is exactly the triples with leading id k |
| Corrected.IdRows | src/storage.rs:165-173 | there is one row per id; row k holds the residual pairs of exactly the triples with leading id k |
| Corrected.CorrectedStore | src/storage.rs:87-104 | the corrected store is well formed, and each index holds the id rows for its vocabulary size |
| Corrected.SelectBeyondVocabulary | src/query.rs:13-17 | no triple matches an id beyond its vocabulary |
| Corrected.CorrectedQueryExact | src/query.rs:34-102 | over the corrected layout, a bound pattern returns exactly the matching triples in input order, or `ChunkNotFound` for an id beyond the vocabulary |
| Corrected.FilterKeyMember | src/storage.rs:165-173 | a triple is among those with leading id v iff it is a triple with leading component v |
| Corrected.ScanIdRows | src/query.rs:60-78 | the scan over corrected subject rows concatenates the subject groups |
| Corrected.CorrectedFullScanInOrder | tests/triples.rs:7-13 | on input sorted by subject with dense subject ids, the full scan returns the input itself |
| Corrected.CorrectedFullScanMembers | src/query.rs:60-78 | in any order, the full scan returns exactly the triples, grouped by subject |
| Corrected.ContiguousWrites | src/storage.rs:207-214 | the writes cover the rows in order and tile the array: the first starts at the given row, each spans its data's pair count and starts where the previous ended, and the last ends at the total pair count; there are no writes exactly when there are no rows |
| Corrected.TilesAdjacent | src/storage.rs:207-210 | in a tiling each write starts at the row where the previous one ended |
| Corrected.ApplyTiling | src/storage.rs:207-214 | writes that tile an array from a row to its end all fit, and leave the values before that row followed by their data in order |
| Corrected.ContiguousWritesFill | src/storage.rs:207-214 | contiguous writes into a fresh array fill it with the concatenated rows |
| Corrected.ContiguousWritesStoreRows | src/storage.rs:176-214 | contiguous writes fit the array, and reading it back along the chunk sizes gives the planned rows, whatever their number |
| Corrected.CorrectedWritesFillShape | src/storage.rs:176 | written contiguously, an index's batches end exactly at the array's row count |
| Corrected.FlattenAtLeast | src/storage.rs:208-209 | rows of at least one pair hold at least two elements each, and two more when one of them holds two pairs |
| Findings.BuiltVocabularies | src/storage.rs:48-56 | whatever order the hash sets are iterated in, the built dictionary's vocabularies are the sorted collected terms |
| Findings.EncodeOne | src/storage.rs:58-68 | under small vocabularies without repetitions a triple encodes to the positions of its three terms |
| Findings.EncodeCons | src/storage.rs:58-68 | a triple that encodes is placed in front of the encoded rest |
| Findings.SubjectWitnessEncoding | src/storage.rs:58-68 | a build encodes (a,q,x), (b,p,y) as (0,1,0), (1,0,1) |
| Findings.ObjectWitnessEncoding | src/storage.rs:58-68 | a build encodes (a,q,y), (b,p,x), (c,p,y) as (0,1,1), (1,0,0), (2,0,1) |
| Findings.SubjectRowsLoseObject | src/storage.rs:170 | the store built from (a,q,x), (b,p,y) holds the subject rows [0,1], [1,0], and its subject query for 0 returns (0,0,1) although the matching triple is (0,1,0); the corrected layout returns (0,1,0) |
| Findings.UnsortedRunsMisplaceIds | src/storage.rs:165 | in the store built from (a,q,y), (b,p,x), (c,p,y) the objects are 1, 0, 1, the object index holds three rows keyed by run, the object query for 0 returns (0,1,0) though the only matching triple is (1,0,0), and object 2 finds a row |
| Findings.BuiltObjectRows | src/storage.rs:160-187 | the store built from the second witness holds the object rows [0,1], [1,0], [2,0] and is well formed |
| Findings.IdRowsPlaceIds | src/storage.rs:165 | on the same encoded triples the corrected layout answers object 0 with (1,0,0) and object 2 with `ChunkNotFound(2)` |
| Findings.BatchOffsetsOverlap | src/storage.rs:207-210 | with more than `CHUNK_SIZE` groups, one of the first `CHUNK_SIZE` of which holds two pairs, the first write reaches past the start of the second |
| Findings.ContiguousWritesDoNotOverlap | src/storage.rs:207-210 | contiguous writes of the same rows never overlap |

## Left out

- File and parser I/O (`File::open`, `RdfParser`, src/storage.rs:43, 143-147): the parser's output is
  a parameter. The integration tests' counts 6, 3 and 1 depend on the contents of their input file,
  which is not part of this model, so those particular numbers are out of reach. What the full-scan
  test checks in general, that a built store returns every kept triple, is
  Query.FullScanCountIsKept.
- The zarrs storage engine: group and array creation, metadata storage, the chunk grid, gzip, and
  `Array::open`. An array is its sequence of rows. The errors that only pass through from the
  engine, the file system or serde (src/error.rs:35-66) are not modelled, and neither is
  `RectangularDimensionConversion`, which stems from zarrs' chunk-grid conversion.
- Front-coding internals of `fcsd::Set`: only its sorted-rank behaviour is modelled. The fcsd builder
  is not part of this model. It refuses keys that are unsorted or repeated, and keys containing U+0000,
  because it ends every stored key with a NUL byte. Dictionary.NewSet models all three refusals, and
  src/error.rs:62-63 turns each into `DictionaryCreation`.
- serde_json `Value` and its `unwrap`s (src/utils.rs:8, 17-18): a persisted vocabulary is a
  `seq<string>`, so the panics on non-array or non-string JSON are not modelled.
- oxrdf's `Display` for IRIs, language tags and datatypes: a named node carries its already-rendered
  string, and so do a literal's datatype and tag. For a blank node the `_:` prefix that `Display`
  adds is modelled (Utils.BlankNodeDisplay). The literal with
  both a datatype and a language tag, which the parser never produces (`unreachable!`), is not
  representable.
- `Arc`, the parallelisation TODO, `src/config.rs` and `src/lib.rs`: a `Config` is folded into
  `IndexLayout`, and `Triple` is a tuple of `nat`.
- The accessors `subjects`, `predicates` and `objects` (src/dictionary.rs:35-45) are field selections
  on the `Dictionary` datatype.
- Query.TriplesMatching: requires every open index to have rows of even length (`WellFormed`). On an
  odd chunk the source would panic at `pair[1]`, and a build never writes one
  (Query.BuiltStoreWellFormed). It also
  requires each bound id to be an `i32`, which the Rust signature guarantees.
- Storage.BuildFrom, Storage.BuildDictionary and the lemmas about a build: they require the kept
  terms to be free of U+0000, the case in which `Dictionary::new` succeeds. The other case is the
  `DictionaryCreation` branch of Storage.FromRdfAndStore (Storage.DictionaryAcceptsTerms).
- Storage.BuildFrom: carries no `ensures` of its own. What it builds is stated by
  Storage.BuildEncodesEveryTriple, Storage.BuildWritesEncodedTriples and Storage.ReopenRoundTrip.
- The fill-value erasure of the zarrs engine: a chunk whose values all equal the fill value 0 is not
  kept, so it reads back as absent. The triple (0,0,0) is the smallest example: its subject chunk
  is [0,0]. The model treats every chunk k below the row count as present.
- The engine's error on a write whose block leaves the array shape: Storage.LayoutWritesFit proves
  that no batch of a planned layout does so.
- Storage.StoredIndex: beyond `CHUNK_SIZE` groups its contract states only the chunk count and the
  chunk lengths. Its contents are whatever the overlapping batches leave, computed by
  Storage.StoredRows (third row under Findings).
- Query.ObjectQueryExact: holds for at most `CHUNK_SIZE` object ids only. Beyond that the batches
  overlap and overwrite each other (third row under Findings).
- Storage.FromZarr: `Array::open` of the three arrays happens before the attributes are read. Its
  failures are engine errors, so the opened arrays are parameters.

## Findings

| source | as written | input that shows it | evidently intended | confidence | as-written member | corrected member |
|---|---|---|---|---|---|---|
| src/storage.rs:170 | every index row keeps components 0 and 1 of each triple (`[a, b, _]`), while src/query.rs:86-88 reads the subject row as (predicate, object) and the predicate row as (subject, object) | the term triples (a,q,x), (b,p,y), encoded as (0,1,0), (1,0,1): the subject rows are [0,1], [1,0], and querying subject 0 returns (0,0,1) instead of (0,1,0) | each row keeps the two components named by the index's dimension names | high; not executed | Findings.SubjectRowsLoseObject | Corrected.CorrectedQueryExact |
| src/storage.rs:165 | `chunk_by` groups only adjacent equal keys and nothing sorts first, yet the query probes chunk k as the row of id k | the term triples (a,q,y), (b,p,x), (c,p,y), encoded as (0,1,1), (1,0,0), (2,0,1): the object rows are [0,1], [1,0], [2,0], querying object 0 returns (0,1,0) rather than (1,0,0), and the absent object 2 returns (2,0,2) | row k holds exactly the triples whose leading id is k | high; not executed | Findings.UnsortedRunsMisplaceIds | Corrected.IdRows, Findings.IdRowsPlaceIds |
| src/storage.rs:207-210 | batch i is written at row `i * CHUNK_SIZE`, although a batch of `CHUNK_SIZE` groups spans one row per pair | 10001 groups of which the first holds two triples: the first write covers rows 0 to 10000 and the second starts at row 10000 | each batch starts at the row where the previous one ended | high; not executed | Findings.BatchOffsetsOverlap | Corrected.ContiguousWrites, Corrected.ContiguousWritesStoreRows |
