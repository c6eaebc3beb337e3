/** Shared vocabulary of the triple store: optional values, the error enum,
    encoded triples and the two integer casts ids pass through. */
module Types {

  datatype Option<+T> = None | Some(value: T)

  /** The error kinds the core can raise itself; errors that only pass
      through from the storage engine, the parser or the file system are
      not part of this model. */
  datatype Error =
    | UnknownFormat(name: string)
    | ChunkNotFound(chunk: nat)
    | InvalidQuery
    | SubjectsNotInMetadata
    | PredicatesNotInMetadata
    | ObjectsNotInMetadata
    | DictionaryCreation

  datatype Result<+T> = Ok(value: T) | Err(error: Error)

  /** An encoded triple `[subject_id, predicate_id, object_id]`. */
  type Triple = (nat, nat, nat)

  /** A textual triple as the parser hands it over, after term rendering. */
  type StrTriple = (string, string, string)

  const TWO_POW_31: nat := 0x8000_0000
  const TWO_POW_32: nat := 0x1_0000_0000
  const TWO_POW_64: nat := 0x1_0000_0000_0000_0000

  predicate IsI32(x: int) {
    -(TWO_POW_31 as int) <= x < TWO_POW_31
  }

  /** Rust's `idx as i32` on a `usize`: keeps the low 32 bits and reads
      them as two's complement. */
  function AsI32(n: nat): (r: int)
    ensures IsI32(r)
    ensures n < TWO_POW_31 ==> r == n
    ensures (r - n) % TWO_POW_32 == 0
  {
    var low := n % TWO_POW_32;
    if low < TWO_POW_31 then low else low - TWO_POW_32
  }

  /** Rust's `x as u64` on an `i32`: sign-extends, then reads the 64 bits
      as unsigned, so a negative id becomes a huge chunk number. */
  function I32AsU64(x: int): (r: nat)
    requires IsI32(x)
    ensures r < TWO_POW_64
    ensures x >= 0 ==> r == x
    ensures x < 0 ==> r == x + TWO_POW_64
  {
    if x >= 0 then x else x + TWO_POW_64
  }

  /** An id below 2^31 survives both casts unchanged. */
  lemma IdSurvivesCasts(n: nat)
    requires n < TWO_POW_31
    ensures I32AsU64(AsI32(n)) == n
  {
  }

  /** An id of 2^31 or more does not: it comes back as a different chunk
      number. */
  lemma LargeIdIsMangled()
    ensures I32AsU64(AsI32(TWO_POW_31)) != TWO_POW_31
  {
  }
}
