/** The term dictionary: three independent per-position vocabularies, each a
    front-coded set whose keys are kept in sorted order. A term's id is its
    rank in that order. Front coding itself is not modelled, only the
    sorted-rank behaviour the rest of the system relies on. */
module Dictionary {
  import opened Types
  import opened StrOrder

  /** A front-coded set: strictly sorted keys, the id of a key is its index. */
  datatype TermSet = TermSet(keys: seq<string>)

  datatype Dictionary = Dictionary(subjects: TermSet, predicates: TermSet, objects: TermSet)

  /** No key contains U+0000, the only character whose UTF-8 encoding holds
      a NUL byte. The set ends every stored key with a NUL byte as its end
      marker, so it refuses keys that contain one. */
  predicate NulFree(keys: seq<string>) {
    forall k :: 0 <= k < |keys| ==> '\0' !in keys[k]
  }

  /** Being free of NUL depends only on which keys there are. */
  lemma NulFreePermutation(a: seq<string>, b: seq<string>)
    requires multiset(a) == multiset(b)
    ensures NulFree(a) <==> NulFree(b)
  {
    forall k | 0 <= k < |a|
      ensures a[k] in b
    {
      assert a[k] in multiset(a);
    }
    forall k | 0 <= k < |b|
      ensures b[k] in a
    {
      assert b[k] in multiset(b);
    }
  }

  /** Building a front-coded set refuses keys that are unsorted or repeated,
      and keys that contain the NUL end marker. */
  function NewSet(keys: seq<string>): (r: Result<TermSet>)
    ensures r.Ok? <==> StrictlySorted(keys) && NulFree(keys)
    ensures r.Ok? ==> r.value.keys == keys
    ensures r.Err? ==> r.error == DictionaryCreation
  {
    if StrictlySorted(keys) && NulFree(keys) then Ok(TermSet(keys)) else Err(DictionaryCreation)
  }

  /** Exact-match search in a set: the index of `t` among the keys. */
  function Rank(keys: seq<string>, t: string): (r: Option<nat>)
    ensures r.None? <==> t !in keys
    ensures r.Some? ==> r.value < |keys| && keys[r.value] == t
    ensures r.Some? ==> forall j :: 0 <= j < r.value ==> keys[j] != t
  {
    if |keys| == 0 then None
    else if keys[0] == t then Some(0)
    else
      match Rank(keys[1..], t)
      case None => None
      case Some(i) => Some(i + 1)
  }

  /** Sorts each position's terms, then builds the three sets in the order
      subjects, predicates, objects; the first failure is returned. */
  function New(subjects: seq<string>, predicates: seq<string>, objects: seq<string>): (r: Result<Dictionary>)
    ensures r.Ok? <==> && NoDup(subjects) && NoDup(predicates) && NoDup(objects)
                       && NulFree(subjects) && NulFree(predicates) && NulFree(objects)
    ensures r.Err? ==> r.error == DictionaryCreation
    ensures r.Ok? ==> StrictlySorted(r.value.subjects.keys) && multiset(r.value.subjects.keys) == multiset(subjects)
    ensures r.Ok? ==> StrictlySorted(r.value.predicates.keys) && multiset(r.value.predicates.keys) == multiset(predicates)
    ensures r.Ok? ==> StrictlySorted(r.value.objects.keys) && multiset(r.value.objects.keys) == multiset(objects)
    ensures r.Ok? ==> NulFree(r.value.subjects.keys) && NulFree(r.value.predicates.keys) && NulFree(r.value.objects.keys)
  {
    var s, p, o := Sort(subjects), Sort(predicates), Sort(objects);
    NulFreePermutation(subjects, s);
    NulFreePermutation(predicates, p);
    NulFreePermutation(objects, o);
    SortKeepsNoDup(subjects);
    SortKeepsNoDup(predicates);
    SortKeepsNoDup(objects);
    StrictlySortedIff(s);
    StrictlySortedIff(p);
    StrictlySortedIff(o);
    match NewSet(s)
    case Err(e) => Err(e)
    case Ok(ss) =>
      match NewSet(p)
      case Err(e) => Err(e)
      case Ok(ps) =>
        match NewSet(o)
        case Err(e) => Err(e)
        case Ok(os) => Ok(Dictionary(ss, ps, os))
  }

  /** The locator's rank, cast to `i32` as the getters do. Below 2^31 keys
      the cast is the identity and the result is the key's index. */
  function Lookup(ts: TermSet, t: string): (r: Option<int>)
    ensures r.Some? <==> t in ts.keys
    ensures r.Some? ==> IsI32(r.value)
    ensures |ts.keys| <= TWO_POW_31 && r.Some? ==>
      0 <= r.value < |ts.keys| && ts.keys[r.value] == t
  {
    match Rank(ts.keys, t)
    case None => None
    case Some(i) => Some(AsI32(i))
  }

  function GetSubjectIdx(d: Dictionary, t: string): Option<int> {
    Lookup(d.subjects, t)
  }

  function GetPredicateIdx(d: Dictionary, t: string): Option<int> {
    Lookup(d.predicates, t)
  }

  function GetObjectIdx(d: Dictionary, t: string): Option<int> {
    Lookup(d.objects, t)
  }

  /** In a set whose keys are strictly sorted, a key occurs at one index only. */
  lemma StrictlySortedIndexUnique(keys: seq<string>, i: nat, j: nat)
    requires StrictlySorted(keys)
    requires i < |keys| && j < |keys| && keys[i] == keys[j]
    ensures i == j
  {
    if i < j {
      LtIrreflexive(keys[i]);
    } else if j < i {
      LtIrreflexive(keys[i]);
    }
  }

  /** A key of a strictly sorted set looks up as exactly its index, and
      nothing else looks up as that index. */
  lemma LookupIsRank(ts: TermSet, t: string, i: int)
    requires StrictlySorted(ts.keys) && |ts.keys| <= TWO_POW_31
    ensures Lookup(ts, t) == Some(i) <==> 0 <= i < |ts.keys| && ts.keys[i] == t
  {
    if 0 <= i < |ts.keys| && ts.keys[i] == t {
      var r := Lookup(ts, t);
      StrictlySortedIndexUnique(ts.keys, r.value, i);
    }
  }

  /** The id of a subject is its index in the sorted list of the subject
      terms given to `New`; likewise for predicates and objects. */
  lemma {:induction false} IdIsSortedIndex(subjects: seq<string>, predicates: seq<string>, objects: seq<string>, t: string, i: int)
    requires New(subjects, predicates, objects).Ok?
    requires |subjects| <= TWO_POW_31 && |predicates| <= TWO_POW_31 && |objects| <= TWO_POW_31
    ensures var d := New(subjects, predicates, objects).value;
      && (GetSubjectIdx(d, t) == Some(i) <==> 0 <= i < |subjects| && Sort(subjects)[i] == t)
      && (GetPredicateIdx(d, t) == Some(i) <==> 0 <= i < |predicates| && Sort(predicates)[i] == t)
      && (GetObjectIdx(d, t) == Some(i) <==> 0 <= i < |objects| && Sort(objects)[i] == t)
  {
    var d := New(subjects, predicates, objects).value;
    SortedUnique(d.subjects.keys, Sort(subjects));
    SortedUnique(d.predicates.keys, Sort(predicates));
    SortedUnique(d.objects.keys, Sort(objects));
    LookupIsRank(d.subjects, t, i);
    LookupIsRank(d.predicates, t, i);
    LookupIsRank(d.objects, t, i);
  }

  /** A term that was not given for a position never receives an id there. */
  lemma AbsentTermHasNoId(subjects: seq<string>, predicates: seq<string>, objects: seq<string>, t: string)
    requires New(subjects, predicates, objects).Ok?
    ensures var d := New(subjects, predicates, objects).value;
      && (t !in subjects ==> GetSubjectIdx(d, t) == None)
      && (t !in predicates ==> GetPredicateIdx(d, t) == None)
      && (t !in objects ==> GetObjectIdx(d, t) == None)
  {
    var d := New(subjects, predicates, objects).value;
    if t in d.subjects.keys {
      assert t in multiset(d.subjects.keys);
    }
    if t in d.predicates.keys {
      assert t in multiset(d.predicates.keys);
    }
    if t in d.objects.keys {
      assert t in multiset(d.objects.keys);
    }
  }

  /** Distinct terms of one position receive distinct ids. */
  lemma LookupInjective(ts: TermSet, t1: string, t2: string)
    requires StrictlySorted(ts.keys) && |ts.keys| <= TWO_POW_31
    requires Lookup(ts, t1).Some? && Lookup(ts, t1) == Lookup(ts, t2)
    ensures t1 == t2
  {
  }

  /** The order in which the terms arrive is irrelevant: any rearrangement
      of the same terms builds the same dictionary. */
  lemma NewIgnoresOrder(s: seq<string>, p: seq<string>, o: seq<string>,
                        s': seq<string>, p': seq<string>, o': seq<string>)
    requires multiset(s) == multiset(s') && multiset(p) == multiset(p') && multiset(o) == multiset(o')
    ensures New(s, p, o) == New(s', p', o')
  {
    SortIgnoresOrder(s, s');
    SortIgnoresOrder(p, p');
    SortIgnoresOrder(o, o');
  }

  /** The three positions are independent: predicate ids depend only on the
      predicate terms (in whatever order they come), and likewise for
      subjects and objects. */
  lemma PositionsIndependent(s: seq<string>, p: seq<string>, o: seq<string>,
                             s': seq<string>, p': seq<string>, o': seq<string>)
    requires New(s, p, o).Ok? && New(s', p', o').Ok?
    ensures multiset(p) == multiset(p') ==> New(s, p, o).value.predicates == New(s', p', o').value.predicates
    ensures multiset(s) == multiset(s') ==> New(s, p, o).value.subjects == New(s', p', o').value.subjects
    ensures multiset(o) == multiset(o') ==> New(s, p, o).value.objects == New(s', p', o').value.objects
  {
    var d, d' := New(s, p, o).value, New(s', p', o').value;
    if multiset(p) == multiset(p') {
      SortedUnique(d.predicates.keys, d'.predicates.keys);
    }
    if multiset(s) == multiset(s') {
      SortedUnique(d.subjects.keys, d'.subjects.keys);
    }
    if multiset(o) == multiset(o') {
      SortedUnique(d.objects.keys, d'.objects.keys);
    }
  }
}
