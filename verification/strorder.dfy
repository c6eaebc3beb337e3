/** The ordering Rust's `String` sort uses: lexicographic comparison of the
    UTF-8 bytes, which coincides with lexicographic comparison of code
    points, so it is stated here on `seq<char>`. */
module StrOrder {

  /** `a` sorts strictly before `b`. A proper prefix sorts first. */
  predicate Lt(a: string, b: string)
    decreases |a|
  {
    if |a| == 0 then |b| > 0
    else if |b| == 0 then false
    else a[0] < b[0] || (a[0] == b[0] && Lt(a[1..], b[1..]))
  }

  predicate Le(a: string, b: string) {
    a == b || Lt(a, b)
  }

  lemma {:induction false} LtIrreflexive(a: string)
    ensures !Lt(a, a)
    decreases |a|
  {
    if |a| > 0 {
      LtIrreflexive(a[1..]);
    }
  }

  lemma {:induction false} LtTransitive(a: string, b: string, c: string)
    requires Lt(a, b) && Lt(b, c)
    ensures Lt(a, c)
    decreases |a|
  {
    if |a| > 0 && a[0] == b[0] && b[0] == c[0] {
      LtTransitive(a[1..], b[1..], c[1..]);
    }
  }

  lemma LtAsymmetric(a: string, b: string)
    requires Lt(a, b)
    ensures !Lt(b, a)
  {
    if Lt(b, a) {
      LtTransitive(a, b, a);
      LtIrreflexive(a);
    }
  }

  /** Any two strings are comparable. */
  lemma {:induction false} LtTotal(a: string, b: string)
    ensures a == b || Lt(a, b) || Lt(b, a)
    decreases |a|
  {
    if |a| > 0 && |b| > 0 && a[0] == b[0] {
      LtTotal(a[1..], b[1..]);
      if a[1..] == b[1..] {
        assert a == [a[0]] + a[1..] && b == [b[0]] + b[1..];
      }
    }
  }

  lemma LeAntisymmetric(a: string, b: string)
    requires Le(a, b) && Le(b, a)
    ensures a == b
  {
    if a != b {
      LtAsymmetric(a, b);
    }
  }

  lemma LeTransitive(a: string, b: string, c: string)
    requires Le(a, b) && Le(b, c)
    ensures Le(a, c)
  {
    if a != b && b != c {
      LtTransitive(a, b, c);
    }
  }

  predicate Sorted(s: seq<string>) {
    forall i, j :: 0 <= i < j < |s| ==> Le(s[i], s[j])
  }

  /** Sorted without repetitions: the shape of a front-coded set's keys. */
  predicate StrictlySorted(s: seq<string>) {
    forall i, j :: 0 <= i < j < |s| ==> Lt(s[i], s[j])
  }

  predicate NoDup<T(==)>(s: seq<T>) {
    forall i, j :: 0 <= i < j < |s| ==> s[i] != s[j]
  }

  /** Places `x` in front of the first element it sorts before or equal to. */
  function Insert(x: string, s: seq<string>): (r: seq<string>)
    requires Sorted(s)
    ensures Sorted(r)
    ensures multiset(r) == multiset(s) + multiset{x}
    ensures |r| == |s| + 1
  {
    if |s| == 0 then [x]
    else if Le(x, s[0]) then
      assert forall j :: 0 <= j < |s| ==> Le(x, s[j]) by {
        forall j | 0 <= j < |s| {
          LeTransitive(x, s[0], s[j]);
        }
      }
      [x] + s
    else
      LtTotal(x, s[0]);
      var tail := Insert(x, s[1..]);
      assert s == [s[0]] + s[1..];
      assert forall j :: 0 <= j < |tail| ==> Le(s[0], tail[j]) by {
        forall j | 0 <= j < |tail|
          ensures Le(s[0], tail[j])
        {
          assert tail[j] in multiset(tail);
          assert tail[j] in multiset(s[1..]) || tail[j] == x;
        }
      }
      [s[0]] + tail
  }

  /** Rust's `Vec::sort` on strings. Equal strings are indistinguishable,
      so stability plays no role and insertion sort computes the same
      sequence. */
  function Sort(s: seq<string>): (r: seq<string>)
    ensures Sorted(r)
    ensures multiset(r) == multiset(s)
    ensures |r| == |s|
  {
    if |s| == 0 then []
    else
      assert s == [s[0]] + s[1..];
      Insert(s[0], Sort(s[1..]))
  }

  /** The head of a sorted sequence sorts before or equal to every member. */
  lemma SortedHeadIsLeast(a: seq<string>, x: string)
    requires Sorted(a)
    requires x in multiset(a)
    ensures |a| > 0 && Le(a[0], x)
  {
    var i :| 0 <= i < |a| && a[i] == x;
  }

  /** There is only one sorted arrangement of a multiset of strings. */
  lemma {:induction false} SortedUnique(a: seq<string>, b: seq<string>)
    requires Sorted(a) && Sorted(b)
    requires multiset(a) == multiset(b)
    ensures a == b
    decreases |a|
  {
    if |a| > 0 {
      assert a[0] in multiset(a);
      SortedHeadIsLeast(b, a[0]);
      assert b[0] in multiset(b);
      SortedHeadIsLeast(a, b[0]);
      LeAntisymmetric(a[0], b[0]);
      var a', b' := a[1..], b[1..];
      assert a == [a[0]] + a';
      assert b == [b[0]] + b';
      calc {
        multiset(a');
        multiset(a) - multiset{a[0]};
        multiset(b) - multiset{b[0]};
        multiset(b');
      }
      SortedUnique(a', b');
    } else {
      assert |b| == |multiset(b)|;
    }
  }

  /** Sorting depends on the multiset of its input only, not on its order. */
  lemma SortIgnoresOrder(a: seq<string>, b: seq<string>)
    requires multiset(a) == multiset(b)
    ensures Sort(a) == Sort(b)
  {
    SortedUnique(Sort(a), Sort(b));
  }

  /** A sorted sequence is returned unchanged by `Sort`. */
  lemma SortIdempotent(s: seq<string>)
    requires Sorted(s)
    ensures Sort(s) == s
  {
    SortedUnique(Sort(s), s);
  }

  /** No repetitions means every element occurs once in the multiset. */
  lemma {:induction false} NoDupIffSingletons(s: seq<string>)
    ensures NoDup(s) <==> forall x :: x in multiset(s) ==> multiset(s)[x] == 1
    decreases |s|
  {
    if |s| > 0 {
      var rest := s[1..];
      assert s == [s[0]] + rest;
      NoDupIffSingletons(rest);
      if NoDup(s) {
        assert NoDup(rest) by {
          forall i, j | 0 <= i < j < |rest|
            ensures rest[i] != rest[j]
          {
            assert rest[i] == s[i + 1] && rest[j] == s[j + 1];
          }
        }
        assert s[0] !in multiset(rest) by {
          forall k | 0 <= k < |rest|
            ensures rest[k] != s[0]
          {
            assert rest[k] == s[k + 1];
          }
        }
      } else {
        var i, j :| 0 <= i < j < |s| && s[i] == s[j];
        if i == 0 {
          assert s[0] in multiset(rest) by {
            assert rest[j - 1] == s[0];
          }
          assert multiset(s)[s[0]] >= 2;
        } else {
          assert rest[i - 1] == rest[j - 1];
          assert !NoDup(rest);
          var x :| x in multiset(rest) && multiset(rest)[x] != 1;
          assert multiset(s) == multiset{s[0]} + multiset(rest);
          assert multiset(s)[x] >= multiset(rest)[x];
        }
      }
    }
  }

  /** Sorting keeps the property of having no repetitions, both ways. */
  lemma SortKeepsNoDup(s: seq<string>)
    ensures NoDup(s) <==> NoDup(Sort(s))
  {
    NoDupIffSingletons(s);
    NoDupIffSingletons(Sort(s));
  }

  /** Sorted and repetition-free is the same as strictly sorted. */
  lemma StrictlySortedIff(s: seq<string>)
    requires Sorted(s)
    ensures StrictlySorted(s) <==> NoDup(s)
  {
    if StrictlySorted(s) {
      forall i, j | 0 <= i < j < |s|
        ensures s[i] != s[j]
      {
        LtIrreflexive(s[i]);
      }
    }
  }

  /** A strictly sorted sequence is determined by its members. */
  lemma StrictlySortedUnique(a: seq<string>, b: seq<string>)
    requires StrictlySorted(a) && StrictlySorted(b)
    requires forall x :: x in a <==> x in b
    ensures a == b
  {
    StrictlySortedIff(a);
    StrictlySortedIff(b);
    NoDupIffSingletons(a);
    NoDupIffSingletons(b);
    forall x
      ensures multiset(a)[x] == multiset(b)[x]
    {
      if x in a {
        assert x in multiset(a) && x in multiset(b);
      } else {
        assert x !in multiset(a) && x !in multiset(b);
      }
    }
    SortedUnique(a, b);
  }
}
