/** Orders on text, stable sorting by a key and removal of repeats: the list operations that
    every canonical form in this project is built from. */
module Lists {

  /** Strict order on text. The program compares strings byte by byte; on UTF-8 text that is the
      order of code points, which is the order of characters here. */
  predicate Less(a: string, b: string)
  {
    if b == "" then false
    else if a == "" then true
    else a[0] < b[0] || (a[0] == b[0] && Less(a[1..], b[1..]))
  }

  lemma {:induction false} LessIrreflexive(a: string)
    ensures !Less(a, a)
  {
    if a != "" {
      LessIrreflexive(a[1..]);
    }
  }

  lemma {:induction false} LessTransitive(a: string, b: string, c: string)
    requires Less(a, b) && Less(b, c)
    ensures Less(a, c)
  {
    if a != "" && a[0] == b[0] && b[0] == c[0] {
      LessTransitive(a[1..], b[1..], c[1..]);
    }
  }

  lemma {:induction false} LessTotal(a: string, b: string)
    ensures a == b || Less(a, b) || Less(b, a)
  {
    if a != "" && b != "" && a[0] == b[0] {
      LessTotal(a[1..], b[1..]);
      assert a == [a[0]] + a[1..] && b == [b[0]] + b[1..];
    }
  }

  /** A sort key: a list of texts, compared first component first. */
  type Key = seq<string>

  predicate KeyLess(a: Key, b: Key)
  {
    if b == [] then false
    else if a == [] then true
    else Less(a[0], b[0]) || (a[0] == b[0] && KeyLess(a[1..], b[1..]))
  }

  lemma {:induction false} KeyLessIrreflexive(a: Key)
    ensures !KeyLess(a, a)
  {
    if a != [] {
      LessIrreflexive(a[0]);
      KeyLessIrreflexive(a[1..]);
    }
  }

  lemma {:induction false} KeyLessTransitive(a: Key, b: Key, c: Key)
    requires KeyLess(a, b) && KeyLess(b, c)
    ensures KeyLess(a, c)
  {
    if a != [] {
      if Less(a[0], b[0]) && Less(b[0], c[0]) {
        LessTransitive(a[0], b[0], c[0]);
      } else if a[0] == b[0] && b[0] == c[0] {
        KeyLessTransitive(a[1..], b[1..], c[1..]);
      }
    }
  }

  lemma {:induction false} KeyLessTotal(a: Key, b: Key)
    ensures a == b || KeyLess(a, b) || KeyLess(b, a)
  {
    if a != [] && b != [] {
      LessTotal(a[0], b[0]);
      if a[0] == b[0] {
        KeyLessTotal(a[1..], b[1..]);
        assert a == [a[0]] + a[1..] && b == [b[0]] + b[1..];
      }
    }
  }

  function Elements<T>(s: seq<T>): set<T>
  {
    set x | x in s
  }

  predicate Distinct<T(==)>(s: seq<T>)
  {
    forall i, j | 0 <= i < j < |s| :: s[i] != s[j]
  }

  predicate DistinctKeys<T>(key: T -> Key, s: seq<T>)
  {
    forall i, j | 0 <= i < j < |s| :: key(s[i]) != key(s[j])
  }

  /** Strictly increasing by key: sorted, and no two elements share a key. */
  ghost predicate StrictlySorted<T>(key: T -> Key, s: seq<T>)
  {
    forall i, j | 0 <= i < j < |s| :: KeyLess(key(s[i]), key(s[j]))
  }

  /** Non-decreasing by key. */
  ghost predicate Sorted<T>(key: T -> Key, s: seq<T>)
  {
    forall i, j | 0 <= i < j < |s| :: !KeyLess(key(s[j]), key(s[i]))
  }

  /** A strictly sorted list is determined by its members alone. */
  lemma {:induction false} StrictlySortedUnique<T>(key: T -> Key, a: seq<T>, b: seq<T>)
    requires StrictlySorted(key, a) && StrictlySorted(key, b)
    requires Elements(a) == Elements(b)
    ensures a == b
  {
    if a == [] {
      assert forall i | 0 <= i < |b| :: b[i] in Elements(b);
    } else {
      assert a[0] in Elements(b) && b != [];
      assert b[0] in Elements(a);
      var i :| 0 <= i < |a| && a[i] == b[0];
      var j :| 0 <= j < |b| && b[j] == a[0];
      if i > 0 && j > 0 {
        KeyLessTransitive(key(a[0]), key(b[0]), key(a[0]));
        KeyLessIrreflexive(key(a[0]));
      }
      assert a[0] == b[0];
      TailElements(key, a);
      TailElements(key, b);
      StrictlySortedUnique(key, a[1..], b[1..]);
      assert a == [a[0]] + a[1..] && b == [b[0]] + b[1..];
    }
  }

  lemma TailElements<T>(key: T -> Key, a: seq<T>)
    requires StrictlySorted(key, a) && a != []
    ensures Elements(a[1..]) == Elements(a) - {a[0]}
  {
    if i :| 1 <= i < |a| && a[i] == a[0] {
      KeyLessIrreflexive(key(a[0]));
    }
    forall x | x in Elements(a) - {a[0]}
      ensures x in a[1..]
    {
      var i :| 0 <= i < |a| && a[i] == x;
      assert x == a[1..][i - 1];
    }
  }

  /** Put x in front of the first element that is not smaller. */
  function Insert<T>(key: T -> Key, x: T, s: seq<T>): (r: seq<T>)
    ensures |r| == |s| + 1
  {
    if s == [] then [x]
    else if KeyLess(key(s[0]), key(x)) then [s[0]] + Insert(key, x, s[1..])
    else [x] + s
  }

  /** The result of the library's stable sort: among equal keys the earlier element stays first. */
  function SortBy<T>(key: T -> Key, s: seq<T>): (r: seq<T>)
    ensures |r| == |s|
  {
    if s == [] then [] else Insert(key, s[0], SortBy(key, s[1..]))
  }

  lemma {:induction false} InsertPermutes<T>(key: T -> Key, x: T, s: seq<T>)
    ensures multiset(Insert(key, x, s)) == multiset{x} + multiset(s)
  {
    if s != [] && KeyLess(key(s[0]), key(x)) {
      InsertPermutes(key, x, s[1..]);
      assert s == [s[0]] + s[1..];
    }
  }

  lemma {:induction false} SortByPermutes<T>(key: T -> Key, s: seq<T>)
    ensures multiset(SortBy(key, s)) == multiset(s)
    ensures Elements(SortBy(key, s)) == Elements(s)
  {
    if s != [] {
      SortByPermutes(key, s[1..]);
      InsertPermutes(key, s[0], SortBy(key, s[1..]));
      assert s == [s[0]] + s[1..];
    }
    SameMembers(SortBy(key, s), s);
  }

  lemma SameMembers<T>(a: seq<T>, b: seq<T>)
    requires multiset(a) == multiset(b)
    ensures Elements(a) == Elements(b)
  {
    forall x
      ensures x in a <==> x in b
    {
      assert x in a <==> x in multiset(a);
      assert x in b <==> x in multiset(b);
    }
  }

  lemma {:induction false} InsertSorted<T>(key: T -> Key, x: T, s: seq<T>)
    requires Sorted(key, s)
    ensures Sorted(key, Insert(key, x, s))
  {
    if s != [] {
      var r := Insert(key, x, s);
      if KeyLess(key(s[0]), key(x)) {
        InsertSorted(key, x, s[1..]);
        InsertPermutes(key, x, s[1..]);
        forall j | 0 < j < |r|
          ensures !KeyLess(key(r[j]), key(r[0]))
        {
          assert r[j] in multiset(Insert(key, x, s[1..]));
          if r[j] == x {
            if KeyLess(key(x), key(s[0])) {
              KeyLessTransitive(key(x), key(s[0]), key(x));
              KeyLessIrreflexive(key(x));
            }
          } else {
            assert r[j] in s[1..];
          }
        }
      } else {
        forall j | 0 < j < |r|
          ensures !KeyLess(key(r[j]), key(r[0]))
        {
          if KeyLess(key(s[j - 1]), key(x)) {
            KeyLessTotal(key(s[0]), key(x));
            if key(s[0]) != key(x) {
              KeyLessTransitive(key(s[j - 1]), key(x), key(s[0]));
            }
          }
        }
      }
    }
  }

  lemma {:induction false} SortBySorted<T>(key: T -> Key, s: seq<T>)
    ensures Sorted(key, SortBy(key, s))
  {
    if s != [] {
      SortBySorted(key, s[1..]);
      InsertSorted(key, s[0], SortBy(key, s[1..]));
    }
  }

  /** Sorting leaves a sorted list alone, so sorting twice is sorting once. */
  lemma {:induction false} SortBySortedIsSame<T>(key: T -> Key, s: seq<T>)
    requires Sorted(key, s)
    ensures SortBy(key, s) == s
  {
    if s != [] {
      SortBySortedIsSame(key, s[1..]);
      if |s| > 1 {
        assert !KeyLess(key(s[1]), key(s[0]));
      }
      assert s == [s[0]] + s[1..];
    }
  }

  lemma SortedDistinctIsStrict<T>(key: T -> Key, s: seq<T>)
    requires Sorted(key, s) && DistinctKeys(key, s)
    ensures StrictlySorted(key, s)
  {
    forall i, j | 0 <= i < j < |s|
      ensures KeyLess(key(s[i]), key(s[j]))
    {
      KeyLessTotal(key(s[i]), key(s[j]));
    }
  }

  lemma StrictIsSorted<T>(key: T -> Key, s: seq<T>)
    requires StrictlySorted(key, s)
    ensures Sorted(key, s) && DistinctKeys(key, s) && Distinct(s)
  {
    forall i, j | 0 <= i < j < |s|
      ensures key(s[i]) != key(s[j]) && !KeyLess(key(s[j]), key(s[i]))
    {
      KeyLessIrreflexive(key(s[i]));
      if KeyLess(key(s[j]), key(s[i])) {
        KeyLessTransitive(key(s[i]), key(s[j]), key(s[i]));
      }
    }
  }

  lemma KeyDeterminesIndex<T>(key: T -> Key, s: seq<T>, i: nat, j: nat)
    requires DistinctKeys(key, s) && i < |s| && j < |s| && key(s[i]) == key(s[j])
    ensures i == j
  {
  }

  /** Distinct keys survive a rearrangement. */
  lemma DistinctKeysOfPermutation<T>(key: T -> Key, a: seq<T>, b: seq<T>)
    requires multiset(a) == multiset(b) && DistinctKeys(key, a)
    ensures DistinctKeys(key, b)
  {
    forall i, j | 0 <= i < j < |b|
      ensures key(b[i]) != key(b[j])
    {
      if key(b[i]) == key(b[j]) {
        assert b[i] in multiset(a) && b[j] in multiset(a);
        var p :| 0 <= p < |a| && a[p] == b[i];
        var q :| 0 <= q < |a| && a[q] == b[j];
        KeyDeterminesIndex(key, a, p, q);
        TwiceInSequence(b, i, j);
        OnceInSequence(key, a, b[i]);
      }
    }
  }

  lemma TwiceInSequence<T>(s: seq<T>, i: nat, j: nat)
    requires i < j < |s| && s[i] == s[j]
    ensures multiset(s)[s[i]] >= 2
  {
    assert s == s[..i] + [s[i]] + s[i + 1..j] + [s[j]] + s[j + 1..];
  }

  lemma OnceInSequence<T>(key: T -> Key, s: seq<T>, x: T)
    requires DistinctKeys(key, s)
    ensures multiset(s)[x] <= 1
  {
    if x in s {
      var i :| 0 <= i < |s| && s[i] == x;
      assert s == s[..i] + [x] + s[i + 1..];
      forall k | 0 <= k < |s| && k != i
        ensures s[k] != x
      {
        assert k < i ==> key(s[k]) != key(s[i]);
        assert i < k ==> key(s[i]) != key(s[k]);
      }
    }
  }

  /** With distinct keys, sorting gives the one strictly sorted list of these members. */
  lemma SortByDistinct<T>(key: T -> Key, s: seq<T>)
    requires DistinctKeys(key, s)
    ensures StrictlySorted(key, SortBy(key, s)) && Elements(SortBy(key, s)) == Elements(s)
  {
    SortBySorted(key, s);
    SortByPermutes(key, s);
    DistinctKeysOfPermutation(key, s, SortBy(key, s));
    SortedDistinctIsStrict(key, SortBy(key, s));
  }

  /** Keep the first copy of each element. */
  function Dedupe<T(==)>(s: seq<T>): (r: seq<T>)
  {
    if s == [] then []
    else
      var front := Dedupe(s[..|s| - 1]);
      if s[|s| - 1] in front then front else front + [s[|s| - 1]]
  }

  lemma {:induction false} DedupeMeaning<T>(s: seq<T>)
    ensures Distinct(Dedupe(s)) && Elements(Dedupe(s)) == Elements(s)
  {
    if s != [] {
      var front := s[..|s| - 1];
      DedupeMeaning(front);
      assert s == front + [s[|s| - 1]];
      assert Elements(s) == Elements(front) + {s[|s| - 1]};
      assert Elements(Dedupe(front)) == Elements(front);
      assert s[|s| - 1] in Dedupe(front) <==> s[|s| - 1] in Elements(front);
    }
  }

  /** The program's loop over a `seen` map, which keeps the first copy of each element. */
  method RemoveRepeats<T(==)>(input: seq<T>) returns (out: seq<T>)
    ensures out == Dedupe(input)
  {
    var seen: set<T> := {};
    out := [];
    for i := 0 to |input|
      invariant out == Dedupe(input[..i])
      invariant seen == Elements(out)
    {
      assert input[..i + 1][..i] == input[..i];
      if input[i] !in seen {
        seen := seen + {input[i]};
        out := out + [input[i]];
      }
    }
    assert input[..|input|] == input;
  }

  function TextKey(s: string): Key
  {
    [s]
  }

  /** The canonical list of a set of texts: each once, in increasing order. */
  function SortedUnique(s: seq<string>): (r: seq<string>)
  {
    SortBy(TextKey, Dedupe(s))
  }

  lemma DistinctTextKeys(s: seq<string>)
    requires Distinct(s)
    ensures DistinctKeys(TextKey, s)
  {
    forall i, j | 0 <= i < j < |s|
      ensures TextKey(s[i]) != TextKey(s[j])
    {
      assert TextKey(s[i])[0] == s[i] && TextKey(s[j])[0] == s[j];
    }
  }

  lemma SortedUniqueMeaning(s: seq<string>)
    ensures StrictlySorted(TextKey, SortedUnique(s)) && Elements(SortedUnique(s)) == Elements(s)
  {
    DedupeMeaning(s);
    DistinctTextKeys(Dedupe(s));
    SortByDistinct(TextKey, Dedupe(s));
  }

  /** Two lists have the same canonical list exactly when they have the same members. */
  lemma SortedUniqueSame(a: seq<string>, b: seq<string>)
    ensures SortedUnique(a) == SortedUnique(b) <==> Elements(a) == Elements(b)
  {
    SortedUniqueMeaning(a);
    SortedUniqueMeaning(b);
    if Elements(a) == Elements(b) {
      StrictlySortedUnique(TextKey, SortedUnique(a), SortedUnique(b));
    }
  }

  lemma SortedUniqueIdempotent(s: seq<string>)
    ensures SortedUnique(SortedUnique(s)) == SortedUnique(s)
    ensures SortedUnique(s) == [] <==> s == []
  {
    SortedUniqueMeaning(s);
    SortedUniqueSame(SortedUnique(s), s);
    if s != [] {
      assert s[0] in Elements(SortedUnique(s));
    }
  }

  lemma SortedUniqueDistinct(s: seq<string>)
    ensures Distinct(SortedUnique(s)) && Elements(SortedUnique(s)) == Elements(s)
    ensures forall v :: v in SortedUnique(s) <==> v in s
    ensures SortedUnique(s) == [] <==> s == []
  {
    SortedUniqueMeaning(s);
    StrictIsSorted(TextKey, SortedUnique(s));
    SortedUniqueIdempotent(s);
    assert forall v :: v in SortedUnique(s) <==> v in Elements(SortedUnique(s));
  }

  /** Remove repeats, then sort: the form every set-valued member takes. */
  method ComputeSortedUnique(input: seq<string>) returns (out: seq<string>)
    ensures out == SortedUnique(input)
    ensures StrictlySorted(TextKey, out) && Elements(out) == Elements(input)
  {
    var unique := RemoveRepeats(input);
    out := SortBy(TextKey, unique);
    SortedUniqueMeaning(input);
  }

  function Map<S, T>(f: S -> T, s: seq<S>): (r: seq<T>)
    ensures |r| == |s|
    ensures forall i | 0 <= i < |s| :: r[i] == f(s[i])
  {
    seq(|s|, i requires 0 <= i < |s| => f(s[i]))
  }
}
