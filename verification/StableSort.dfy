/** When two lists sort alike: what a stable sort keeps of the order it was given. */
module StableSort {
  import opened Lists

  /** The elements with a key, in the order they stand in. */
  function Only<T>(key: T -> Key, k: Key, s: seq<T>): seq<T>
  {
    if s == [] then []
    else (if key(s[0]) == k then [s[0]] else []) + Only(key, k, s[1..])
  }

  lemma {:induction false} OnlyOfInsert<T>(key: T -> Key, k: Key, x: T, s: seq<T>)
    ensures Only(key, k, Insert(key, x, s)) == if key(x) == k then [x] + Only(key, k, s) else Only(key, k, s)
  {
    hide KeyLess;
    var r := Insert(key, x, s);
    if s != [] && KeyLess(key(s[0]), key(x)) {
      OnlyOfInsert(key, k, x, s[1..]);
      OnlyOfFirst(key, k, s[0], Insert(key, x, s[1..]));
      OnlyOfFirst(key, k, s[0], s[1..]);
      assert s == [s[0]] + s[1..];
      KeyLessIrreflexive(key(x));
      hide Only, Insert;
      if key(s[0]) != k {
        assert Only(key, k, s) == Only(key, k, s[1..]);
      }
    } else {
      OnlyOfFirst(key, k, x, s);
    }
  }

  lemma OnlyOfFirst<T>(key: T -> Key, k: Key, x: T, s: seq<T>)
    ensures key(x) == k ==> Only(key, k, [x] + s) == [x] + Only(key, k, s)
    ensures key(x) != k ==> Only(key, k, [x] + s) == Only(key, k, s)
  {
    assert ([x] + s)[1..] == s;
  }

  /** Sorting keeps the order among elements that share a key. */
  lemma {:induction false} OnlyOfSort<T>(key: T -> Key, k: Key, s: seq<T>)
    ensures Only(key, k, SortBy(key, s)) == Only(key, k, s)
  {
    if s != [] {
      OnlyOfSort(key, k, s[1..]);
      OnlyOfInsert(key, k, s[0], SortBy(key, s[1..]));
    }
  }

  lemma {:induction false} OnlyElements<T>(key: T -> Key, k: Key, s: seq<T>)
    ensures forall x :: x in Only(key, k, s) <==> x in s && key(x) == k
    ensures forall x | key(x) == k :: multiset(Only(key, k, s))[x] == multiset(s)[x]
  {
    if s != [] {
      OnlyElements(key, k, s[1..]);
      assert s == [s[0]] + s[1..];
    }
  }

  lemma SmallestKey<T>(key: T -> Key, a: seq<T>, b: seq<T>)
    requires a != [] && b != [] && Sorted(key, a) && Sorted(key, b)
    requires (exists x :: x in b && key(x) == key(a[0])) && (exists y :: y in a && key(y) == key(b[0]))
    ensures key(a[0]) == key(b[0])
  {
    var x :| x in b && key(x) == key(a[0]);
    var i :| 0 <= i < |b| && b[i] == x;
    var y :| y in a && key(y) == key(b[0]);
    var j :| 0 <= j < |a| && a[j] == y;
    KeyLessIrreflexive(key(a[0]));
    KeyLessTotal(key(a[0]), key(b[0]));
  }

  /** Key by key, the same elements in the same order. */
  ghost predicate SameByKey<T>(key: T -> Key, a: seq<T>, b: seq<T>)
  {
    forall k :: Only(key, k, a) == Only(key, k, b)
  }

  lemma {:induction false} SortedByOnly<T>(key: T -> Key, a: seq<T>, b: seq<T>)
    requires Sorted(key, a) && Sorted(key, b) && SameByKey(key, a, b)
    ensures a == b
    decreases |a|
  {
    hide Only, KeyLess, SameByKey;
    if a == [] {
      EmptySame(key, b);
    } else {
      FirstSame(key, a, b);
      TailsSame(key, a, b);
      SortedByOnly(key, a[1..], b[1..]);
      assert a == [a[0]] + a[1..] && b == [b[0]] + b[1..];
    }
  }

  lemma EmptySame<T>(key: T -> Key, b: seq<T>)
    requires SameByKey(key, [], b)
    ensures b == []
  {
    forall k
      ensures Only(key, k, b) == []
    {
      assert Only(key, k, []) == Only(key, k, b);
    }
    NothingOnly(key, b);
  }

  lemma FirstSame<T>(key: T -> Key, a: seq<T>, b: seq<T>)
    requires a != [] && Sorted(key, a) && Sorted(key, b) && SameByKey(key, a, b)
    ensures b != [] && a[0] == b[0]
  {
    hide KeyLess, Sorted;
    var k := key(a[0]);
    assert Only(key, k, a) == Only(key, k, b);
    FirstKept(key, a);
    NonEmptyOnly(key, b, a[0]);
    var j := key(b[0]);
    assert Only(key, j, a) == Only(key, j, b);
    FirstKept(key, b);
    OnlyElements(key, k, b);
    OnlyElements(key, j, a);
    hide Only;
    assert Only(key, k, b)[0] in Only(key, k, b);
    assert Only(key, j, a)[0] in Only(key, j, a);
    SmallestKey(key, a, b);
  }

  lemma TailsSame<T>(key: T -> Key, a: seq<T>, b: seq<T>)
    requires a != [] && b != [] && a[0] == b[0] && SameByKey(key, a, b)
    ensures SameByKey(key, a[1..], b[1..])
  {
    forall j
      ensures Only(key, j, a[1..]) == Only(key, j, b[1..])
    {
      var head := if key(a[0]) == j then [a[0]] else [];
      assert Only(key, j, a) == head + Only(key, j, a[1..]);
      assert Only(key, j, b) == head + Only(key, j, b[1..]);
      DropHead(head, Only(key, j, a[1..]), Only(key, j, b[1..]));
    }
  }

  lemma NothingOnly<T>(key: T -> Key, s: seq<T>)
    requires forall k :: Only(key, k, s) == []
    ensures s == []
  {
    FirstKept(key, s);
  }

  lemma FirstKept<T>(key: T -> Key, s: seq<T>)
    ensures s != [] ==> Only(key, key(s[0]), s) != [] && Only(key, key(s[0]), s)[0] == s[0]
  {
  }

  lemma NonEmptyOnly<T>(key: T -> Key, s: seq<T>, x: T)
    requires Only(key, key(x), s) != []
    ensures s != []
  {
  }

  lemma DropHead<T>(head: seq<T>, a: seq<T>, b: seq<T>)
    requires head + a == head + b
    ensures a == b
  {
    assert (head + a)[|head|..] == a && (head + b)[|head|..] == b;
  }

  /** Two lists sort to one list exactly when, key by key, the same elements stand in the same order. */
  lemma SortedSame<T>(key: T -> Key, a: seq<T>, b: seq<T>)
    ensures SortBy(key, a) == SortBy(key, b) <==> SameByKey(key, a, b)
  {
    hide SortBy, Only;
    if SortBy(key, a) == SortBy(key, b) {
      forall k
        ensures Only(key, k, a) == Only(key, k, b)
      {
        OnlyOfSort(key, k, a);
        OnlyOfSort(key, k, b);
      }
    }
    if SameByKey(key, a, b) {
      forall k
        ensures Only(key, k, SortBy(key, a)) == Only(key, k, SortBy(key, b))
      {
        OnlyOfSort(key, k, a);
        OnlyOfSort(key, k, b);
      }
      SortBySorted(key, a);
      SortBySorted(key, b);
      SortedByOnly(key, SortBy(key, a), SortBy(key, b));
    }
  }

  // ---------------------------------------------------------------------------------------------
  // Lists whose elements are brought to a canonical form first

  lemma {:induction false} OnlyOfMap<T>(key: T -> Key, canon: T -> T, k: Key, s: seq<T>)
    requires forall x :: key(canon(x)) == key(x)
    ensures Only(key, k, Map(canon, s)) == Map(canon, Only(key, k, s))
  {
    if s != [] {
      OnlyOfMap(key, canon, k, s[1..]);
      assert Map(canon, s) == [canon(s[0])] + Map(canon, s[1..]);
    }
  }

  ghost predicate Alike<T(!new)>(same: (T, T) -> bool, a: seq<T>, b: seq<T>)
  {
    |a| == |b| && forall i | 0 <= i < |a| :: same(a[i], b[i])
  }

  /** Key by key, the elements agree one by one, in order. */
  ghost predicate InStep<T(!new)>(key: T -> Key, same: (T, T) -> bool, a: seq<T>, b: seq<T>)
  {
    forall k :: Alike(same, Only(key, k, a), Only(key, k, b))
  }

  lemma SinglesInStep<T(!new)>(key: T -> Key, same: (T, T) -> bool, x: T, y: T)
    requires InStep(key, same, [x], [y])
    ensures same(x, y)
  {
    assert Alike(same, Only(key, key(x), [x]), Only(key, key(x), [y]));
    assert Only(key, key(x), [x]) == [x];
    assert Only(key, key(x), [y])[0] == y;
  }

  /** A finer relation keeps lists in step by a coarser one. */
  lemma InStepImplied<T(!new)>(
    key: T -> Key, fine: (T, T) -> bool, coarse: (T, T) -> bool, a: seq<T>, b: seq<T>)
    requires forall x, y | x in a && y in b && fine(x, y) :: coarse(x, y)
    ensures InStep(key, fine, a, b) ==> InStep(key, coarse, a, b)
  {
    if InStep(key, fine, a, b) {
      forall k
        ensures Alike(coarse, Only(key, k, a), Only(key, k, b))
      {
        OnlyElements(key, k, a);
        OnlyElements(key, k, b);
        var p, q := Only(key, k, a), Only(key, k, b);
        assert Alike(fine, p, q);
        forall i | 0 <= i < |p|
          ensures coarse(p[i], q[i])
        {
          assert p[i] in p && q[i] in q;
        }
      }
    }
  }

  lemma AlikeMapped<T(!new)>(canon: T -> T, same: (T, T) -> bool, a: seq<T>, b: seq<T>)
    requires forall x, y | x in a && y in b :: canon(x) == canon(y) <==> same(x, y)
    ensures Map(canon, a) == Map(canon, b) <==> Alike(same, a, b)
  {
    var ca, cb := Map(canon, a), Map(canon, b);
    if ca == cb {
      forall i | 0 <= i < |a|
        ensures same(a[i], b[i])
      {
        assert ca[i] == cb[i] && a[i] in a && b[i] in b;
      }
    }
    if Alike(same, a, b) {
      forall i | 0 <= i < |a|
        ensures ca[i] == cb[i]
      {
        assert a[i] in a && b[i] in b;
      }
    }
  }

  /** Canonicalizing each element and sorting stably gives one list exactly for lists in step. */
  lemma SortedMapSame<T(!new)>(key: T -> Key, canon: T -> T, same: (T, T) -> bool, a: seq<T>, b: seq<T>)
    requires forall x :: key(canon(x)) == key(x)
    requires forall x, y | x in a && y in b :: canon(x) == canon(y) <==> same(x, y)
    ensures SortBy(key, Map(canon, a)) == SortBy(key, Map(canon, b)) <==> InStep(key, same, a, b)
  {
    hide SortBy, Alike, Only;
    SortedSame(key, Map(canon, a), Map(canon, b));
    forall k
      ensures Only(key, k, Map(canon, a)) == Only(key, k, Map(canon, b))
         <==> Alike(same, Only(key, k, a), Only(key, k, b))
    {
      OnlyOfMap(key, canon, k, a);
      OnlyOfMap(key, canon, k, b);
      OnlyElements(key, k, a);
      OnlyElements(key, k, b);
      AlikeMapped(canon, same, Only(key, k, a), Only(key, k, b));
    }
  }

  /** The same elements up to `same`, in any order. */
  ghost predicate SameUpTo<T(!new)>(same: (T, T) -> bool, a: seq<T>, b: seq<T>)
  {
    && (forall x | x in a :: exists y :: y in b && same(x, y))
    && (forall y | y in b :: exists x :: x in a && same(x, y))
  }

  lemma {:induction false} OnlyUnique<T>(key: T -> Key, k: Key, s: seq<T>)
    requires DistinctKeys(key, s)
    ensures |Only(key, k, s)| <= 1
  {
    if s != [] {
      OnlyUnique(key, k, s[1..]);
      OnlyElements(key, k, s[1..]);
      if key(s[0]) == k {
        forall x | x in s[1..]
          ensures key(x) != k
        {
          var i :| 0 <= i < |s[1..]| && s[1..][i] == x;
          assert s[i + 1] == x;
        }
        NoneOnly(key, k, s[1..]);
      }
    }
  }

  lemma {:induction false} NoneOnly<T>(key: T -> Key, k: Key, s: seq<T>)
    requires forall x | x in s :: key(x) != k
    ensures Only(key, k, s) == []
  {
    if s != [] {
      assert s[0] in s;
      NoneOnly(key, k, s[1..]);
    }
  }

  /** Where keys tell elements apart, being in step is having the same elements. */
  lemma InStepUnique<T(!new)>(key: T -> Key, same: (T, T) -> bool, a: seq<T>, b: seq<T>)
    requires DistinctKeys(key, a) && DistinctKeys(key, b)
    requires forall x, y | same(x, y) :: key(x) == key(y)
    ensures InStep(key, same, a, b) <==> SameUpTo(same, a, b)
  {
    forall k
      ensures |Only(key, k, a)| <= 1 && |Only(key, k, b)| <= 1
      ensures forall x :: x in Only(key, k, a) <==> x in a && key(x) == k
      ensures forall x :: x in Only(key, k, b) <==> x in b && key(x) == k
    {
      OnlyUnique(key, k, a);
      OnlyUnique(key, k, b);
      OnlyElements(key, k, a);
      OnlyElements(key, k, b);
    }
    if InStep(key, same, a, b) {
      forall x | x in a
        ensures exists y :: y in b && same(x, y)
      {
        assert Alike(same, Only(key, key(x), a), Only(key, key(x), b)) && x in Only(key, key(x), a);
        assert Only(key, key(x), b)[0] in Only(key, key(x), b);
      }
      forall y | y in b
        ensures exists x :: x in a && same(x, y)
      {
        assert Alike(same, Only(key, key(y), a), Only(key, key(y), b)) && y in Only(key, key(y), b);
        assert Only(key, key(y), a)[0] in Only(key, key(y), a);
      }
    }
    if SameUpTo(same, a, b) {
      forall k
        ensures Alike(same, Only(key, k, a), Only(key, k, b))
      {
        AlikeSingles(key, same, a, b, k);
      }
    }
  }

  lemma AlikeSingles<T(!new)>(key: T -> Key, same: (T, T) -> bool, a: seq<T>, b: seq<T>, k: Key)
    requires SameUpTo(same, a, b) && forall x, y | same(x, y) :: key(x) == key(y)
    requires |Only(key, k, a)| <= 1 && |Only(key, k, b)| <= 1
    requires forall x :: x in Only(key, k, a) <==> x in a && key(x) == k
    requires forall x :: x in Only(key, k, b) <==> x in b && key(x) == k
    ensures Alike(same, Only(key, k, a), Only(key, k, b))
  {
    AlikeAtMostOne(key, same, a, b, k, Only(key, k, a), Only(key, k, b));
  }

  lemma AlikeAtMostOne<T(!new)>(
    key: T -> Key, same: (T, T) -> bool, a: seq<T>, b: seq<T>, k: Key, oa: seq<T>, ob: seq<T>)
    requires SameUpTo(same, a, b) && forall x, y | same(x, y) :: key(x) == key(y)
    requires |oa| <= 1 && |ob| <= 1
    requires forall x :: x in oa <==> x in a && key(x) == k
    requires forall x :: x in ob <==> x in b && key(x) == k
    ensures Alike(same, oa, ob)
  {
    hide SameUpTo;
    if ob != [] {
      assert ob[0] in ob;
      Copartner(same, a, b, ob[0]);
      var x :| x in a && same(x, ob[0]);
      assert x in oa;
    }
    if oa != [] {
      assert oa[0] in oa;
      Partner(same, a, b, oa[0]);
      var y :| y in b && same(oa[0], y);
      assert y in ob;
      assert ob == [y];
    }
  }

  lemma Partner<T(!new)>(same: (T, T) -> bool, a: seq<T>, b: seq<T>, x: T)
    requires SameUpTo(same, a, b) && x in a
    ensures exists y :: y in b && same(x, y)
  {
  }

  lemma Copartner<T(!new)>(same: (T, T) -> bool, a: seq<T>, b: seq<T>, y: T)
    requires SameUpTo(same, a, b) && y in b
    ensures exists x :: x in a && same(x, y)
  {
  }

  // ---------------------------------------------------------------------------------------------
  // When order does not matter at all

  ghost predicate Reordered<T>(a: seq<T>, b: seq<T>)
  {
    multiset(a) == multiset(b)
  }

  ghost predicate EveryOrderAlike<T(!new)>(key: T -> Key, canon: T -> T, s: seq<T>)
  {
    forall t | Reordered(s, t) :: SortBy(key, Map(canon, t)) == SortBy(key, Map(canon, s))
  }

  ghost predicate KeyFixesForm<T(!new)>(key: T -> Key, canon: T -> T, s: seq<T>)
  {
    forall i, j | 0 <= i < j < |s| && key(s[i]) == key(s[j]) :: canon(s[i]) == canon(s[j])
  }

  lemma {:induction false} OnlyOfSum<T>(key: T -> Key, k: Key, a: seq<T>, b: seq<T>)
    ensures Only(key, k, a + b) == Only(key, k, a) + Only(key, k, b)
  {
    if a == [] {
      assert a + b == b;
    } else {
      OnlyOfSum(key, k, a[1..], b);
      assert a == [a[0]] + a[1..] && a + b == [a[0]] + (a[1..] + b);
      OnlyOfFirst(key, k, a[0], a[1..] + b);
      OnlyOfFirst(key, k, a[0], a[1..]);
      hide Only;
      var head := [a[0]];
      assert head + (Only(key, k, a[1..]) + Only(key, k, b)) == head + Only(key, k, a[1..]) + Only(key, k, b);
    }
  }

  lemma OnlyWithout<T>(key: T -> Key, k: Key, s: seq<T>, j: nat)
    requires j < |s|
    ensures |Only(key, k, s)| == |Only(key, k, s[..j] + s[j + 1..])| + if key(s[j]) == k then 1 else 0
  {
    var front, back := s[..j], s[j + 1..];
    assert s == front + ([s[j]] + back);
    OnlyOfSum(key, k, front, back);
    OnlyOfSum(key, k, front, [s[j]] + back);
    assert ([s[j]] + back)[1..] == back;
  }

  /** The place of a's first element in a reordering of a. */
  lemma Matching<T>(a: seq<T>, b: seq<T>) returns (j: nat)
    requires Reordered(a, b) && a != []
    ensures j < |b| && b[j] == a[0] && Reordered(a[1..], b[..j] + b[j + 1..])
  {
    assert a[0] in multiset(a) && a[0] in multiset(b);
    j :| 0 <= j < |b| && b[j] == a[0];
    assert a[..0] + a[1..] == a[1..];
    WithoutOne(a, 0);
    WithoutOne(b, j);
  }

  lemma WithoutOne<T>(s: seq<T>, j: nat)
    requires j < |s|
    ensures multiset(s[..j] + s[j + 1..]) == multiset(s) - multiset{s[j]}
  {
    assert s == s[..j] + [s[j]] + s[j + 1..];
  }

  lemma {:induction false} OnlyLengths<T>(key: T -> Key, k: Key, a: seq<T>, b: seq<T>)
    requires Reordered(a, b)
    ensures |Only(key, k, a)| == |Only(key, k, b)|
  {
    hide Only;
    if a == [] {
      assert |multiset(b)| == |multiset(a)| == 0;
    } else {
      var j := Matching(a, b);
      var front, back := b[..j], b[j + 1..];
      OnlyLengths(key, k, a[1..], front + back);
      OnlyWithout(key, k, a, 0);
      OnlyWithout(key, k, b, j);
      assert a[..0] + a[1..] == a[1..];
    }
  }

  lemma FormOfKey<T(!new)>(key: T -> Key, canon: T -> T, s: seq<T>, x: T, y: T)
    requires KeyFixesForm(key, canon, s) && x in s && y in s && key(x) == key(y)
    ensures canon(x) == canon(y)
  {
    var i :| 0 <= i < |s| && s[i] == x;
    var j :| 0 <= j < |s| && s[j] == y;
  }

  lemma FormsAlike<T(!new)>(key: T -> Key, canon: T -> T, s: seq<T>, t: seq<T>, k: Key)
    requires KeyFixesForm(key, canon, s) && Reordered(s, t)
    ensures Map(canon, Only(key, k, t)) == Map(canon, Only(key, k, s))
  {
    OnlyLengths(key, k, s, t);
    OnlyElements(key, k, s);
    OnlyElements(key, k, t);
    var os, ot := Only(key, k, s), Only(key, k, t);
    SameMembers(s, t);
    forall i | 0 <= i < |os|
      ensures canon(os[i]) == canon(ot[i])
    {
      assert os[i] in os && ot[i] in ot;
      assert ot[i] in Elements(t);
      FormOfKey(key, canon, s, os[i], ot[i]);
    }
  }

  function ToFront<T>(s: seq<T>, i: nat): seq<T>
    requires i < |s|
  {
    [s[i]] + s[..i] + s[i + 1..]
  }

  lemma ToFrontReorders<T>(s: seq<T>, i: nat)
    requires i < |s|
    ensures Reordered(s, ToFront(s, i))
  {
    assert s == s[..i] + [s[i]] + s[i + 1..];
  }

  lemma FirstOfKey<T>(key: T -> Key, s: seq<T>, i: nat)
    requires i < |s|
    ensures Only(key, key(s[i]), ToFront(s, i)) != [] && Only(key, key(s[i]), ToFront(s, i))[0] == s[i]
  {
    assert ToFront(s, i)[0] == s[i];
  }

  /** Every order of a list has one canonical form if and only if elements that share a key have one. */
  lemma EveryOrderAlikeExactly<T(!new)>(key: T -> Key, canon: T -> T, s: seq<T>)
    requires forall x :: key(canon(x)) == key(x)
    ensures EveryOrderAlike(key, canon, s) <==> KeyFixesForm(key, canon, s)
  {
    hide SortBy, Only, ToFront, Reordered;
    if KeyFixesForm(key, canon, s) {
      forall t | Reordered(s, t)
        ensures SortBy(key, Map(canon, t)) == SortBy(key, Map(canon, s))
      {
        forall k
          ensures Only(key, k, Map(canon, t)) == Only(key, k, Map(canon, s))
        {
          OnlyOfMap(key, canon, k, s);
          OnlyOfMap(key, canon, k, t);
          FormsAlike(key, canon, s, t, k);
        }
        SortedSame(key, Map(canon, t), Map(canon, s));
      }
    }
    if EveryOrderAlike(key, canon, s) {
      forall i, j | 0 <= i < j < |s| && key(s[i]) == key(s[j])
        ensures canon(s[i]) == canon(s[j])
      {
        ToFrontReorders(s, i);
        ToFrontReorders(s, j);
        var k := key(s[i]);
        var a, b := ToFront(s, i), ToFront(s, j);
        SortedSame(key, Map(canon, a), Map(canon, b));
        assert Only(key, k, Map(canon, a)) == Only(key, k, Map(canon, b));
        OnlyOfMap(key, canon, k, a);
        OnlyOfMap(key, canon, k, b);
        FirstOfKey(key, s, i);
        FirstOfKey(key, s, j);
        assert Map(canon, Only(key, k, a))[0] == canon(s[i]);
        assert Map(canon, Only(key, k, b))[0] == canon(s[j]);
      }
    }
  }
}
