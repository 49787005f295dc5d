/** Set-valued parameter text: splitting on a separator, trimming, and joining again. */
module SetText {
  import opened Lists

  /** White space as the trimmer reads it. */
  predicate IsSpace(c: char)
  {
    c in "\t\n\U{0B}\U{0C}\r \U{85}\U{A0}\U{1680}\U{2028}\U{2029}\U{202F}\U{205F}\U{3000}"
    || '\U{2000}' <= c <= '\U{200A}'
  }

  /** White space, by code point: the characters that Unicode gives that property. */
  lemma SpaceCharacters(c: char)
    ensures var n := c as int;
            IsSpace(c) <==>
              || 0x09 <= n <= 0x0D || n == 0x20 || n == 0x85 || n == 0xA0 || n == 0x1680
              || 0x2000 <= n <= 0x200A || n == 0x2028 || n == 0x2029 || n == 0x202F || n == 0x205F || n == 0x3000
  {
  }

  function TrimLeft(s: string): (r: string)
    ensures |r| <= |s|
  {
    if s != "" && IsSpace(s[0]) then TrimLeft(s[1..]) else s
  }

  function TrimRight(s: string): (r: string)
    ensures |r| <= |s|
  {
    if s != "" && IsSpace(s[|s| - 1]) then TrimRight(s[..|s| - 1]) else s
  }

  function TrimSpace(s: string): string
  {
    TrimRight(TrimLeft(s))
  }

  /** Nothing to trim at either end. */
  predicate Trimmed(s: string)
  {
    s != "" ==> !IsSpace(s[0]) && !IsSpace(s[|s| - 1])
  }

  lemma {:induction false} TrimLeftStart(s: string)
    ensures TrimLeft(s) != "" ==> !IsSpace(TrimLeft(s)[0])
    ensures exists k :: 0 <= k <= |s| && TrimLeft(s) == s[k..]
  {
    if s != "" && IsSpace(s[0]) {
      TrimLeftStart(s[1..]);
      var k :| 0 <= k <= |s[1..]| && TrimLeft(s[1..]) == s[1..][k..];
      assert s[1..][k..] == s[k + 1..];
    } else {
      assert s[0..] == s;
    }
  }

  lemma {:induction false} TrimRightEnd(s: string)
    ensures TrimRight(s) != "" ==> !IsSpace(TrimRight(s)[|TrimRight(s)| - 1])
    ensures exists k :: 0 <= k <= |s| && TrimRight(s) == s[..k]
  {
    hide IsSpace;
    if s != "" && IsSpace(s[|s| - 1]) {
      var t := s[..|s| - 1];
      TrimRightEnd(t);
      var k :| 0 <= k <= |t| && TrimRight(t) == t[..k];
      assert t[..k] == s[..k];
    } else {
      assert s[..|s|] == s;
    }
  }

  /** Trimming gives a stretch of the text with no white space at its ends. */
  lemma TrimSpaceMeaning(s: string)
    ensures Trimmed(TrimSpace(s))
    ensures exists i, j :: 0 <= i <= j <= |s| && TrimSpace(s) == s[i..j]
  {
    TrimLeftStart(s);
    var t := TrimLeft(s);
    var i :| 0 <= i <= |s| && t == s[i..];
    TrimRightEnd(t);
    var k :| 0 <= k <= |t| && TrimSpace(s) == t[..k];
    assert t[..k] == s[i..i + k];
  }

  lemma {:induction false} TrimmedUnchanged(s: string)
    requires Trimmed(s)
    ensures TrimSpace(s) == s
  {
  }

  // ---------------------------------------------------------------------------------------------
  // Splitting and joining

  predicate Occurs(s: string, sep: string, i: int)
  {
    0 <= i <= |s| - |sep| && s[i..i + |sep|] == sep
  }

  ghost predicate Contains(s: string, sep: string)
  {
    exists i :: Occurs(s, sep, i)
  }

  /** The first index at or after `from` where sep occurs, or |s| when there is none. */
  function Find(s: string, sep: string, from: nat): (r: nat)
    requires from <= |s| && sep != ""
    ensures from <= r <= |s|
    ensures r < |s| ==> Occurs(s, sep, r)
    ensures forall i | from <= i < r :: !Occurs(s, sep, i)
    decreases |s| - from
  {
    if from == |s| || Occurs(s, sep, from) then from else Find(s, sep, from + 1)
  }

  /** Cut at each occurrence from left to right, without overlap. */
  function Split(s: string, sep: string): (r: seq<string>)
    requires sep != ""
    ensures r != []
    decreases |s|
  {
    var i := Find(s, sep, 0);
    if i == |s| then [s] else [s[..i]] + Split(s[i + |sep|..], sep)
  }

  function Join(parts: seq<string>, sep: string): string
  {
    if parts == [] then ""
    else if |parts| == 1 then parts[0]
    else parts[0] + (sep + Join(parts[1..], sep))
  }

  lemma {:induction false} PartsLackSeparator(s: string, sep: string)
    requires sep != ""
    ensures forall p | p in Split(s, sep) :: !Contains(p, sep)
    decreases |s|
  {
    var i := Find(s, sep, 0);
    if i == |s| {
      forall j
        ensures !Occurs(s, sep, j)
      {
      }
    } else {
      forall j
        ensures !Occurs(s[..i], sep, j)
      {
        if Occurs(s[..i], sep, j) {
          assert s[j..j + |sep|] == s[..i][j..j + |sep|];
          assert Occurs(s, sep, j);
        }
      }
      PartsLackSeparator(s[i + |sep|..], sep);
    }
  }

  lemma OccursInPiece(s: string, sep: string, i: nat, j: nat, k: int)
    requires i <= j <= |s| && Occurs(s[i..j], sep, k)
    ensures Occurs(s, sep, i + k)
  {
    forall n | 0 <= n < |sep|
      ensures s[i + k..i + k + |sep|][n] == sep[n]
    {
      assert sep[n] == s[i..j][k..k + |sep|][n] == s[i..j][k + n] == s[i + k + n];
    }
    assert s[i + k..i + k + |sep|] == sep;
  }

  lemma OccursStart(s: string, sep: string, i: nat)
    requires sep != "" && i < |s| && s[i] != sep[0]
    ensures !Occurs(s, sep, i)
  {
    assert i <= |s| - |sep| ==> s[i..i + |sep|][0] == s[i];
  }

  lemma OccursAfter(x: string, sep: string, y: string)
    ensures Occurs(x + (sep + y), sep, |x|)
  {
    assert (x + (sep + y))[|x|..|x| + |sep|] == sep;
  }

  lemma FoundAtOne(text: string, sep: string)
    requires sep != "" && |text| > 1 && text[0] != sep[0] && Occurs(text, sep, 1)
    ensures Find(text, sep, 0) == 1
  {
    hide Find;
    OccursStart(text, sep, 0);
    hide Occurs;
    var r := Find(text, sep, 0);
    assert r <= 1 && r < |text|;
  }

  lemma PieceLacksSeparator(s: string, sep: string, i: nat, j: nat)
    requires i <= j <= |s| && !Contains(s, sep)
    ensures !Contains(s[i..j], sep)
  {
    forall k
      ensures !Occurs(s[i..j], sep, k)
    {
      if Occurs(s[i..j], sep, k) {
        OccursInPiece(s, sep, i, j, k);
      }
    }
  }

  /** Keep the trimmed parts that are not empty. */
  function TrimParts(parts: seq<string>): (r: seq<string>)
  {
    if parts == [] then []
    else
      var front := TrimParts(parts[..|parts| - 1]);
      var m := TrimSpace(parts[|parts| - 1]);
      if m == "" then front else front + [m]
  }

  /** What a member list may hold. */
  ghost predicate GoodMember(m: string, sep: string)
  {
    m != "" && Trimmed(m) && !Contains(m, sep)
  }

  lemma {:induction false} TrimPartsGood(parts: seq<string>, sep: string)
    requires forall p | p in parts :: !Contains(p, sep)
    ensures forall m | m in TrimParts(parts) :: GoodMember(m, sep)
  {
    if parts != [] {
      TrimPartsGood(parts[..|parts| - 1], sep);
      var p := parts[|parts| - 1];
      TrimSpaceMeaning(p);
      var i, j :| 0 <= i <= j <= |p| && TrimSpace(p) == p[i..j];
      PieceLacksSeparator(p, sep, i, j);
    }
  }

  lemma {:induction false} TrimPartsUnchanged(parts: seq<string>, sep: string)
    requires forall p | p in parts :: GoodMember(p, sep)
    ensures TrimParts(parts) == parts
  {
    if parts != [] {
      TrimPartsUnchanged(parts[..|parts| - 1], sep);
      assert GoodMember(parts[|parts| - 1], sep);
      TrimmedUnchanged(parts[|parts| - 1]);
      assert parts == parts[..|parts| - 1] + [parts[|parts| - 1]];
    }
  }

  /** The members a set-valued text lists: trimmed, without repeats, in order. */
  function MembersOf(text: string, sep: string): seq<string>
    requires sep != ""
  {
    SortedUnique(TrimParts(Split(text, sep)))
  }

  lemma MembersAreGood(text: string, sep: string)
    requires sep != ""
    ensures StrictlySorted(TextKey, MembersOf(text, sep))
    ensures forall m | m in MembersOf(text, sep) :: GoodMember(m, sep)
  {
    PartsLackSeparator(text, sep);
    TrimPartsGood(Split(text, sep), sep);
    SortedUniqueMeaning(TrimParts(Split(text, sep)));
    assert forall m | m in MembersOf(text, sep) :: m in Elements(TrimParts(Split(text, sep)));
  }

  /** Cutting a set-valued text into its members, as the program's loop does. */
  method Members(text: string, sep: string) returns (out: seq<string>)
    requires sep != ""
    ensures out == MembersOf(text, sep)
  {
    hide Split, TrimSpace, SortedUnique;
    var parts := Split(text, sep);
    out := [];
    for i := 0 to |parts|
      invariant out == TrimParts(parts[..i])
    {
      assert parts[..i + 1][..i] == parts[..i];
      var m := TrimSpace(parts[i]);
      if m != "" {
        out := out + [m];
      }
    }
    assert parts[..|parts|] == parts;
    out := ComputeSortedUnique(out);
  }

  // ---------------------------------------------------------------------------------------------
  // When joining and splitting are inverse

  /** A separator is unambiguous when it cannot overlap a copy of itself shifted by k, unless the
      character just before the overlap is white space, which no member ends in. Every separator of
      one character is unambiguous. */
  predicate Unambiguous(sep: string)
  {
    forall k | 1 <= k < |sep| :: sep[k..] == sep[..|sep| - k] ==> IsSpace(sep[k - 1])
  }

  /** No member can run into the separator that follows it. */
  lemma SeparatorStandsFirst(m: string, sep: string, rest: string)
    requires sep != "" && Unambiguous(sep) && GoodMember(m, sep)
    ensures Find(m + (sep + rest), sep, 0) == |m|
  {
    var s := m + (sep + rest);
    assert Occurs(s, sep, |m|) by {
      assert s[|m|..|m| + |sep|] == sep;
    }
    forall i | 0 <= i < |m|
      ensures !Occurs(s, sep, i)
    {
      if Occurs(s, sep, i) {
        if i + |sep| <= |m| {
          OccursInside(m, sep + rest, sep, i);
        } else {
          Overlap(m, sep, rest, i);
        }
      }
    }
  }

  lemma OccursInside(m: string, tail: string, sep: string, i: nat)
    requires Occurs(m + tail, sep, i) && i + |sep| <= |m|
    ensures Occurs(m, sep, i)
  {
    assert m[i..i + |sep|] == (m + tail)[i..i + |sep|];
  }

  lemma Overlap(m: string, sep: string, rest: string, i: nat)
    requires i < |m| < i + |sep|
    requires Occurs(m + (sep + rest), sep, i)
    ensures var k := |m| - i; sep[k..] == sep[..|sep| - k] && sep[k - 1] == m[|m| - 1]
  {
    var s := m + (sep + rest);
    var k := |m| - i;
    forall j | 0 <= j < |sep| - k
      ensures sep[k..][j] == sep[..|sep| - k][j]
    {
      assert sep[k + j] == s[i..i + |sep|][k + j] == s[|m| + j] == sep[j];
    }
    assert sep[k - 1] == s[i..i + |sep|][k - 1] == s[|m| - 1];
  }

  lemma NoSeparatorNoSplit(m: string, sep: string)
    requires sep != "" && !Contains(m, sep)
    ensures Split(m, sep) == [m]
  {
  }

  lemma OneMember(m: string, sep: string)
    requires sep != "" && GoodMember(m, sep)
    ensures Split(m, sep) == [m]
  {
    NoSeparatorNoSplit(m, sep);
  }

  lemma SplitStep(m: string, sep: string, rest: string)
    requires sep != "" && Find(m + (sep + rest), sep, 0) == |m|
    ensures Split(m + (sep + rest), sep) == [m] + Split(rest, sep)
  {
    hide Find;
    var s := m + (sep + rest);
    assert s[..|m|] == m && s[|m| + |sep|..] == rest;
  }

  lemma {:induction false} SplitUndoesJoin(members: seq<string>, sep: string)
    requires sep != "" && Unambiguous(sep) && members != []
    requires forall m | m in members :: GoodMember(m, sep)
    ensures Split(Join(members, sep), sep) == members
  {
    var m := members[0];
    assert GoodMember(m, sep);
    hide GoodMember, Unambiguous, Find, Split;
    if |members| == 1 {
      OneMember(m, sep);
      assert members == [m];
    } else {
      var rest := Join(members[1..], sep);
      SeparatorStandsFirst(m, sep, rest);
      SplitUndoesJoin(members[1..], sep);
      SplitStep(m, sep, rest);
      assert members == [m] + members[1..];
    }
  }

  /** A canonical member list survives being written out and read back. */
  lemma JoinedMembers(members: seq<string>, sep: string)
    requires sep != "" && Unambiguous(sep)
    requires StrictlySorted(TextKey, members) && forall m | m in members :: GoodMember(m, sep)
    ensures MembersOf(Join(members, sep), sep) == members
  {
    if members == [] {
      assert forall i :: !Occurs("", sep, i);
      NoSeparatorNoSplit("", sep);
      assert TrimParts([""]) == [];
    } else {
      SplitUndoesJoin(members, sep);
      TrimPartsUnchanged(members, sep);
      SortedUniqueMeaning(members);
      StrictlySortedUnique(TextKey, SortedUnique(members), members);
    }
  }

  /** The canonical spelling of a set-valued text. */
  function Respell(text: string, sep: string): string
    requires sep != ""
  {
    Join(MembersOf(text, sep), sep)
  }

  /** Respelling keeps the members of every text. */
  ghost predicate KeepsMembers(sep: string)
    requires sep != ""
  {
    forall text :: MembersOf(Respell(text, sep), sep) == MembersOf(text, sep)
  }

  /** Respelling keeps the members of every text exactly when the separator is unambiguous. */
  lemma KeepsMembersExactly(sep: string)
    requires sep != ""
    ensures KeepsMembers(sep) <==> Unambiguous(sep)
  {
    if Unambiguous(sep) {
      forall text
        ensures MembersOf(Respell(text, sep), sep) == MembersOf(text, sep)
      {
        MembersAreGood(text, sep);
        JoinedMembers(MembersOf(text, sep), sep);
      }
    } else {
      var k :| 1 <= k < |sep| && sep[k..] == sep[..|sep| - k] && !IsSpace(sep[k - 1]);
      LosesMembers(sep, k);
    }
  }

  /** A text whose members change when it is respelled: its second member ends in the first k
      characters of the separator, and sorting puts it in front of a separator. */
  function Trap(sep: string, k: nat): string
    requires 1 <= k < |sep|
  {
    TrapLast(sep) + (sep + TrapFirst(sep, k))
  }

  function LowChar(sep: string): char
    requires sep != ""
  {
    if sep[0] == '!' then '$' else '!'
  }

  function TrapFirst(sep: string, k: nat): string
    requires 1 <= k < |sep|
  {
    [LowChar(sep)] + sep[..k]
  }

  function TrapLast(sep: string): string
    requires sep != ""
  {
    [if sep[0] == '~' then '}' else '~']
  }

  lemma TrapSplits(sep: string, k: nat)
    requires 1 <= k < |sep|
    ensures Split(Trap(sep, k), sep) == [TrapLast(sep), TrapFirst(sep, k)]
  {
    hide Find, Split, Occurs, TrapFirst;
    var a, b := TrapFirst(sep, k), TrapLast(sep);
    OccursAfter(b, sep, a);
    FoundAtOne(Trap(sep, k), sep);
    NotInTrap(sep, k);
    NoSeparatorNoSplit(a, sep);
    SplitStep(b, sep, a);
  }

  lemma TrimTwo(b: string, a: string)
    requires a != "" && b != "" && Trimmed(a) && Trimmed(b)
    ensures TrimParts([b, a]) == [b, a]
  {
    TrimmedUnchanged(a);
    TrimmedUnchanged(b);
    assert [b, a][..1] == [b] && [b][..0] == [];
    assert TrimParts([b]) == [b];
  }

  lemma TwoSorted(a: string, b: string)
    requires Less(a, b)
    ensures SortedUnique([b, a]) == [a, b]
  {
    SortedUniqueMeaning([b, a]);
    StrictlySortedUnique(TextKey, SortedUnique([b, a]), [a, b]);
  }

  lemma TrapMembers(sep: string, k: nat)
    requires 1 <= k < |sep| && !IsSpace(sep[k - 1])
    ensures MembersOf(Trap(sep, k), sep) == [TrapFirst(sep, k), TrapLast(sep)]
  {
    var a, b := TrapFirst(sep, k), TrapLast(sep);
    TrapSplits(sep, k);
    TrimTwo(b, a);
    TwoSorted(a, b);
  }

  lemma NotInTrap(sep: string, k: nat)
    requires 1 <= k < |sep|
    ensures !Contains(TrapFirst(sep, k), sep)
  {
    var a := TrapFirst(sep, k);
    forall i
      ensures !Occurs(a, sep, i)
    {
      if i == 0 {
        OccursStart(a, sep, 0);
      }
    }
  }

  lemma LosesMembers(sep: string, k: nat)
    requires 1 <= k < |sep| && sep[k..] == sep[..|sep| - k] && !IsSpace(sep[k - 1])
    ensures MembersOf(Respell(Trap(sep, k), sep), sep) != MembersOf(Trap(sep, k), sep)
  {
    var a, b, c := TrapFirst(sep, k), TrapLast(sep), [LowChar(sep)];
    var text := a + (sep + b);
    TrapMembers(sep, k);
    JoinTwo(a, b, sep);
    TrapCutsEarly(sep, k);
    FirstPartIsMember(text, sep, c);
    assert c != a && c != b;
  }

  lemma JoinTwo(a: string, b: string, sep: string)
    ensures Join([a, b], sep) == a + (sep + b)
  {
    assert [a, b][1..] == [b];
  }

  lemma Regroup(c: string, a: string, p: string, q: string, b: string)
    ensures (c + a) + ((p + q) + b) == c + ((a + p) + (q + b))
  {
  }

  lemma CutAt(s: string, k: nat)
    requires k <= |s|
    ensures s == s[..k] + s[k..]
  {
  }

  lemma CutsAfterFirst(c: char, a: string, p: string, q: string, b: string, sep: string)
    requires sep == a + p && sep == p + q && sep != "" && c != sep[0]
    ensures Find(([c] + a) + (sep + b), sep, 0) == 1
    ensures (([c] + a) + (sep + b))[..1] == [c]
  {
    hide Find, Occurs;
    Regroup([c], a, p, q, b);
    OccursAfter([c], sep, q + b);
    FoundAtOne([c] + (sep + (q + b)), sep);
  }

  lemma TrapCutsEarly(sep: string, k: nat)
    requires 1 <= k < |sep| && sep[k..] == sep[..|sep| - k]
    requires LowChar(sep) != sep[0]
    ensures var text := TrapFirst(sep, k) + (sep + TrapLast(sep));
            Find(text, sep, 0) == 1 && text[..1] == [LowChar(sep)]
  {
    hide Find, Occurs, TrapLast, LowChar;
    CutAt(sep, k);
    CutAt(sep, |sep| - k);
    CutsAfterFirst(LowChar(sep), sep[..k], sep[..|sep| - k], sep[|sep| - k..], TrapLast(sep), sep);
  }

  lemma FirstPartIsMember(text: string, sep: string, c: string)
    requires sep != "" && |text| > 1 && Find(text, sep, 0) == 1 && text[..1] == c && Trimmed(c)
    ensures c in MembersOf(text, sep)
  {
    var parts := Split(text, sep);
    assert parts[0] == c;
    TrimmedUnchanged(c);
    TrimPartsKeep(parts, 0);
    SortedUniqueMeaning(TrimParts(parts));
    assert c in Elements(TrimParts(parts));
  }

  lemma {:induction false} TrimPartsKeep(parts: seq<string>, i: nat)
    requires i < |parts| && TrimSpace(parts[i]) != ""
    ensures TrimSpace(parts[i]) in TrimParts(parts)
  {
    if i < |parts| - 1 {
      TrimPartsKeep(parts[..|parts| - 1], i);
    }
  }

  /** A separator of one character is never ambiguous. */
  lemma OneCharacter(sep: string)
    requires |sep| == 1
    ensures KeepsMembers(sep)
  {
    KeepsMembersExactly(sep);
  }
}
