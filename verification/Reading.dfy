/** When the canonical spelling of a set-valued text tells which members the text had. */
module Reading {
  import opened Lists
  import opened SetText
  import opened Respelling

  /** Texts with one canonical spelling have the same members. */
  ghost predicate TellsMembers(sep: string)
    requires sep != ""
  {
    forall a, b | Respell(a, sep) == Respell(b, sep) :: MembersOf(a, sep) == MembersOf(b, sep)
  }

  /** A separator is legible when it cannot overlap a copy of itself shifted by k, unless a character next to
      the overlap is white space, which no member begins or ends with. */
  predicate Legible(sep: string)
  {
    forall k | 1 <= k < |sep| :: sep[k..] == sep[..|sep| - k] ==> IsSpace(sep[k - 1]) || IsSpace(sep[|sep| - k])
  }

  lemma UnambiguousIsLegible(sep: string)
    requires Unambiguous(sep)
    ensures Legible(sep)
  {
  }

  // ---------------------------------------------------------------------------------------------
  // A legible separator: joined members can be read in one way

  lemma {:induction false} JoinedStart(members: seq<string>, sep: string)
    requires members != [] && members[0] != ""
    ensures |Join(members, sep)| >= |members[0]| && Join(members, sep)[..|members[0]|] == members[0]
    ensures |members| == 1 ==> Join(members, sep) == members[0]
    ensures |members| > 1 ==> Join(members, sep) == members[0] + (sep + Join(members[1..], sep))
  {
  }

  /** Where one list has a shorter first member, its separator overlaps the other's. */
  lemma FirstOverlap(a: seq<string>, b: seq<string>, sep: string)
    requires sep != "" && a != [] && b != []
    requires (forall m | m in a :: GoodMember(m, sep)) && (forall m | m in b :: GoodMember(m, sep))
    requires Join(a, sep) == Join(b, sep) && |a[0]| < |b[0]|
    ensures !Legible(sep)
  {
    assert GoodMember(a[0], sep) && GoodMember(b[0], sep);
    hide Join, Contains, Occurs, IsSpace, Legible;
    JoinedStart(a, sep);
    JoinedStart(b, sep);
    var p := a[1];
    assert p in a && GoodMember(p, sep);
    JoinedStart(a[1..], sep);
    var back := Join(a[1..], sep);
    assert back[0] == back[..|p|][0] == p[0];
    var text, i := Join(a, sep), |a[0]|;
    assert text[i..i + |sep|] == sep;
    NotInside(text, b[0], sep, i);
    TwoReadings(text, a[0], back, b[0], Join(b[1..], sep), sep);
  }

  /** A text that begins with m and a separator, and also with a longer n and a separator. */
  lemma TwoReadings(text: string, m: string, back: string, n: string, more: string, sep: string)
    requires text == m + (sep + back) && text == n + (sep + more) && |m| < |n| < |m| + |sep|
    requires !IsSpace(n[|n| - 1]) && back != "" && !IsSpace(back[0])
    ensures !Legible(sep)
  {
    hide IsSpace;
    var d := |n| - |m|;
    assert text[|m|..|m| + |sep|] == sep;
    assert text[|n|..|n| + |sep|] == sep;
    OverlapFound(text, sep, |m|, d);
    assert n[|n| - 1] == text[|n| - 1] == text[|m|..|m| + |sep|][d - 1];
    assert back[0] == text[|m| + |sep|] == text[|n|..|n| + |sep|][|sep| - d];
  }

  /** A first member without the separator ends before the separator found in the text does. */
  lemma NotInside(text: string, n: string, sep: string, i: nat)
    requires i + |sep| <= |text| && text[i..i + |sep|] == sep
    requires |n| <= |text| && text[..|n|] == n && !Contains(n, sep)
    ensures |n| < i + |sep|
  {
    if i + |sep| <= |n| {
      assert n[i..i + |sep|] == text[i..i + |sep|];
      assert Occurs(n, sep, i);
    }
  }

  lemma OverlapFound(text: string, sep: string, i: nat, d: nat)
    requires 1 <= d < |sep| && i + d + |sep| <= |text|
    requires text[i..i + |sep|] == sep && text[i + d..i + d + |sep|] == sep
    ensures sep[d..] == sep[..|sep| - d]
  {
    forall j | 0 <= j < |sep| - d
      ensures sep[d..][j] == sep[..|sep| - d][j]
    {
      assert sep[d + j] == text[i..i + |sep|][d + j] == text[i + d + j];
      assert sep[j] == text[i + d..i + d + |sep|][j] == text[i + d + j];
    }
  }

  /** On a legible separator a list of members is determined by its joined text. */
  lemma {:induction false} JoinInjective(a: seq<string>, b: seq<string>, sep: string)
    requires sep != "" && Legible(sep)
    requires (forall m | m in a :: GoodMember(m, sep)) && (forall m | m in b :: GoodMember(m, sep))
    requires Join(a, sep) == Join(b, sep)
    ensures a == b
  {
    if a == [] || b == [] {
      NothingJoined(a, sep);
      NothingJoined(b, sep);
    } else {
      if |a[0]| < |b[0]| {
        FirstOverlap(a, b, sep);
      } else if |b[0]| < |a[0]| {
        FirstOverlap(b, a, sep);
      }
      assert GoodMember(a[0], sep) && GoodMember(b[0], sep);
      hide GoodMember, Legible;
      JoinedStart(a, sep);
      JoinedStart(b, sep);
      assert a[0] == b[0];
      if |a| > 1 && |b| > 1 {
        SamePrefix(a[0], sep, Join(a[1..], sep), Join(b[1..], sep));
        JoinInjective(a[1..], b[1..], sep);
      }
      assert a == [a[0]] + a[1..] && b == [b[0]] + b[1..];
    }
  }

  lemma NothingJoined(a: seq<string>, sep: string)
    requires sep != "" && forall m | m in a :: GoodMember(m, sep)
    ensures Join(a, sep) == "" <==> a == []
  {
    if a != [] {
      assert GoodMember(a[0], sep);
      JoinedStart(a, sep);
    }
  }

  lemma LegibleTells(a: string, b: string, sep: string)
    requires sep != "" && Legible(sep) && Respell(a, sep) == Respell(b, sep)
    ensures MembersOf(a, sep) == MembersOf(b, sep)
  {
    hide MembersOf, Legible, GoodMember;
    MembersAreGood(a, sep);
    MembersAreGood(b, sep);
    JoinInjective(MembersOf(a, sep), MembersOf(b, sep), sep);
  }

  // ---------------------------------------------------------------------------------------------
  // An illegible separator: two lists with one joined text

  /** The separator overlaps itself shifted by k with no white space next to the overlap. */
  predicate BlursAt(sep: string, k: nat)
  {
    OverlapsAt(sep, k) && !IsSpace(sep[|sep| - k])
  }

  /** A member, which the first k characters of the separator can be added to, in order before the others. */
  predicate Blurred(sep: string, k: nat, x: string)
    requires BlursAt(sep, k)
  {
    && x != "" && Trimmed(x)
    && Less(x + sep[..k], Run(sep)) && Less(x, Rest(sep, k) + Run(sep))
  }

  function BlurOne(sep: string, k: nat, x: string): string
    requires BlursAt(sep, k)
  {
    Run(sep) + (sep + (x + sep[..k]))
  }

  function BlurOther(sep: string, k: nat, x: string): string
    requires BlursAt(sep, k)
  {
    (Rest(sep, k) + Run(sep)) + (sep + x)
  }

  lemma BlurParts(sep: string, k: nat, x: string)
    requires BlursAt(sep, k) && Blurred(sep, k, x)
    ensures var a, b, run := x + sep[..k], Rest(sep, k) + Run(sep), Run(sep);
            && Solid(run, sep) && Solid(b, sep)
            && Trimmed(a) && Trimmed(b) && Trimmed(run) && a != "" && b != "" && run != "" && a != x
            && a + (sep + run) == x + (sep + b)
  {
    hide Less, IsSpace, Filler;
    var run := Run(sep);
    FillersAreSolid(sep, run);
    assert run + "" == run;
    ShortThenRun(sep, Rest(sep, k), "");
    assert (x + sep[..k])[|x| + k - 1] == sep[k - 1];
    CutAt(sep, k);
    CutAt(sep, |sep| - k);
    Regroup(x, sep[..k], sep[..|sep| - k], Rest(sep, k), run);
    assert |x + sep[..k]| > |x|;
  }

  /** Two texts with different members and one canonical spelling. */
  lemma BlurredTexts(sep: string, k: nat, x: string)
    requires BlursAt(sep, k) && Blurred(sep, k, x)
    requires !Contains(x, sep) && !Contains(x + sep[..k], sep)
    ensures var one, other := BlurOne(sep, k, x), BlurOther(sep, k, x);
            && Respell(one, sep) == Respell(other, sep) && MembersOf(one, sep) != MembersOf(other, sep)
            && MembersOf(one, sep) != [] && MembersOf(other, sep) != []
  {
    var a, b, run := x + sep[..k], Rest(sep, k) + Run(sep), Run(sep);
    BlurParts(sep, k, x);
    hide Less, Run, Rest, Trimmed, Solid, Contains, Split, TrimParts, SortedUnique;
    SplitTwo(run, a, sep);
    SplitTwo(b, x, sep);
    TrimTwo(run, a);
    TrimTwo(b, x);
    TwoSorted(a, run);
    TwoSorted(x, b);
    JoinTwo(a, run, sep);
    JoinTwo(x, b, sep);
    assert [a, run][0] != [x, b][0];
  }

  /** The least character, or the next one where the separator begins with it. */
  function Lowest(sep: string): char
    requires sep != ""
  {
    if sep[0] == '\0' then '\U{1}' else '\0'
  }

  lemma NotThere(s: string, sep: string, i: nat, j: nat)
    requires j < |sep| && i + j < |s| && s[i + j] != sep[j]
    ensures !Occurs(s, sep, i)
  {
    assert i + |sep| <= |s| ==> s[i..i + |sep|][j] == s[i + j];
  }

  lemma ShortLacks(s: string, sep: string)
    requires |s| <= |sep| && s != sep
    ensures !Contains(s, sep)
  {
    assert s[0..|s|] == s;
  }

  lemma BeginsOtherwise(s: string, sep: string)
    requires sep != "" && s != "" && |s| <= |sep| && s[0] != sep[0]
    ensures !Contains(s, sep)
  {
    forall i
      ensures !Occurs(s, sep, i)
    {
      if i == 0 {
        OccursStart(s, sep, 0);
      }
    }
  }

  lemma LowerThanRun(sep: string, s: string)
    requires sep != "" && s != "" && s[0] < '!'
    ensures Less(s, Run(sep))
  {
    LessAt(s, Run(sep), 0);
  }

  /** The usual case: a character below what the other list's second member begins with. */
  lemma LowBlurs(sep: string, k: nat)
    requires BlursAt(sep, k) && Lowest(sep) <= sep[|sep| - k]
    ensures var x := [Lowest(sep)];
            Blurred(sep, k, x) && !Contains(x, sep) && !Contains(x + sep[..k], sep)
  {
    var x, b := [Lowest(sep)], Rest(sep, k) + Run(sep);
    LowerThanRun(sep, x + sep[..k]);
    BeginsOtherwise(x, sep);
    BeginsOtherwise(x + sep[..k], sep);
    assert b[0] == sep[|sep| - k];
    if x[0] < b[0] {
      LessAt(x, b, 0);
    } else {
      assert b == x + b[1..];
      LessLonger(x, b[1..]);
    }
  }

  /** The overlap begins with the least character, as the separator does. */
  lemma LeastBlurs(sep: string, k: nat)
    requires BlursAt(sep, k) && sep[0] == '\0' && sep[|sep| - k] == '\0' && ['\0'] + sep[..k] != sep
    ensures var x := ['\0'];
            Blurred(sep, k, x) && !Contains(x, sep) && !Contains(x + sep[..k], sep)
  {
    var x, b := ['\0'], Rest(sep, k) + Run(sep);
    var a := x + sep[..k];
    LowerThanRun(sep, a);
    assert b == x + b[1..];
    LessLonger(x, b[1..]);
    ShortLacks(x, sep);
    ShortLacks(a, sep);
  }

  /** A separator of least characters only. */
  lemma ZerosBlur(sep: string, k: nat)
    requires BlursAt(sep, k) && sep[0] == '\0' && ['\0'] + sep[..k] == sep
    ensures BlursAt(sep, 1)
    ensures var x := ['\0', '\U{1}'];
            Blurred(sep, 1, x) && !Contains(x, sep) && !Contains(x + sep[..1], sep)
  {
    var x := ['\0', '\U{1}'];
    var a, b := x + sep[..1], Rest(sep, 1) + Run(sep);
    assert |sep| == k + 1 && sep[1..] == sep[..|sep| - 1];
    assert sep[k..][0] == sep[..1][0] && sep[1] == '\0';
    LowerThanRun(sep, a);
    assert x[..1] == b[..1];
    LessAt(x, b, 1);
    assert a == ['\0', '\U{1}', '\0'];
    NotThere(a, sep, 0, 1);
    NotThere(a, sep, 1, 0);
    NotThere(x, sep, 0, 1);
  }

  /** Two texts that an illegible separator makes look alike. */
  lemma Lookalikes(sep: string) returns (one: string, other: string)
    requires sep != "" && !Legible(sep)
    ensures Respell(one, sep) == Respell(other, sep) && MembersOf(one, sep) != MembersOf(other, sep)
    ensures MembersOf(one, sep) != [] && MembersOf(other, sep) != []
  {
    var k: nat :| k < |sep| && 1 <= k && sep[k..] == sep[..|sep| - k]
                  && !IsSpace(sep[k - 1]) && !IsSpace(sep[|sep| - k]);
    assert BlursAt(sep, k);
    var x := [Lowest(sep)];
    if Lowest(sep) <= sep[|sep| - k] {
      LowBlurs(sep, k);
    } else if ['\0'] + sep[..k] != sep {
      x := ['\0'];
      LeastBlurs(sep, k);
    } else {
      x := ['\0', '\U{1}'];
      ZerosBlur(sep, k);
      k := 1;
    }
    one, other := BlurOne(sep, k, x), BlurOther(sep, k, x);
    BlurredTexts(sep, k, x);
  }

  /** The canonical spelling of a text tells its members, for every text, if and only if the separator is
      legible. */
  lemma TellsMembersExactly(sep: string)
    requires sep != ""
    ensures TellsMembers(sep) <==> Legible(sep)
  {
    hide Legible, Respell, MembersOf;
    if Legible(sep) {
      forall a, b | Respell(a, sep) == Respell(b, sep)
        ensures MembersOf(a, sep) == MembersOf(b, sep)
      {
        LegibleTells(a, b, sep);
      }
    } else {
      var one, other := Lookalikes(sep);
    }
  }

  // ---------------------------------------------------------------------------------------------
  // Spelling twice

  /** Two solid members are read back, whichever comes first. */
  lemma SolidPair(x: string, y: string, sep: string)
    requires sep != "" && Solid(x, sep) && Solid(y, sep)
    requires x != "" && y != "" && Trimmed(x) && Trimmed(y)
    ensures MembersOf(x + (sep + y), sep) == SortedUnique([x, y])
    ensures MembersOf(y + (sep + x), sep) == SortedUnique([x, y])
  {
    hide Solid, Trimmed, Split, SortedUnique, TrimParts, Contains;
    SolidLacks(x, sep);
    SolidLacks(y, sep);
    SplitTwo(x, y, sep);
    SplitTwo(y, x, sep);
    TrimTwo(x, y);
    TrimTwo(y, x);
    SortedUniqueSame([x, y], [y, x]);
    assert Elements([x, y]) == Elements([y, x]);
  }

  lemma SolidPairStays(x: string, y: string, sep: string)
    requires sep != "" && Solid(x, sep) && Solid(y, sep)
    requires x != "" && y != "" && Trimmed(x) && Trimmed(y) && x != y
    ensures MembersOf(Join(SortedUnique([x, y]), sep), sep) == SortedUnique([x, y])
  {
    hide Solid, Trimmed, SortedUnique, MembersOf, Less;
    SolidPair(x, y, sep);
    JoinOfTwo(x, y, sep);
  }

  lemma SolidEnd(s: string, sep: string, i: nat)
    requires sep != "" && Solid(s, sep) && i <= |s|
    ensures Solid(s[i..], sep)
  {
    hide Filler;
    var t := s[i..];
    forall j | 0 <= j < |t|
      ensures t[j] == Filler(sep) || (j + |sep| - 1 < |t| && t[j + |sep| - 1] == Filler(sep))
    {
      assert t[j] == s[i + j];
      assert j + |sep| - 1 < |t| ==> t[j + |sep| - 1] == s[i + j + |sep| - 1];
    }
  }

  /** What the separator leaves of the last member. */
  lemma LastPiece(sep: string, k: nat)
    requires OverlapsAt(sep, k)
    ensures var w := TrimSpace(Rest(sep, k) + Closed(sep, k));
            Solid(w, sep) && w != "" && Trimmed(w) && |w| > |sep|
  {
    var b := Closed(sep, k);
    var s := Rest(sep, k) + b;
    TrapsAreSolid(sep, k);
    TrapsAreTrimmed(sep, k);
    TrimmedRest(sep, k, b);
    assert |b| > |sep| && s[|s| - 1] == b[|b| - 1];
    TrimLeftKeepsLast(s);
    TrimLeftStart(s);
    var i :| 0 <= i <= |s| && TrimLeft(s) == s[i..];
    SolidEnd(s, sep, i);
  }

  function Caught(sep: string, k: nat): string
    requires OverlapsAt(sep, k)
  {
    Closed(sep, k) + (sep + Bait(sep, k))
  }

  lemma CaughtOnce(sep: string, k: nat)
    requires OverlapsAt(sep, k)
    ensures MembersOf(Caught(sep, k), sep) == [Bait(sep, k), Closed(sep, k)]
    ensures Respell(Caught(sep, k), sep) == Run(sep) + (sep + (Rest(sep, k) + Closed(sep, k)))
  {
    var a, b := Bait(sep, k), Closed(sep, k);
    TrapsAreSolid(sep, k);
    TrapsAreTrimmed(sep, k);
    BaitLacks(sep, k);
    BaitTaken(sep, k, b);
    assert b == a + Run(sep) && Caught(sep, k) == b + (sep + a);
    LessLonger(a, Run(sep));
    hide Solid, Run, Rest, Trimmed, Less, Split, SortedUnique, TrimParts, Contains, Bait, Closed, Caught;
    SplitTwo(b, a, sep);
    TrimTwo(b, a);
    TwoSorted(a, b);
    JoinTwo(a, b, sep);
  }

  /** Spelled once, the text has other members; spelled again, it keeps those. */
  lemma CaughtTwice(sep: string, k: nat)
    requires OverlapsAt(sep, k)
    ensures var once := Respell(Caught(sep, k), sep);
            && MembersOf(once, sep) != MembersOf(Caught(sep, k), sep) && MembersOf(once, sep) != []
            && MembersOf(Respell(once, sep), sep) == MembersOf(once, sep)
  {
    var f, w := Run(sep), TrimSpace(Rest(sep, k) + Closed(sep, k));
    TrapsAreSolid(sep, k);
    TrapsAreTrimmed(sep, k);
    LastPiece(sep, k);
    assert f != Bait(sep, k) && f != Closed(sep, k) && f != w;
    hide *;
    CaughtOnce(sep, k);
    CaughtMembers(sep, k);
    RespellIsJoin(Respell(Caught(sep, k), sep), sep);
    SolidPairStays(f, w, sep);
    HasFirst(f, w);
    assert f !in [Bait(sep, k), Closed(sep, k)];
  }

  lemma RespellIsJoin(text: string, sep: string)
    requires sep != ""
    ensures Respell(text, sep) == Join(MembersOf(text, sep), sep)
  {
  }

  lemma CaughtMembers(sep: string, k: nat)
    requires OverlapsAt(sep, k)
    ensures MembersOf(Respell(Caught(sep, k), sep), sep)
         == SortedUnique([Run(sep), TrimSpace(Rest(sep, k) + Closed(sep, k))])
  {
    var f, tail := Run(sep), Rest(sep, k) + Closed(sep, k);
    var w := TrimSpace(tail);
    TrapsAreSolid(sep, k);
    TrapsAreTrimmed(sep, k);
    LastPiece(sep, k);
    SolidLacks(tail, sep);
    CaughtOnce(sep, k);
    hide Solid, Trimmed, TrimSpace, Split, SortedUnique, TrimParts, Contains, Run, Closed, Caught, Rest, Respell;
    assert [f] + [tail] == [f, tail] && [f] + [w] == [f, w];
    SplitTwo(f, tail, sep);
    TrimLast([f], tail);
  }

  lemma HasFirst(x: string, y: string)
    ensures x in SortedUnique([x, y])
  {
    SortedUniqueMeaning([x, y]);
    assert x in Elements([x, y]) && x in Elements(SortedUnique([x, y]));
  }

  /** Texts whose canonical spelling, spelled again, is one have the same members. */
  ghost predicate TellsMembersTwice(sep: string)
    requires sep != ""
  {
    forall a, b | Respell(Respell(a, sep), sep) == Respell(Respell(b, sep), sep) ::
      MembersOf(a, sep) == MembersOf(b, sep)
  }

  /** A text that has other members than its canonical spelling, which keeps its own. */
  lemma Drifting(sep: string) returns (text: string)
    requires sep != "" && !Unambiguous(sep)
    ensures var once := Respell(text, sep);
            && MembersOf(once, sep) != MembersOf(text, sep) && MembersOf(text, sep) != [] && MembersOf(once, sep) != []
            && MembersOf(Respell(once, sep), sep) == MembersOf(once, sep)
  {
    var k: nat :| k < |sep| && 1 <= k && sep[k..] == sep[..|sep| - k] && !IsSpace(sep[k - 1]);
    assert OverlapsAt(sep, k);
    text := Caught(sep, k);
    CaughtOnce(sep, k);
    CaughtTwice(sep, k);
  }

  /** After two canonical spellings a text still tells its members, for every text, if and only if the
      separator is unambiguous. */
  lemma TellsMembersTwiceExactly(sep: string)
    requires sep != ""
    ensures TellsMembersTwice(sep) <==> Unambiguous(sep)
  {
    hide Unambiguous, Respell, MembersOf;
    if Unambiguous(sep) {
      KeepsMembersExactly(sep);
      forall a, b | Respell(Respell(a, sep), sep) == Respell(Respell(b, sep), sep)
        ensures MembersOf(a, sep) == MembersOf(b, sep)
      {
        KeptTwice(a, sep);
        KeptTwice(b, sep);
      }
    } else {
      var text := Drifting(sep);
      SameMembersSpellAlike(Respell(text, sep), Respell(Respell(text, sep), sep), sep);
    }
  }

  lemma KeptTwice(a: string, sep: string)
    requires sep != "" && KeepsMembers(sep)
    ensures MembersOf(Respell(Respell(a, sep), sep), sep) == MembersOf(a, sep)
  {
    hide Respell, MembersOf;
    assert MembersOf(Respell(a, sep), sep) == MembersOf(a, sep);
  }

  /** Texts with the same members have one canonical spelling, on every separator. */
  lemma SameMembersSpellAlike(a: string, b: string, sep: string)
    requires sep != ""
    ensures Elements(MembersOf(a, sep)) == Elements(MembersOf(b, sep)) ==>
              MembersOf(a, sep) == MembersOf(b, sep) && Respell(a, sep) == Respell(b, sep)
  {
    hide MembersOf;
    MembersAreGood(a, sep);
    MembersAreGood(b, sep);
    if Elements(MembersOf(a, sep)) == Elements(MembersOf(b, sep)) {
      StrictlySortedUnique(TextKey, MembersOf(a, sep), MembersOf(b, sep));
    }
  }
}
