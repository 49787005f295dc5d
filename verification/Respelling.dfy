/** When respelling a set-valued text once is enough. */
module Respelling {
  import opened Lists
  import opened SetText

  ghost predicate RespellsOnce(sep: string)
    requires sep != ""
  {
    forall text :: Respell(Respell(text, sep), sep) == Respell(text, sep)
  }

  /** The separator overlaps itself shifted by k, and the character before the overlap is no white space. */
  predicate OverlapsAt(sep: string, k: nat)
  {
    1 <= k < |sep| && sep[k..] == sep[..|sep| - k] && !IsSpace(sep[k - 1])
  }

  // ---------------------------------------------------------------------------------------------
  // Runs of one character keep a separator out

  /** A character that neither starts nor ends the separator, and is no white space. */
  function Filler(sep: string): (f: char)
    requires sep != ""
    ensures f != sep[0] && f != sep[|sep| - 1] && !IsSpace(f)
  {
    if sep[0] != '!' && sep[|sep| - 1] != '!' then '!'
    else if sep[0] != '$' && sep[|sep| - 1] != '$' then '$'
    else '~'
  }

  /** As many fillers as the separator has characters. */
  function Run(sep: string): (r: string)
    requires sep != ""
    ensures |r| == |sep| && forall i | 0 <= i < |r| :: r[i] == Filler(sep)
  {
    seq(|sep|, i => Filler(sep))
  }

  /** Wherever a separator could begin, it would begin or end on a filler. */
  predicate Solid(s: string, sep: string)
    requires sep != ""
  {
    forall i | 0 <= i < |s| ::
      s[i] == Filler(sep) || (i + |sep| - 1 < |s| && s[i + |sep| - 1] == Filler(sep))
  }

  lemma NoneBegins(s: string, sep: string, i: nat)
    requires sep != "" && i < |s|
    requires s[i] == Filler(sep) || (i + |sep| - 1 < |s| && s[i + |sep| - 1] == Filler(sep))
    ensures !Occurs(s, sep, i)
  {
    if i + |sep| <= |s| {
      assert s[i..i + |sep|][0] == s[i];
      assert s[i..i + |sep|][|sep| - 1] == s[i + |sep| - 1];
    }
  }

  lemma SolidLacks(s: string, sep: string)
    requires sep != "" && Solid(s, sep)
    ensures !Contains(s, sep)
  {
    forall i
      ensures !Occurs(s, sep, i)
    {
      if 0 <= i < |s| {
        NoneBegins(s, sep, i);
      }
    }
  }

  /** A solid part is cut off exactly where the separator after it begins. */
  lemma SolidIsCut(m: string, sep: string, rest: string)
    requires sep != "" && Solid(m, sep)
    ensures Split(m + (sep + rest), sep) == [m] + Split(rest, sep)
  {
    hide Find, Split, Filler;
    var s := m + (sep + rest);
    OccursAfter(m, sep, rest);
    forall i | 0 <= i < |m|
      ensures !Occurs(s, sep, i)
    {
      NoneBegins(s, sep, i);
    }
    FoundAfter(m, sep, rest);
    SplitStep(m, sep, rest);
  }

  lemma FoundAfter(m: string, sep: string, rest: string)
    requires sep != "" && Occurs(m + (sep + rest), sep, |m|)
    requires forall i | 0 <= i < |m| :: !Occurs(m + (sep + rest), sep, i)
    ensures Find(m + (sep + rest), sep, 0) == |m|
  {
    hide Occurs, Find;
    var r := Find(m + (sep + rest), sep, 0);
  }

  lemma RunThenSolid(sep: string, s: string)
    requires sep != "" && Solid(s, sep)
    ensures Solid(Run(sep) + s, sep)
  {
    hide Filler, Run;
    var t := Run(sep) + s;
    forall i | 0 <= i < |t|
      ensures t[i] == Filler(sep) || (i + |sep| - 1 < |t| && t[i + |sep| - 1] == Filler(sep))
    {
      if i >= |sep| {
        assert t[i] == s[i - |sep|];
        assert i - 1 < |s| ==> t[i + |sep| - 1] == s[i - |sep| + |sep| - 1];
      }
    }
  }

  /** A short piece in front of a run. */
  lemma ShortThenRun(sep: string, g: string, s: string)
    requires sep != "" && |g| < |sep| && Solid(Run(sep) + s, sep)
    ensures Solid(g + (Run(sep) + s), sep)
  {
    hide Filler, Run;
    var r := Run(sep) + s;
    var t := g + r;
    forall i | 0 <= i < |t|
      ensures t[i] == Filler(sep) || (i + |sep| - 1 < |t| && t[i + |sep| - 1] == Filler(sep))
    {
      if i < |g| {
        assert t[i + |sep| - 1] == r[i + |sep| - 1 - |g|] == Run(sep)[i + |sep| - 1 - |g|];
      } else {
        assert t[i] == r[i - |g|];
        assert i + |sep| - 1 < |t| ==> t[i + |sep| - 1] == r[i - |g| + |sep| - 1];
      }
    }
  }

  lemma FillersAreSolid(sep: string, s: string)
    requires sep != "" && forall i | 0 <= i < |s| :: s[i] == Filler(sep)
    ensures Solid(s, sep)
  {
  }

  // ---------------------------------------------------------------------------------------------
  // The members of the traps

  /** One filler more than a run. */
  function Longer(sep: string): string
    requires sep != ""
  {
    Run(sep) + [Filler(sep)]
  }

  /** A run and the first k characters of the separator: followed by the separator, it is cut too early. */
  function Bait(sep: string, k: nat): string
    requires sep != "" && k <= |sep|
  {
    Run(sep) + sep[..k]
  }

  function Closed(sep: string, k: nat): string
    requires sep != "" && k <= |sep|
  {
    Run(sep) + (sep[..k] + Run(sep))
  }

  function Rest(sep: string, k: nat): string
    requires k <= |sep|
  {
    sep[|sep| - k..]
  }

  lemma TrapsAreSolid(sep: string, k: nat)
    requires OverlapsAt(sep, k)
    ensures Solid(Run(sep), sep) && Solid(Longer(sep), sep) && Solid(Closed(sep, k), sep)
    ensures Solid(Rest(sep, k) + Longer(sep), sep) && Solid(Rest(sep, k) + Closed(sep, k), sep)
  {
    hide Solid, Filler, Run;
    FillersAreSolid(sep, Run(sep));
    FillersAreSolid(sep, Longer(sep));
    FillersAreSolid(sep, [Filler(sep)]);
    FillersAreSolid(sep, "");
    assert Run(sep) + "" == Run(sep);
    ShortThenRun(sep, sep[..k], "");
    RunThenSolid(sep, sep[..k] + Run(sep));
    ShortThenRun(sep, Rest(sep, k), [Filler(sep)]);
    ShortThenRun(sep, Rest(sep, k), sep[..k] + Run(sep));
  }

  lemma BaitLacks(sep: string, k: nat)
    requires OverlapsAt(sep, k)
    ensures !Contains(Bait(sep, k), sep)
  {
    hide Filler;
    var a := Bait(sep, k);
    forall i
      ensures !Occurs(a, sep, i)
    {
      if 0 <= i <= |a| - |sep| {
        NoneBegins(a, sep, i);
      }
    }
  }

  lemma TrapsAreTrimmed(sep: string, k: nat)
    requires OverlapsAt(sep, k)
    ensures Trimmed(Run(sep)) && Trimmed(Longer(sep)) && Trimmed(Bait(sep, k)) && Trimmed(Closed(sep, k))
    ensures Run(sep) != "" && Longer(sep) != "" && Bait(sep, k) != "" && Closed(sep, k) != ""
  {
    hide IsSpace, Filler;
    var c := Closed(sep, k);
    assert c[|c| - 1] == Run(sep)[|sep| - 1];
  }

  /** The separator takes the bait: the text reads as a run, the separator, and its last k characters. */
  lemma BaitTaken(sep: string, k: nat, s: string)
    requires OverlapsAt(sep, k)
    ensures Bait(sep, k) + (sep + s) == Run(sep) + (sep + (Rest(sep, k) + s))
  {
    CutAt(sep, k);
    CutAt(sep, |sep| - k);
    Regroup(Run(sep), sep[..k], sep[..|sep| - k], Rest(sep, k), s);
  }

  // ---------------------------------------------------------------------------------------------
  // Comparing

  lemma {:induction false} LessAt(a: string, b: string, i: nat)
    requires i < |a| && i < |b| && a[..i] == b[..i] && a[i] < b[i]
    ensures Less(a, b)
  {
    if i > 0 {
      assert a[0] == a[..i][0] && b[0] == b[..i][0];
      assert a[1..][..i - 1] == a[..i][1..] && b[1..][..i - 1] == b[..i][1..];
      LessAt(a[1..], b[1..], i - 1);
    }
  }

  lemma {:induction false} LessLonger(a: string, s: string)
    requires s != ""
    ensures Less(a, a + s)
  {
    if a != "" {
      assert (a + s)[1..] == a[1..] + s;
      LessLonger(a[1..], s);
    } else {
      assert a + s == s;
    }
  }

  /** Something smaller than a text, and no shorter, does not begin with it. */
  lemma {:induction false} LessDiffers(m: string, a: string)
    requires Less(m, a) && |m| >= |a|
    ensures m[..|a|] != a
  {
    if m != "" && a != "" && m[0] == a[0] {
      LessDiffers(m[1..], a[1..]);
      assert m[1..][..|a| - 1] == m[..|a|][1..];
    } else {
      assert m != "" && a != "" ==> m[..|a|][0] == m[0];
    }
  }

  // ---------------------------------------------------------------------------------------------
  // Trimming and sorting the pieces

  lemma {:induction false} TrimLeftStops(g: string, s: string)
    requires s != "" && !IsSpace(s[0])
    ensures |TrimLeft(g + s)| >= |s| && TrimLeft(g + s) != ""
  {
    if g != "" {
      TrimLeftStops(g[1..], s);
      assert (g + s)[1..] == g[1..] + s;
    } else {
      assert g + s == s;
    }
  }

  lemma {:induction false} TrimLeftKeepsLast(s: string)
    requires s != "" && !IsSpace(s[|s| - 1])
    ensures TrimLeft(s) != "" && TrimLeft(s)[|TrimLeft(s)| - 1] == s[|s| - 1]
    ensures TrimSpace(s) == TrimLeft(s) && (IsSpace(s[0]) ==> |TrimLeft(s)| < |s|)
  {
    if IsSpace(s[0]) {
      TrimLeftKeepsLast(s[1..]);
    }
  }

  /** Trimming the last piece leaves at least what follows the separator's end. */
  lemma TrimmedRest(sep: string, k: nat, s: string)
    requires OverlapsAt(sep, k) && s != "" && Trimmed(s)
    ensures var t := Rest(sep, k) + s;
            |TrimSpace(t)| >= |s| && Trimmed(TrimSpace(t)) && (TrimSpace(t) == t ==> !IsSpace(t[0]))
            && (!IsSpace(t[0]) ==> TrimSpace(t) == t)
  {
    hide IsSpace;
    var t := Rest(sep, k) + s;
    TrimLeftStops(Rest(sep, k), s);
    assert t[|t| - 1] == s[|s| - 1];
    TrimLeftKeepsLast(t);
    TrimSpaceMeaning(t);
    if !IsSpace(t[0]) {
      TrimmedUnchanged(t);
    }
  }

  lemma TrimLast(parts: seq<string>, p: string)
    requires forall q | q in parts :: q != "" && Trimmed(q)
    requires TrimSpace(p) != ""
    ensures TrimParts(parts + [p]) == parts + [TrimSpace(p)]
  {
    hide Trimmed;
    TrimAll(parts);
    assert (parts + [p])[..|parts|] == parts;
  }

  lemma {:induction false} TrimAll(parts: seq<string>)
    requires forall q | q in parts :: q != "" && Trimmed(q)
    ensures TrimParts(parts) == parts
  {
    hide Trimmed, TrimSpace;
    if parts != [] {
      var front, last := parts[..|parts| - 1], parts[|parts| - 1];
      assert last in parts && forall q | q in front :: q in parts;
      TrimAll(front);
      TrimmedUnchanged(last);
      assert parts == front + [last];
    }
  }

  lemma TextLess(a: string, b: string)
    ensures KeyLess(TextKey(a), TextKey(b)) <==> Less(a, b)
  {
    assert TextKey(a)[0] == a && TextKey(b)[0] == b;
    assert TextKey(a)[1..] == [] && TextKey(b)[1..] == [];
  }

  lemma SortedThree(a: string, b: string, c: string, parts: seq<string>)
    requires Less(a, b) && Less(b, c) && Elements(parts) == {a, b, c}
    ensures SortedUnique(parts) == [a, b, c]
  {
    hide Less, KeyLess, TextKey;
    LessTransitive(a, b, c);
    TextLess(a, b);
    TextLess(b, c);
    TextLess(a, c);
    SortedUniqueMeaning(parts);
    assert Elements([a, b, c]) == {a, b, c};
    StrictlySortedUnique(TextKey, SortedUnique(parts), [a, b, c]);
  }

  lemma JoinThree(a: string, b: string, c: string, sep: string)
    ensures Join([a, b, c], sep) == a + (sep + (b + (sep + c)))
  {
    assert [a, b, c][1..] == [b, c];
    JoinTwo(b, c, sep);
  }

  /** The smallest member comes first, and something follows it. */
  lemma FirstOfMembers(parts: seq<string>, x: string, y: string, sep: string)
    requires x in parts && y in parts && x != y
    ensures var m := SortedUnique(parts);
            |m| >= 2 && (m[0] == x || Less(m[0], x)) && m[0] in parts
            && Join(m, sep) == m[0] + (sep + Join(m[1..], sep))
  {
    hide Less, KeyLess;
    var m := SortedUnique(parts);
    SortedUniqueMeaning(parts);
    assert x in Elements(m) && y in Elements(m);
    var i :| 0 <= i < |m| && m[i] == x;
    var j :| 0 <= j < |m| && m[j] == y;
    assert m[0] in Elements(m);
    if i > 0 {
      assert KeyLess(TextKey(m[0]), TextKey(m[i]));
      TextLess(m[0], x);
    }
  }

  /** A text that begins with a run is not the join of members that begin otherwise. */
  lemma JoinBeginsOtherwise(sep: string, parts: seq<string>, y: string, text: string)
    requires sep != "" && Run(sep) in parts && y in parts && y != Run(sep)
    requires forall p | p in parts :: |p| >= |sep|
    requires |text| > |sep| && text[..|sep|] == Run(sep)
    requires text[|sep|] != sep[0] || SortedUnique(parts)[..1] != [Run(sep)]
    ensures Join(SortedUnique(parts), sep) != text
  {
    hide Less, SortedUnique, Run;
    var m := SortedUnique(parts);
    FirstOfMembers(parts, Run(sep), y, sep);
    var joined := m[0] + (sep + Join(m[1..], sep));
    if m[0] == Run(sep) {
      assert m[..1] == [m[0]];
      assert joined[|sep|] == sep[0];
    } else {
      LessDiffers(m[0], Run(sep));
      assert joined[..|sep|] == m[0][..|sep|];
    }
  }

  lemma SplitThree(b: string, x: string, a: string, sep: string)
    requires sep != "" && Solid(b, sep) && Solid(x, sep) && !Contains(a, sep)
    ensures Split(b + (sep + (x + (sep + a))), sep) == [b, x, a]
  {
    hide Solid, Split, Contains;
    SolidIsCut(b, sep, x + (sep + a));
    SolidIsCut(x, sep, a);
    NoSeparatorNoSplit(a, sep);
  }

  /** Respelling, once the pieces and their order are known. */
  lemma RespellOfThree(text: string, sep: string, b: string, x: string, a: string, lo: string, mid: string, hi: string)
    requires sep != "" && Split(text, sep) == [b, x, a]
    requires forall q | q in [b, x, a] :: q != "" && Trimmed(q)
    requires {b, x, a} == {lo, mid, hi} && Less(lo, mid) && Less(mid, hi)
    ensures Respell(text, sep) == lo + (sep + (mid + (sep + hi)))
  {
    hide Split, Trimmed, Less, SortedUnique, TrimParts;
    TrimAll([b, x, a]);
    assert Elements([b, x, a]) == {b, x, a};
    SortedThree(lo, mid, hi, [b, x, a]);
    JoinThree(lo, mid, hi, sep);
  }

  lemma FirstPieceKept(text: string, sep: string)
    requires sep != "" && Split(text, sep)[0] != "" && Trimmed(Split(text, sep)[0])
    ensures MembersOf(text, sep) != []
  {
    hide Split, Trimmed, SortedUnique;
    var parts := Split(text, sep);
    TrimmedUnchanged(parts[0]);
    TrimPartsKeep(parts, 0);
    SortedUniqueIdempotent(TrimParts(parts));
  }

  lemma PiecesDiffer(text: string, sep: string, x: string, tail: string)
    requires sep != "" && Split(text, sep) == [x, Run(sep), tail]
    requires |x| > |sep| && Trimmed(x) && Trimmed(Run(sep)) && |TrimSpace(tail)| >= |sep|
    requires |text| > |sep| && text[..|sep|] == Run(sep) && text[|sep|] != sep[0]
    ensures Respell(text, sep) != text
  {
    hide Split, Trimmed, SortedUnique, TrimParts, TrimSpace, Join, Filler;
    var f := Run(sep);
    assert |f| == |sep|;
    hide Run;
    assert [x, f, tail] == [x, f] + [tail];
    TrimLast([x, f], tail);
    var parts := [x, f] + [TrimSpace(tail)];
    assert x in parts && f in parts;
    JoinBeginsOtherwise(sep, parts, x, text);
  }

  // ---------------------------------------------------------------------------------------------
  // A filler below the separator's first character

  /** The three members that are caught. */
  function LowTrap(sep: string, k: nat): string
    requires OverlapsAt(sep, k)
  {
    Closed(sep, k) + (sep + (Longer(sep) + (sep + Bait(sep, k))))
  }

  function LowOnce(sep: string, k: nat): string
    requires OverlapsAt(sep, k)
  {
    Longer(sep) + (sep + (Bait(sep, k) + (sep + Closed(sep, k))))
  }

  lemma LowOrder(sep: string, k: nat)
    requires OverlapsAt(sep, k) && Filler(sep) < sep[0]
    ensures Less(Longer(sep), Bait(sep, k)) && Less(Bait(sep, k), Closed(sep, k))
  {
    hide Less, Filler;
    var a := Bait(sep, k);
    assert Longer(sep)[..|sep|] == Run(sep) && a[..|sep|] == Run(sep);
    assert Longer(sep)[|sep|] == Filler(sep) && a[|sep|] == sep[0];
    LessAt(Longer(sep), a, |sep|);
    assert Closed(sep, k) == a + Run(sep);
    LessLonger(a, Run(sep));
  }

  lemma LowRespelled(sep: string, k: nat)
    requires OverlapsAt(sep, k) && Filler(sep) < sep[0]
    ensures Respell(LowTrap(sep, k), sep) == LowOnce(sep, k)
  {
    assert sep != "" && k <= |sep|;
    hide *;
    TrapsAreSolid(sep, k);
    TrapsAreTrimmed(sep, k);
    BaitLacks(sep, k);
    LowOrder(sep, k);
    var x, a, b := Longer(sep), Bait(sep, k), Closed(sep, k);
    SplitThree(b, x, a, sep);
    LowTrapIs(sep, k);
    RespellOfThree(LowTrap(sep, k), sep, b, x, a, x, a, b);
  }

  lemma LowTrapIs(sep: string, k: nat)
    requires OverlapsAt(sep, k)
    ensures LowTrap(sep, k) == Closed(sep, k) + (sep + (Longer(sep) + (sep + Bait(sep, k))))
    ensures LowOnce(sep, k) == Longer(sep) + (sep + (Bait(sep, k) + (sep + Closed(sep, k))))
  {
  }

  lemma LowRespelledAgain(sep: string, k: nat)
    requires OverlapsAt(sep, k)
    ensures Respell(LowOnce(sep, k), sep) != LowOnce(sep, k) && MembersOf(LowOnce(sep, k), sep) != []
  {
    var x, b, f := Longer(sep), Closed(sep, k), Run(sep);
    var tail := Rest(sep, k) + b;
    TrapsAreSolid(sep, k);
    TrapsAreTrimmed(sep, k);
    BaitTaken(sep, k, b);
    SolidLacks(tail, sep);
    TrimmedRest(sep, k, b);
    LowTrapIs(sep, k);
    LowBegins(sep, k);
    assert |b| >= |sep| && b != "" && |x| > |sep|;
    hide *;
    SplitThree(x, f, tail, sep);
    PiecesDiffer(LowOnce(sep, k), sep, x, tail);
    FirstPieceKept(LowOnce(sep, k), sep);
  }

  lemma LowBegins(sep: string, k: nat)
    requires OverlapsAt(sep, k)
    ensures var once := LowOnce(sep, k);
            |once| > |sep| && once[..|sep|] == Run(sep) && once[|sep|] != sep[0]
  {
    hide Run, Filler;
    var once := LowOnce(sep, k);
    assert once[..|sep|] == Run(sep) && once[|sep|] == Filler(sep);
  }

  // ---------------------------------------------------------------------------------------------
  // A filler above the separator's first character

  function HighTrap(sep: string, k: nat): string
    requires OverlapsAt(sep, k)
  {
    Longer(sep) + (sep + Bait(sep, k))
  }

  function HighOnce(sep: string, k: nat): string
    requires OverlapsAt(sep, k)
  {
    Bait(sep, k) + (sep + Longer(sep))
  }

  lemma SplitTwo(b: string, a: string, sep: string)
    requires sep != "" && Solid(b, sep) && !Contains(a, sep)
    ensures Split(b + (sep + a), sep) == [b, a]
  {
    hide Solid, Split, Contains;
    SolidIsCut(b, sep, a);
    NoSeparatorNoSplit(a, sep);
  }

  lemma HighOrder(sep: string, k: nat)
    requires OverlapsAt(sep, k) && sep[0] < Filler(sep)
    ensures Less(Bait(sep, k), Longer(sep)) && Less(Bait(sep, k), Closed(sep, k)) && Less(Closed(sep, k), Longer(sep))
  {
    hide Less, Filler, Run;
    var a, b, y := Bait(sep, k), Longer(sep), Closed(sep, k);
    assert b[..|sep|] == Run(sep) && a[..|sep|] == Run(sep) && y[..|sep|] == Run(sep);
    assert b[|sep|] == Filler(sep) && a[|sep|] == sep[0] && y[|sep|] == sep[0];
    LessAt(a, b, |sep|);
    LessAt(y, b, |sep|);
    assert y == a + Run(sep);
    LessLonger(a, Run(sep));
  }

  lemma HighRespelled(sep: string, k: nat)
    requires OverlapsAt(sep, k) && sep[0] < Filler(sep)
    ensures Respell(HighTrap(sep, k), sep) == HighOnce(sep, k)
  {
    TrapsAreSolid(sep, k);
    TrapsAreTrimmed(sep, k);
    BaitLacks(sep, k);
    HighOrder(sep, k);
    hide Solid, Run, Filler, Trimmed, Less, Find, Split, SortedUnique, TrimParts, Contains, Longer, Bait, Closed;
    var a, b := Bait(sep, k), Longer(sep);
    SplitTwo(b, a, sep);
    TrimTwo(b, a);
    TwoSorted(a, b);
    JoinTwo(a, b, sep);
  }

  /** Whether the text is cut apart once more into what it was joined from. */
  predicate Settles(sep: string, k: nat)
    requires OverlapsAt(sep, k)
  {
    var tail := Rest(sep, k) + Longer(sep);
    TrimSpace(tail) == tail && Less(Run(sep), tail)
  }

  lemma HighCut(sep: string, k: nat)
    requires OverlapsAt(sep, k)
    ensures var tail := Rest(sep, k) + Longer(sep);
            HighOnce(sep, k) == Run(sep) + (sep + tail)
            && Split(HighOnce(sep, k), sep) == [Run(sep), tail]
            && TrimParts([Run(sep), tail]) == [Run(sep), TrimSpace(tail)]
            && |TrimSpace(tail)| > |sep| && Trimmed(TrimSpace(tail))
  {
    var tail := Rest(sep, k) + Longer(sep);
    TrapsAreSolid(sep, k);
    TrapsAreTrimmed(sep, k);
    BaitTaken(sep, k, Longer(sep));
    SolidLacks(tail, sep);
    TrimmedRest(sep, k, Longer(sep));
    assert |Longer(sep)| > |sep|;
    hide *;
    HighOnceIs(sep, k);
    SplitTwo(Run(sep), tail, sep);
    assert [Run(sep)] + [tail] == [Run(sep), tail] && [Run(sep)] + [TrimSpace(tail)] == [Run(sep), TrimSpace(tail)];
    TrimLast([Run(sep)], tail);
  }

  lemma HighOnceIs(sep: string, k: nat)
    requires OverlapsAt(sep, k)
    ensures HighOnce(sep, k) == Bait(sep, k) + (sep + Longer(sep))
  {
  }

  /** Two members in either order, joined. */
  lemma JoinOfTwo(x: string, y: string, sep: string)
    requires x != y
    ensures var joined := Join(SortedUnique([x, y]), sep);
            if Less(x, y) then joined == x + (sep + y) else Less(y, x) && joined == y + (sep + x)
  {
    hide Less, SortedUnique;
    LessTotal(x, y);
    if Less(x, y) {
      TwoSorted(x, y);
      SortedUniqueSame([x, y], [y, x]);
      assert Elements([x, y]) == Elements([y, x]);
      JoinTwo(x, y, sep);
    } else {
      TwoSorted(y, x);
      JoinTwo(y, x, sep);
    }
  }

  lemma HighRespelledAgain(sep: string, k: nat)
    requires OverlapsAt(sep, k) && !Settles(sep, k)
    ensures Respell(HighOnce(sep, k), sep) != HighOnce(sep, k) && MembersOf(HighOnce(sep, k), sep) != []
  {
    var f, tail := Run(sep), Rest(sep, k) + Longer(sep);
    var m := TrimSpace(tail);
    HighCut(sep, k);
    JoinOfTwo(f, m, sep);
    TrimmedRest(sep, k, Longer(sep)) by {
      TrapsAreTrimmed(sep, k);
    }
    TrapsAreTrimmed(sep, k);
    FirstPieceKept(HighOnce(sep, k), sep);
    assert |f| == |sep|;
    hide Filler, Run, Longer, Rest, TrimSpace, Less, SortedUnique, TrimParts, Split, Trimmed, HighOnce;
    var once := f + (sep + tail);
    if Less(f, m) {
      assert f + (sep + m) != once by {
        if f + (sep + m) == once {
          SamePrefix(f, sep, m, tail);
        }
      }
    } else {
      LessDiffers(m, f);
      assert (m + (sep + f))[..|f|] == m[..|f|] && once[..|f|] == f;
    }
  }

  lemma SamePrefix(f: string, sep: string, m: string, t: string)
    requires f + (sep + m) == f + (sep + t)
    ensures m == t
  {
    var n := |f| + |sep|;
    assert (f + (sep + m))[n..] == m && (f + (sep + t))[n..] == t;
  }

  // ---------------------------------------------------------------------------------------------
  // Where that text settles, a third member unsettles it

  function ThirdTrap(sep: string, k: nat): string
    requires OverlapsAt(sep, k)
  {
    Longer(sep) + (sep + (Closed(sep, k) + (sep + Bait(sep, k))))
  }

  function ThirdOnce(sep: string, k: nat): string
    requires OverlapsAt(sep, k)
  {
    Bait(sep, k) + (sep + (Closed(sep, k) + (sep + Longer(sep))))
  }

  lemma ThirdIs(sep: string, k: nat)
    requires OverlapsAt(sep, k)
    ensures ThirdTrap(sep, k) == Longer(sep) + (sep + (Closed(sep, k) + (sep + Bait(sep, k))))
    ensures ThirdOnce(sep, k) == Bait(sep, k) + (sep + (Closed(sep, k) + (sep + Longer(sep))))
  {
  }

  lemma ThirdRespelled(sep: string, k: nat)
    requires OverlapsAt(sep, k) && sep[0] < Filler(sep)
    ensures Respell(ThirdTrap(sep, k), sep) == ThirdOnce(sep, k)
  {
    assert sep != "" && k <= |sep|;
    hide *;
    TrapsAreSolid(sep, k);
    TrapsAreTrimmed(sep, k);
    BaitLacks(sep, k);
    HighOrder(sep, k);
    var a, y, b := Bait(sep, k), Closed(sep, k), Longer(sep);
    ThirdIs(sep, k);
    SplitThree(b, y, a, sep);
    RespellOfThree(ThirdTrap(sep, k), sep, b, y, a, a, y, b);
  }

  /** The place where the rest of the separator first leaves the fillers. */
  lemma LeavesFillers(sep: string, k: nat) returns (j: nat)
    requires OverlapsAt(sep, k)
    ensures j < k && Rest(sep, k)[j] != Filler(sep) && forall i | 0 <= i < j :: Rest(sep, k)[i] == Filler(sep)
  {
    hide Filler;
    var w := Rest(sep, k);
    assert w[k - 1] == sep[|sep| - 1];
    j := 0;
    while w[j] == Filler(sep)
      invariant j < k && forall i | 0 <= i < j :: w[i] == Filler(sep)
      decreases k - j
    {
      j := j + 1;
    }
  }

  lemma ThirdOrder(sep: string, k: nat)
    requires OverlapsAt(sep, k) && Settles(sep, k)
    ensures Less(Run(sep), Longer(sep)) && Less(Longer(sep), Rest(sep, k) + Closed(sep, k))
    ensures !IsSpace((Rest(sep, k) + Closed(sep, k))[0])
    ensures exists j :: 0 <= j < |sep| && Longer(sep)[j] != (Rest(sep, k) + Closed(sep, k))[j]
  {
    var f, tail, t := Run(sep), Rest(sep, k) + Longer(sep), Rest(sep, k) + Closed(sep, k);
    TrapsAreTrimmed(sep, k);
    TrimmedRest(sep, k, Longer(sep));
    LessLonger(f, [Filler(sep)]);
    var j := LeavesFillers(sep, k);
    assert t[0] == tail[0] && t[j] == tail[j] == Rest(sep, k)[j];
    AboveAt(f, tail, j);
    assert Longer(sep)[..j] == t[..j] && Longer(sep)[j] == f[j];
    LessAt(Longer(sep), t, j);
  }

  lemma {:induction false} AboveAt(a: string, b: string, j: nat)
    requires Less(a, b) && j < |a| && j < |b| && a[j] != b[j] && forall i | 0 <= i < j :: a[i] == b[i]
    ensures a[j] < b[j]
  {
    if j > 0 {
      assert a[0] == b[0];
      assert a[1..][j - 1] == a[j] && b[1..][j - 1] == b[j];
      AboveAt(a[1..], b[1..], j - 1);
    }
  }

  lemma ThirdCut(sep: string, k: nat)
    requires OverlapsAt(sep, k)
    ensures var f, b, t := Run(sep), Longer(sep), Rest(sep, k) + Closed(sep, k);
            ThirdOnce(sep, k) == f + (sep + (t + (sep + b))) && Split(ThirdOnce(sep, k), sep) == [f, t, b]
  {
    var f, b, y := Run(sep), Longer(sep), Closed(sep, k);
    TrapsAreSolid(sep, k);
    SolidLacks(b, sep);
    BaitTaken(sep, k, y + (sep + b));
    hide *;
    ThirdIs(sep, k);
    assert Rest(sep, k) + (y + (sep + b)) == Rest(sep, k) + y + (sep + b);
    SplitThree(f, Rest(sep, k) + y, b, sep);
  }

  lemma ThirdTrimmed(sep: string, k: nat)
    requires OverlapsAt(sep, k) && Settles(sep, k)
    ensures forall q | q in [Run(sep), Rest(sep, k) + Closed(sep, k), Longer(sep)] :: q != "" && Trimmed(q)
  {
    TrapsAreTrimmed(sep, k);
    ThirdOrder(sep, k);
    TrimmedRest(sep, k, Closed(sep, k));
    hide *;
  }

  lemma ThirdRespelledAgain(sep: string, k: nat)
    requires OverlapsAt(sep, k) && Settles(sep, k)
    ensures Respell(ThirdOnce(sep, k), sep) != ThirdOnce(sep, k) && MembersOf(ThirdOnce(sep, k), sep) != []
  {
    var f, b, t := Run(sep), Longer(sep), Rest(sep, k) + Closed(sep, k);
    assert |b| > |sep| && |t| > |sep|;
    hide *;
    ThirdCut(sep, k);
    ThirdTrimmed(sep, k);
    ThirdOrder(sep, k);
    var j :| 0 <= j < |sep| && b[j] != t[j];
    RespellOfThree(ThirdOnce(sep, k), sep, f, t, b, f, b, t);
    DifferLater(f, sep, b, sep + t, t, sep + b, j);
    assert f in [f, t, b];
    FirstPieceKept(ThirdOnce(sep, k), sep);
  }

  lemma DifferLater(f: string, sep: string, x: string, p: string, y: string, q: string, j: nat)
    requires j < |x| && j < |y| && x[j] != y[j]
    ensures f + (sep + (x + p)) != f + (sep + (y + q))
  {
    var n := |f| + |sep| + j;
    assert (f + (sep + (x + p)))[n] == x[j] && (f + (sep + (y + q)))[n] == y[j];
  }

  // ---------------------------------------------------------------------------------------------
  // The limit

  /** A text that the second respelling changes again, and that still has members after the first. */
  lemma Unsettled(sep: string) returns (text: string)
    requires sep != "" && !Unambiguous(sep)
    ensures Respell(Respell(text, sep), sep) != Respell(text, sep) && MembersOf(Respell(text, sep), sep) != []
  {
    var k :| 1 <= k < |sep| && sep[k..] == sep[..|sep| - k] && !IsSpace(sep[k - 1]);
    assert OverlapsAt(sep, k);
    hide Respell, LowTrap, LowOnce, HighTrap, HighOnce, ThirdTrap, ThirdOnce, Settles, Filler;
    if Filler(sep) < sep[0] {
      LowRespelled(sep, k);
      LowRespelledAgain(sep, k);
      text := LowTrap(sep, k);
    } else if !Settles(sep, k) {
      HighRespelled(sep, k);
      HighRespelledAgain(sep, k);
      text := HighTrap(sep, k);
    } else {
      ThirdRespelled(sep, k);
      ThirdRespelledAgain(sep, k);
      text := ThirdTrap(sep, k);
    }
  }

  /** Respelling is idempotent on every text if and only if the separator is unambiguous. */
  lemma RespellsOnceExactly(sep: string)
    requires sep != ""
    ensures RespellsOnce(sep) <==> Unambiguous(sep)
  {
    if Unambiguous(sep) {
      KeepsMembersExactly(sep);
      forall text
        ensures Respell(Respell(text, sep), sep) == Respell(text, sep)
      {
        assert MembersOf(Respell(text, sep), sep) == MembersOf(text, sep);
      }
    } else {
      var text := Unsettled(sep);
    }
  }

  /** A set can lose all its members: on the separator "aaa" these two join to "aaaaaa". */
  lemma SetEmptied()
    ensures MembersOf("a aaa aa", "aaa") == ["a", "aa"]
    ensures Respell("a aaa aa", "aaa") == "aaaaaa" && MembersOf("aaaaaa", "aaa") == []
  {
    var sep, first, second := ['a', 'a', 'a'], ['a', ' '], [' ', 'a', 'a'];
    assert "aaa" == sep && "a" == ['a'] && "aa" == ['a', 'a'];
    assert "a aaa aa" == first + (sep + second) && "aaaaaa" == sep + sep;
    hide Respell, MembersOf;
    EmptiedMembers(first, second, sep);
    EmptiedJoin(first, second, sep);
  }

  lemma EmptiedMembers(first: string, second: string, sep: string)
    requires first == ['a', ' '] && second == [' ', 'a', 'a'] && sep == ['a', 'a', 'a']
    ensures MembersOf(first + (sep + second), sep) == [['a'], ['a', 'a']]
  {
    CutInTwo(first, second, sep);
    TrimmedPieces();
    hide Split, TrimParts, Less, SortedUnique;
    LessByLength();
    TwoSorted(['a'], ['a', 'a']);
    SortedUniqueSame([['a'], ['a', 'a']], [['a', 'a'], ['a']]);
    assert Elements([['a'], ['a', 'a']]) == Elements([['a', 'a'], ['a']]);
  }

  lemma EmptiedJoin(first: string, second: string, sep: string)
    requires first == ['a', ' '] && second == [' ', 'a', 'a'] && sep == ['a', 'a', 'a']
    ensures Respell(first + (sep + second), sep) == sep + sep && MembersOf(sep + sep, sep) == []
  {
    hide Split, TrimParts, SortedUnique;
    EmptiedMembers(first, second, sep);
    CutIntoNothing(sep);
    JoinTwo(['a'], ['a', 'a'], sep);
    assert ['a'] + (sep + ['a', 'a']) == sep + sep;
    SortedUniqueIdempotent([]);
  }

  lemma LessByLength()
    ensures Less(['a'], ['a', 'a'])
  {
    LessLonger(['a'], ['a']);
    assert ['a'] + ['a'] == ['a', 'a'];
  }

  lemma CutInTwo(first: string, second: string, sep: string)
    requires first == ['a', ' '] && second == [' ', 'a', 'a'] && sep == ['a', 'a', 'a']
    ensures Split(first + (sep + second), sep) == [first, second]
  {
    var text := first + (sep + second);
    forall i | 0 <= i < 2
      ensures !Occurs(text, sep, i)
    {
      assert text[i..i + 3][1 - i] == text[1] == ' ';
    }
    OccursAfter(first, sep, second);
    FoundAfter(first, sep, second);
    SplitStep(first, sep, second);
    forall i
      ensures !Occurs(second, sep, i)
    {
      assert i == 0 ==> second[0..3][0] == ' ';
    }
    NoSeparatorNoSplit(second, sep);
  }

  lemma CutIntoNothing(sep: string)
    requires sep == ['a', 'a', 'a']
    ensures TrimParts(Split(sep + sep, sep)) == []
  {
    hide Find, Occurs;
    OccursAfter([], sep, sep);
    OccursAfter([], sep, []);
    assert [] + (sep + sep) == sep + sep && [] + (sep + []) == sep;
    FoundAfter([], sep, sep);
    FoundAfter([], sep, []);
    SplitStep([], sep, sep);
    SplitStep([], sep, []);
    assert Split([], sep) == [[]];
    assert Split(sep + sep, sep) == [[], [], []];
    var three: seq<string>, two: seq<string>, one: seq<string> := [[], [], []], [[], []], [[]];
    assert three[..2] == two && two[..1] == one && one[..0] == [];
    assert TrimSpace("") == "";
  }

  lemma TrimmedPieces()
    ensures TrimParts([['a', ' '], [' ', 'a', 'a']]) == [['a'], ['a', 'a']]
  {
    var p, q := ['a', ' '], [' ', 'a', 'a'];
    assert p[..1] == ['a'] && q[1..] == ['a', 'a'];
    assert TrimSpace(p) == ['a'] && TrimSpace(q) == ['a', 'a'];
    assert [p, q][..1] == [p];
    assert TrimParts([p]) == [['a']];
  }
}
