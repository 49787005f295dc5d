/** What the path of a reported key says: how it is spelled, and where in the document it leads. */
module RepeatPaths {
  import opened Options
  import opened Lists
  import opened Decimals
  import opened RepeatedKeys
  import opened DuplicateKeys

  // ---------------------------------------------------------------------------------------------
  // Where the labels lead

  /** The path leads, key by key and position by position, to an object that names the key twice. */
  ghost predicate LeadsTo(v: Json, path: seq<string>, key: string)
    decreases v
  {
    if path == [] then
      v.Object? && exists i, j | 0 <= i < j < |v.members| :: v.members[i].key == key && v.members[j].key == key
    else
      match v
      case Array(items) =>
        exists i | 0 <= i < |items| ::
          path[0] == "[" + Decimal(i) + "]" && LeadsTo(items[i], path[1..], key)
      case Object(members) =>
        exists i | 0 <= i < |members| :: path[0] == members[i].key && LeadsTo(members[i].value, path[1..], key)
      case _ => false
  }

  /** The repeat lies below the labels, and its own lead on from there. */
  ghost predicate Below(r: Repeat, outer: seq<string>, name: string, v: Json)
  {
    outer + [name] <= r.labels && LeadsTo(v, r.labels[|outer| + 1..], r.key)
  }

  ghost predicate BelowThis(r: Repeat, labels: seq<string>, index: nat, items: seq<Json>, i: nat)
    requires i < |items|
  {
    Below(r, labels, "[" + Decimal(index + i) + "]", items[i])
  }

  ghost predicate BelowItem(r: Repeat, labels: seq<string>, index: nat, items: seq<Json>)
  {
    exists i: nat | i < |items| :: BelowThis(r, labels, index, items, i)
  }

  ghost predicate BelowMember(r: Repeat, labels: seq<string>, members: seq<Member>)
  {
    exists i | 0 <= i < |members| :: Below(r, labels, members[i].key, members[i].value)
  }

  /** The object itself names the key again. */
  ghost predicate Again(r: Repeat, labels: seq<string>, members: seq<Member>, seen: set<string>)
  {
    && r.labels == labels
    && exists j | 0 <= j < |members| ::
         && members[j].key == r.key
         && (r.key in seen || exists i | 0 <= i < j :: members[i].key == r.key)
  }

  /** Every repeat's labels lead from the document to the object that repeats its key. */
  lemma {:induction false} LabelsLead(v: Json, outer: seq<string>, name: string, at: nat)
    ensures forall r | r in Repeats(v, outer, name, at) :: Below(r, outer, name, v)
    decreases v
  {
    hide LeadsTo;
    var labels := outer + [name];
    match v
    case Scalar =>
    case Text(_) =>
    case Array(items) =>
      ItemLabelsLead(items, labels, 0, at + 1);
      forall r | r in Repeats(v, outer, name, at)
        ensures Below(r, outer, name, v)
      {
        assert r in ItemRepeats(items, labels, 0, at + 1) && BelowItem(r, labels, 0, items);
        var i: nat :| i < |items| && BelowThis(r, labels, 0, items, i);
        assert 0 + i == i;
        LeadsByItem(v, r, outer, name, i);
      }
    case Object(members) =>
      MemberLabelsLead(members, labels, {}, at + 1);
      forall r | r in Repeats(v, outer, name, at)
        ensures Below(r, outer, name, v)
      {
        assert r in MemberRepeats(members, labels, {}, at + 1);
        if Again(r, labels, members, {}) {
          LeadsHere(v, r, outer, name);
        } else {
          var i :| 0 <= i < |members| && Below(r, labels, members[i].key, members[i].value);
          LeadsByMember(v, r, outer, name, i);
        }
      }
  }

  lemma LeadsByItem(v: Json, r: Repeat, outer: seq<string>, name: string, i: nat)
    requires v.Array? && i < |v.items| && Below(r, outer + [name], "[" + Decimal(i) + "]", v.items[i])
    ensures Below(r, outer, name, v)
  {
    var n := |outer| + 1;
    var path := r.labels[n..];
    assert outer + [name] <= r.labels;
    assert path[0] == "[" + Decimal(i) + "]" && path[1..] == r.labels[n + 1..];
  }

  lemma LeadsByMember(v: Json, r: Repeat, outer: seq<string>, name: string, i: nat)
    requires v.Object? && i < |v.members|
    requires Below(r, outer + [name], v.members[i].key, v.members[i].value)
    ensures Below(r, outer, name, v)
  {
    var n := |outer| + 1;
    var path := r.labels[n..];
    assert outer + [name] <= r.labels;
    assert path[0] == v.members[i].key && path[1..] == r.labels[n + 1..];
  }

  lemma LeadsHere(v: Json, r: Repeat, outer: seq<string>, name: string)
    requires v.Object? && Again(r, outer + [name], v.members, {})
    ensures Below(r, outer, name, v)
  {
    assert r.labels[|outer| + 1..] == [];
  }

  lemma {:induction false} ItemLabelsLead(items: seq<Json>, labels: seq<string>, index: nat, at: nat)
    ensures forall r | r in ItemRepeats(items, labels, index, at) :: BelowItem(r, labels, index, items)
    decreases items
  {
    hide Below;
    if items != [] {
      var rest := items[1..];
      LabelsLead(items[0], labels, IndexLabel(index), at);
      ItemLabelsLead(rest, labels, index + 1, at + |Tokens(items[0])|);
      IndexReads(index);
      forall r | r in ItemRepeats(items, labels, index, at)
        ensures BelowItem(r, labels, index, items)
      {
        if r in Repeats(items[0], labels, IndexLabel(index), at) {
          assert BelowThis(r, labels, index, items, 0);
        } else {
          assert BelowItem(r, labels, index + 1, rest);
          var i: nat :| i < |rest| && BelowThis(r, labels, index + 1, rest, i);
          assert items[i + 1] == rest[i] && index + 1 + i == index + (i + 1);
          assert BelowThis(r, labels, index, items, i + 1);
        }
      }
    }
  }

  /** An element of an array is labelled with its position, counted from zero, in brackets. */
  lemma IndexReads(index: nat)
    ensures IndexLabel(index) == "[" + Decimal(index) + "]"
  {
  }

  lemma {:induction false} MemberLabelsLead(members: seq<Member>, labels: seq<string>, seen: set<string>, at: nat)
    ensures forall r | r in MemberRepeats(members, labels, seen, at) ::
              Again(r, labels, members, seen) || BelowMember(r, labels, members)
    decreases members
  {
    hide Below;
    if members != [] {
      var m, rest := members[0], members[1..];
      LabelsLead(m.value, labels, m.key, at + 1);
      MemberLabelsLead(rest, labels, seen + {m.key}, at + 1 + |Tokens(m.value)|);
      forall r | r in MemberRepeats(members, labels, seen, at)
        ensures Again(r, labels, members, seen) || BelowMember(r, labels, members)
      {
        if r in OwnRepeat(m.key, labels, seen, at) {
          assert Again(r, labels, members, seen);
        } else if r in Repeats(m.value, labels, m.key, at + 1) {
          assert Below(r, labels, members[0].key, members[0].value);
        } else if BelowMember(r, labels, rest) {
          var i :| 0 <= i < |rest| && Below(r, labels, rest[i].key, rest[i].value);
          assert members[i + 1] == rest[i];
        } else {
          LaterAgain(r, labels, members, seen);
        }
      }
    }
  }

  lemma LaterAgain(r: Repeat, labels: seq<string>, members: seq<Member>, seen: set<string>)
    requires members != [] && Again(r, labels, members[1..], seen + {members[0].key})
    ensures Again(r, labels, members, seen)
  {
    var rest := members[1..];
    var j :| 0 <= j < |rest| && rest[j].key == r.key
             && (r.key in seen + {members[0].key} || exists i | 0 <= i < j :: rest[i].key == r.key);
    assert members[j + 1] == rest[j];
    if i :| 0 <= i < j && rest[i].key == r.key {
      assert members[i + 1] == rest[i];
    }
  }

  // ---------------------------------------------------------------------------------------------
  // How a path is spelled

  /** A label is written after what comes before it: a position as it is, a key after a dot unless nothing comes
      before, and an empty label not at all. The object at the top has a name of its own. */
  lemma {:induction false} PathSpelled(labels: seq<string>, last: string)
    ensures var text, next := PathFrom("", labels), PathFrom("", labels + [last]);
            && (last == "" ==> next == text)
            && (last != "" && last[0] == '[' ==> next == text + last)
            && (last != "" && last[0] != '[' ==> next == if text == "" then last else text + "." + last)
    ensures PathFrom("", []) == ""
    ensures PathText(labels) == if PathFrom("", labels) == "" then "the top-level object" else PathFrom("", labels)
  {
    PathGoesOn("", labels, [last]);
    var text := PathFrom("", labels);
    assert [last][1..] == [];
    hide PathFrom;
    LastLabel(text, last);
  }

  lemma LastLabel(text: string, last: string)
    ensures PathFrom(text, [last]) == if last == "" then text
                                       else if last[0] == '[' || text == "" then text + last
                                       else text + "." + last
  {
    assert [last][1..] == [];
  }

  lemma {:induction false} PathGoesOn(text: string, a: seq<string>, b: seq<string>)
    ensures PathFrom(text, a + b) == PathFrom(PathFrom(text, a), b)
    decreases |a|
  {
    if a == [] {
      assert a + b == b;
    } else {
      var l := a[0];
      var next := if l == "" then text
                  else if l[0] == '[' || text == "" then text + l
                  else text + ['.'] + l;
      PathGoesOn(next, a[1..], b);
      assert (a + b)[1..] == a[1..] + b && (a + b)[0] == l;
    }
  }

  /** What the scan reports of a whole document leads to an object that names the reported key twice. */
  lemma ReportLeads(v: Json)
    requires Matched(Tokens(v), 0) && Run(Tokens(v), State([], ""), 0).Some?
    ensures var r := Run(Tokens(v), State([], ""), 0).value;
            && ReportOf(Some(r)) == Some(Report(r.key, PathText(r.labels))) && ReportOf(None) == None
            && r.labels != [] && r.labels[0] == "" && LeadsTo(v, r.labels[1..], r.key)
  {
    hide Run, LeadsTo;
    OneDocument(v);
    var docs := [v];
    ScanReportsFirstRepeat(docs, |Tokens(v)|);
    assert StreamTokens(docs)[..|Tokens(v)|] == Tokens(v);
    LabelsLead(v, [], "", 0);
    assert [] + [""] == [""];
    var r := StreamRepeats(docs, 0)[0];
    assert r in Repeats(v, [], "", 0) && Below(r, [], "", v);
  }

  lemma OneDocument(v: Json)
    ensures StreamTokens([v]) == Tokens(v) && StreamRepeats([v], 0) == Repeats(v, [], "", 0)
  {
    assert [v][1..] == [];
    assert ItemTokens([v][1..]) == [] && StreamRepeats([v][1..], |Tokens(v)|) == [];
  }
}
