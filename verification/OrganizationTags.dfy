/** Tags: what a list of them says, what the calls leave of them, and what the gates and requirements read. */
module OrganizationTags {
  import opened Options
  import opened Organization
  import opened OrganizationTree
  import opened OrganizationPolicies
  import opened OrganizationCalls
  import opened OrganizationEffects

  // ---------------------------------------------------------------------------------------------
  // Lists of tags

  /** The list ends in saying this of the key: the last tag with the key has the value, or no tag has the key. */
  ghost predicate Says(tags: seq<Tag>, key: string, value: Option<string>)
  {
    if value.Some? then
      exists i :: 0 <= i < |tags| && tags[i] == Tag(key, value.value)
                  && forall j | i < j < |tags| :: tags[j].key != key
    else forall i | 0 <= i < |tags| :: tags[i].key != key
  }

  function Entry(tags: Tags, key: string): Option<string>
  {
    if key in tags then Some(tags[key]) else None
  }

  /** The value of a key on a resource, if it has the key. */
  function Value(org: Org, id: Id, key: string): Option<string>
  {
    if id in org.tags then Entry(org.tags[id], key) else None
  }

  /** A list of tags says one thing of each key, and as a map it says that. */
  lemma LastTagWins(tags: seq<Tag>, key: string)
    ensures Says(tags, key, Entry(TagsToMap(tags), key))
    ensures forall v | Says(tags, key, v) :: v == Entry(TagsToMap(tags), key)
  {
    MapSaysLast(tags, key);
    hide TagsToMap, Entry;
    forall v | Says(tags, key, v)
      ensures v == Entry(TagsToMap(tags), key)
    {
      SaysOne(tags, key, v, Entry(TagsToMap(tags), key));
    }
  }

  lemma SaysOne(tags: seq<Tag>, key: string, v: Option<string>, w: Option<string>)
    requires Says(tags, key, v) && Says(tags, key, w)
    ensures v == w
  {
  }

  lemma {:induction false} MapSaysLast(tags: seq<Tag>, key: string)
    ensures Says(tags, key, Entry(TagsToMap(tags), key))
  {
    if tags != [] {
      var n := |tags| - 1;
      var front := tags[..n];
      MapSaysLast(front, key);
      assert forall j | 0 <= j < n :: front[j] == tags[j];
      var e := Entry(TagsToMap(front), key);
      if tags[n].key == key {
        assert tags[n] == Tag(key, tags[n].value);
      } else if e.Some? {
        var i :| 0 <= i < n && front[i] == Tag(key, e.value) && forall j | i < j < n :: front[j].key != key;
        assert tags[i] == Tag(key, e.value);
      }
    }
  }

  /** A gate written key=value is open to a resource whose tag has that value, a missing tag counting as empty;
      an empty gate is open to all. */
  lemma GateReads(org: Org, key: string, value: string, id: Id)
    requires '=' !in key
    ensures GateOpen(org, key + ['='] + value, id) <==>
              (if Value(org, id, key).Some? then Value(org, id, key).value else "") == value
    ensures GateOpen(org, "", id)
  {
    SplitPairParts(key, value);
  }

  /** A create request is admitted when it has a tag for every required key, and the last one with each pinned
      key has the pinned value. */
  lemma AdmittedExactly(rules: Settings, tags: seq<Tag>)
    ensures TagsAdmitted(rules, TagsToMap(tags)) <==>
              && (forall k | k in rules.requiredTags :: !Says(tags, k, None))
              && (forall k | k in rules.requiredTagValues :: Says(tags, k, Some(rules.requiredTagValues[k])))
  {
    hide TagsToMap;
    forall k
      ensures k in TagsToMap(tags) <==> !Says(tags, k, None)
      ensures forall v :: (k in TagsToMap(tags) && TagsToMap(tags)[k] == v) <==> Says(tags, k, Some(v))
    {
      LastTagWins(tags, k);
    }
  }

  // ---------------------------------------------------------------------------------------------
  // What the calls leave

  /** Tagging gives each key the last value given for it, keeps every other tag, and touches nothing else. It
      is refused by the owner tag and by nothing else. */
  lemma TaggingTakesEffect(org: Org, gate: string, id: Id, tags: seq<Tag>, other: Id, key: string)
    ensures var e := TagResource(org, gate, id, tags);
            && (e.reply == Done <==> GateOpen(org, gate, id)) && (e.reply != Done ==> e.org == org)
            && (e.reply == Done ==>
                  && e.org == org.(tags := e.org.tags)
                  && (Says(tags, key, None) || other != id ==> Value(e.org, other, key) == Value(org, other, key))
                  && (!Says(tags, key, None) ==> Says(tags, key, Value(e.org, id, key))))
  {
    LastTagWins(tags, key);
  }

  /** What is created bears the tags it was created with and no others, unless there are none. */
  lemma NewResourceIsTagged(org: Org, id: Id, tags: seq<Tag>, other: Id, key: string)
    ensures var after := org.(tags := WithTags(org, id, TagsToMap(tags)));
            && (tags != [] ==> Says(tags, key, Value(after, id, key)))
            && (tags == [] || other != id ==> Value(after, other, key) == Value(org, other, key))
  {
    LastTagWins(tags, key);
    if tags != [] {
      var last := tags[|tags| - 1];
      assert last.key in TagsToMap(tags);
    }
  }

  /** The resource is not one that a create call has yet to number. */
  predicate Numbered(org: Org, id: Id)
  {
    match id
    case OU(n) => n <= org.places.nextOU
    case Account(n) => n <= org.places.nextAccount
    case Policy(n) => n <= org.policies.next
    case _ => true
  }

  /** The i-th call of a run gives the key on the resource. */
  ghost predicate GivesTag(org: Org, rules: Settings, calls: seq<Call>, i: nat, id: Id, key: string)
    requires i < |calls|
  {
    calls[i].TagIt? && calls[i].resource == id && !Says(calls[i].tags, key, None) && Accepted(org, rules, calls, i)
  }

  lemma CallOnTags(org: Org, rules: Settings, call: Call, id: Id, key: string)
    requires Numbered(org, id)
    ensures var e := Apply(org, rules, call);
            && Numbered(e.org, id)
            && if call.TagIt? && call.resource == id && !e.reply.Refused? && !Says(call.tags, key, None)
               then Says(call.tags, key, Value(e.org, id, key))
               else Value(e.org, id, key) == Value(org, id, key)
  {
    hide GateOpen, TagsToMap, CountLevels, InSubtree, TagsAdmitted, NameTaken, PolicyNameTaken, Removed, FitsLimit,
         Says;
    if call.TagIt? {
      TaggingTakesEffect(org, call.gate, call.resource, call.tags, id, key);
    } else {
      hide Value, Numbered;
      OthersLeaveTags(org, rules, call, id, key);
    }
  }

  lemma OthersLeaveTags(org: Org, rules: Settings, call: Call, id: Id, key: string)
    requires Numbered(org, id) && !call.TagIt?
    ensures var after := Apply(org, rules, call).org;
            Numbered(after, id) && Value(after, id, key) == Value(org, id, key)
  {
    hide GateOpen, TagsToMap, CountLevels, InSubtree, TagsAdmitted, NameTaken, PolicyNameTaken, Removed, FitsLimit;
  }

  lemma {:induction false} UntaggedStays(org: Org, rules: Settings, calls: seq<Call>, id: Id, key: string)
    requires Numbered(org, id) && forall i: nat | i < |calls| :: !GivesTag(org, rules, calls, i, id, key)
    ensures Value(Run(org, rules, calls), id, key) == Value(org, id, key)
    decreases |calls|
  {
    if calls != [] {
      hide Apply, Run, GivesTag, Value, Says, Numbered;
      var n: nat := |calls| - 1;
      forall i: nat | i < n
        ensures !GivesTag(org, rules, calls[..n], i, id, key)
      {
        GivesTagBefore(org, rules, calls, n, i, id, key);
      }
      UntaggedStays(org, rules, calls[..n], id, key);
      LastCallOnTags(org, rules, calls, id, key);
    }
  }

  lemma {:induction false} TaggingStands(org: Org, rules: Settings, calls: seq<Call>, id: Id, key: string, i: nat)
    requires Numbered(org, id) && i < |calls| && GivesTag(org, rules, calls, i, id, key)
    requires forall j: nat | i < j < |calls| :: !GivesTag(org, rules, calls, j, id, key)
    ensures Says(calls[i].tags, key, Value(Run(org, rules, calls), id, key))
    decreases |calls|
  {
    assert calls[i].TagIt?;
    hide Apply, Run, GivesTag, Value, Says, Numbered;
    var n: nat := |calls| - 1;
    LastCallOnTags(org, rules, calls, id, key);
    if i < n {
      GivesTagBefore(org, rules, calls, n, i, id, key);
      forall j: nat | i < j < n
        ensures !GivesTag(org, rules, calls[..n], j, id, key)
      {
        GivesTagBefore(org, rules, calls, n, j, id, key);
      }
      TaggingStands(org, rules, calls[..n], id, key, i);
    }
  }

  lemma {:induction false} StaysNumbered(org: Org, rules: Settings, calls: seq<Call>, id: Id)
    requires Numbered(org, id)
    ensures Numbered(Run(org, rules, calls), id)
    decreases |calls|
  {
    hide Apply, Numbered;
    if calls != [] {
      CallOnTags(org, rules, calls[0], id, "");
      StaysNumbered(Apply(org, rules, calls[0]).org, rules, calls[1..], id);
    }
  }

  /** What the last call of a run does to a tag. */
  lemma LastCallOnTags(org: Org, rules: Settings, calls: seq<Call>, id: Id, key: string)
    requires Numbered(org, id) && calls != []
    ensures var n: nat := |calls| - 1;
            var before, after := Run(org, rules, calls[..n]), Run(org, rules, calls);
            if GivesTag(org, rules, calls, n, id, key) then
              calls[n].TagIt? && Says(calls[n].tags, key, Value(after, id, key))
            else Value(after, id, key) == Value(before, id, key)
  {
    hide Apply, Run, GivesTag, Value, Says, Numbered;
    var n: nat := |calls| - 1;
    StaysNumbered(org, rules, calls[..n], id);
    RunLast(org, rules, calls);
    CallOnTags(Run(org, rules, calls[..n]), rules, calls[n], id, key);
    GivesTagAtEnd(org, rules, calls, id, key);
  }

  /** Over every run, the value of each key on a resource is that of the last accepted tagging that gave it, and
      what it was before if there was none. */
  lemma LastTaggingStands(org: Org, rules: Settings, calls: seq<Call>, id: Id, key: string)
    requires Numbered(org, id)
    ensures var after := Run(org, rules, calls);
            && ((forall i: nat | i < |calls| :: !GivesTag(org, rules, calls, i, id, key)) ==>
                  Value(after, id, key) == Value(org, id, key))
            && (forall i: nat | i < |calls| && GivesTag(org, rules, calls, i, id, key)
                  && (forall j: nat | i < j < |calls| :: !GivesTag(org, rules, calls, j, id, key)) ::
                  Says(calls[i].tags, key, Value(after, id, key)))
  {
    assert forall i: nat | i < |calls| && GivesTag(org, rules, calls, i, id, key) :: calls[i].TagIt?;
    hide Apply, Run, GivesTag, Value, Says, Numbered;
    if forall i: nat | i < |calls| :: !GivesTag(org, rules, calls, i, id, key) {
      UntaggedStays(org, rules, calls, id, key);
    }
    forall i: nat | i < |calls| && GivesTag(org, rules, calls, i, id, key)
                    && (forall j: nat | i < j < |calls| :: !GivesTag(org, rules, calls, j, id, key))
      ensures Says(calls[i].tags, key, Value(Run(org, rules, calls), id, key))
    {
      TaggingStands(org, rules, calls, id, key, i);
    }
  }

  lemma GivesTagBefore(org: Org, rules: Settings, calls: seq<Call>, n: nat, i: nat, id: Id, key: string)
    requires i < n <= |calls|
    ensures GivesTag(org, rules, calls[..n], i, id, key) <==> GivesTag(org, rules, calls, i, id, key)
  {
    hide Run, Apply, Says;
    assert calls[..n][..i] == calls[..i];
  }

  lemma GivesTagAtEnd(org: Org, rules: Settings, calls: seq<Call>, id: Id, key: string)
    requires calls != []
    ensures var n: nat := |calls| - 1;
            var call := calls[n];
            GivesTag(org, rules, calls, n, id, key)
            <==> call.TagIt? && call.resource == id && !Says(call.tags, key, None)
                 && !Apply(Run(org, rules, calls[..n]), rules, call).reply.Refused?
  {
    hide Run, Apply, Says;
  }
}
