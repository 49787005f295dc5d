/** JSON documents in source order, the tokens they are read as, and the keys their objects repeat. */
module RepeatedKeys {
  import opened Decimals

  /** A JSON document in source order; an object may name a key more than once. */
  datatype Json =
    | Scalar
    | Text(s: string)
    | Array(items: seq<Json>)
    | Object(members: seq<Member>)

  datatype Member = Member(key: string, value: Json)

  /** What a streaming decoder delivers. It does not say whether a string is a key or a value. */
  datatype Token = OpenObject | OpenArray | Close | Str(s: string) | Atom

  function Tokens(v: Json): seq<Token>
    decreases v
  {
    match v
    case Scalar => [Atom]
    case Text(s) => [Str(s)]
    case Array(items) => [OpenArray] + ItemTokens(items) + [Close]
    case Object(members) => [OpenObject] + MemberTokens(members) + [Close]
  }

  function ItemTokens(items: seq<Json>): seq<Token>
    decreases items
  {
    if items == [] then [] else Tokens(items[0]) + ItemTokens(items[1..])
  }

  function MemberTokens(members: seq<Member>): seq<Token>
    decreases members
  {
    if members == [] then []
    else [Str(members[0].key)] + Tokens(members[0].value) + MemberTokens(members[1..])
  }

  // ---------------------------------------------------------------------------------------------
  // The recursive notion

  /** Some object, at some depth, names a key twice. */
  ghost predicate HasRepeat(v: Json)
    decreases v
  {
    match v
    case Scalar => false
    case Text(_) => false
    case Array(items) => exists i | 0 <= i < |items| :: HasRepeat(items[i])
    case Object(members) =>
      || (exists i, j | 0 <= i < j < |members| :: members[i].key == members[j].key)
      || (exists i | 0 <= i < |members| :: HasRepeat(members[i].value))
  }

  /** A repeated key: the key, the labels of the containers down to its object, and the index of its
      token in the stream. */
  datatype Repeat = Repeat(key: string, labels: seq<string>, at: nat)

  /** Every repeat in v, in document order. `outer` labels the containers around v, `name` is the one
      v would carry as a container, and `at` is the index of v's first token. */
  function Repeats(v: Json, outer: seq<string>, name: string, at: nat): seq<Repeat>
    decreases v
  {
    match v
    case Scalar => []
    case Text(_) => []
    case Array(items) => ItemRepeats(items, outer + [name], 0, at + 1)
    case Object(members) => MemberRepeats(members, outer + [name], {}, at + 1)
  }

  function ItemRepeats(items: seq<Json>, labels: seq<string>, index: nat, at: nat): seq<Repeat>
    decreases items
  {
    if items == [] then []
    else
      Repeats(items[0], labels, IndexLabel(index), at)
      + ItemRepeats(items[1..], labels, index + 1, at + |Tokens(items[0])|)
  }

  function MemberRepeats(members: seq<Member>, labels: seq<string>, seen: set<string>, at: nat): seq<Repeat>
    decreases members
  {
    if members == [] then []
    else
      var m := members[0];
      OwnRepeat(m.key, labels, seen, at)
      + (Repeats(m.value, labels, m.key, at + 1)
         + MemberRepeats(members[1..], labels, seen + {m.key}, at + 1 + |Tokens(m.value)|))
  }

  /** Elements of an array have no key and are named by position. */
  function IndexLabel(index: nat): string
  {
    ['['] + Decimal(index) + [']']
  }

  /** A decoder reads documents until the input ends or stops parsing. */
  function StreamTokens(docs: seq<Json>): seq<Token>
  {
    ItemTokens(docs)
  }

  function StreamRepeats(docs: seq<Json>, at: nat): seq<Repeat>
  {
    if docs == [] then []
    else Repeats(docs[0], [], "", at) + StreamRepeats(docs[1..], at + |Tokens(docs[0])|)
  }

  lemma {:induction false} RepeatsMeanRepeat(v: Json, outer: seq<string>, name: string, at: nat)
    ensures Repeats(v, outer, name, at) != [] <==> HasRepeat(v)
    decreases v
  {
    match v
    case Scalar =>
    case Text(_) =>
    case Array(items) => ItemRepeatsMeanRepeat(items, outer + [name], 0, at + 1);
    case Object(members) =>
      MemberRepeatsMeanRepeat(members, outer + [name], {}, at + 1);
      assert !KeyIn(members, {});
  }

  lemma {:induction false} ItemRepeatsMeanRepeat(items: seq<Json>, labels: seq<string>, index: nat, at: nat)
    ensures ItemRepeats(items, labels, index, at) != [] <==> exists i | 0 <= i < |items| :: HasRepeat(items[i])
    decreases items
  {
    if items != [] {
      RepeatsMeanRepeat(items[0], labels, IndexLabel(index), at);
      ItemRepeatsMeanRepeat(items[1..], labels, index + 1, at + |Tokens(items[0])|);
      assert items == [items[0]] + items[1..];
    }
  }

  ghost predicate KeyIn(members: seq<Member>, seen: set<string>)
  {
    exists i | 0 <= i < |members| :: members[i].key in seen
  }

  ghost predicate KeyTwice(members: seq<Member>)
  {
    exists i, j | 0 <= i < j < |members| :: members[i].key == members[j].key
  }

  ghost predicate InnerRepeat(members: seq<Member>)
  {
    exists i | 0 <= i < |members| :: HasRepeat(members[i].value)
  }

  lemma FirstMemberSplit(members: seq<Member>, seen: set<string>)
    requires members != []
    ensures var m, rest := members[0], members[1..];
            && (KeyIn(members, seen) || KeyTwice(members)
                <==> m.key in seen || KeyIn(rest, seen + {m.key}) || KeyTwice(rest))
            && (InnerRepeat(members) <==> HasRepeat(m.value) || InnerRepeat(rest))
  {
    hide HasRepeat;
    var m, rest := members[0], members[1..];
    assert forall i | 0 <= i < |rest| :: rest[i] == members[i + 1];
    if i :| 1 <= i < |members| && members[i].key in seen + {m.key} {
      assert rest[i - 1].key in seen + {m.key};
    }
    if i, j :| 1 <= i < j < |members| && members[i].key == members[j].key {
      assert rest[i - 1].key == rest[j - 1].key;
    }
    if i :| 1 <= i < |members| && HasRepeat(members[i].value) {
      assert HasRepeat(rest[i - 1].value);
    }
  }

  lemma {:induction false} MemberRepeatsMeanRepeat(members: seq<Member>, labels: seq<string>, seen: set<string>,
      at: nat)
    ensures MemberRepeats(members, labels, seen, at) != []
         <==> KeyIn(members, seen) || KeyTwice(members) || InnerRepeat(members)
    decreases members
  {
    hide KeyIn, KeyTwice, InnerRepeat, HasRepeat, Repeats, Tokens;
    if members == [] {
      NothingRepeats(seen);
    } else {
      var m, rest := members[0], members[1..];
      RepeatsMeanRepeat(m.value, labels, m.key, at + 1);
      MemberRepeatsMeanRepeat(rest, labels, seen + {m.key}, at + 1 + |Tokens(m.value)|);
      FirstMemberSplit(members, seen);
    }
  }

  lemma NothingRepeats(seen: set<string>)
    ensures !KeyIn([], seen) && !KeyTwice([]) && !InnerRepeat([])
  {
  }

  /** The repeats are listed in document order, and each stands at a token that spells its key. */
  ghost predicate InOrder(rs: seq<Repeat>, tokens: seq<Token>, at: nat)
  {
    && (forall i | 0 <= i < |rs| :: at <= rs[i].at < at + |tokens| && tokens[rs[i].at - at] == Str(rs[i].key))
    && (forall i, j | 0 <= i < j < |rs| :: rs[i].at < rs[j].at)
  }

  lemma InOrderJoin(a: seq<Repeat>, s: seq<Token>, b: seq<Repeat>, t: seq<Token>, at: nat)
    requires InOrder(a, s, at) && InOrder(b, t, at + |s|)
    ensures InOrder(a + b, s + t, at)
  {
  }

  lemma {:induction false} RepeatsInOrder(v: Json, outer: seq<string>, name: string, at: nat)
    ensures InOrder(Repeats(v, outer, name, at), Tokens(v), at)
    decreases v
  {
    match v
    case Scalar =>
    case Text(_) =>
    case Array(items) =>
      ItemRepeatsInOrder(items, outer + [name], 0, at + 1);
      InOrderWrapped(ItemRepeats(items, outer + [name], 0, at + 1), OpenArray, ItemTokens(items), at);
    case Object(members) =>
      MemberRepeatsInOrder(members, outer + [name], {}, at + 1);
      InOrderWrapped(MemberRepeats(members, outer + [name], {}, at + 1), OpenObject, MemberTokens(members), at);
  }

  lemma InOrderWrapped(rs: seq<Repeat>, open: Token, tokens: seq<Token>, at: nat)
    requires InOrder(rs, tokens, at + 1)
    ensures InOrder(rs, [open] + tokens + [Close], at)
  {
  }

  lemma {:induction false} ItemRepeatsInOrder(items: seq<Json>, labels: seq<string>, index: nat, at: nat)
    ensures InOrder(ItemRepeats(items, labels, index, at), ItemTokens(items), at)
    decreases items
  {
    if items != [] {
      var here, rest := Tokens(items[0]), items[1..];
      RepeatsInOrder(items[0], labels, IndexLabel(index), at);
      ItemRepeatsInOrder(rest, labels, index + 1, at + |here|);
      InOrderJoin(Repeats(items[0], labels, IndexLabel(index), at), here,
                  ItemRepeats(rest, labels, index + 1, at + |here|), ItemTokens(rest), at);
    }
  }

  function OwnRepeat(key: string, labels: seq<string>, seen: set<string>, at: nat): seq<Repeat>
  {
    if key in seen then [Repeat(key, labels, at)] else []
  }

  lemma OwnInOrder(key: string, labels: seq<string>, seen: set<string>, at: nat)
    ensures InOrder(OwnRepeat(key, labels, seen, at), [Str(key)], at)
  {
  }

  lemma {:induction false} MemberRepeatsInOrder(members: seq<Member>, labels: seq<string>, seen: set<string>, at: nat)
    ensures InOrder(MemberRepeats(members, labels, seen, at), MemberTokens(members), at)
    decreases members
  {
    hide InOrder, OwnRepeat, Repeats, Tokens;
    if members == [] {
      NoneInOrder(at);
    } else {
      var m, rest := members[0], members[1..];
      var here, more := Repeats(m.value, labels, m.key, at + 1),
                        MemberRepeats(rest, labels, seen + {m.key}, at + 1 + |Tokens(m.value)|);
      RepeatsInOrder(m.value, labels, m.key, at + 1);
      MemberRepeatsInOrder(rest, labels, seen + {m.key}, at + 1 + |Tokens(m.value)|);
      InOrderJoin(here, Tokens(m.value), more, MemberTokens(rest), at + 1);
      OwnInOrder(m.key, labels, seen, at);
      InOrderJoin(
        OwnRepeat(m.key, labels, seen, at), [Str(m.key)], here + more, Tokens(m.value) + MemberTokens(rest), at);
      assert [Str(m.key)] + (Tokens(m.value) + MemberTokens(rest)) == MemberTokens(members);
    }
  }

  lemma NoneInOrder(at: nat)
    ensures InOrder([], [], at)
  {
  }

  lemma {:induction false} StreamRepeatsInOrder(docs: seq<Json>, at: nat)
    ensures InOrder(StreamRepeats(docs, at), StreamTokens(docs), at)
  {
    if docs != [] {
      var here := Tokens(docs[0]);
      RepeatsInOrder(docs[0], [], "", at);
      StreamRepeatsInOrder(docs[1..], at + |here|);
      InOrderJoin(Repeats(docs[0], [], "", at), here,
                  StreamRepeats(docs[1..], at + |here|), StreamTokens(docs[1..]), at);
    }
  }

  lemma {:induction false} StreamRepeatsMeanRepeat(docs: seq<Json>, at: nat)
    ensures StreamRepeats(docs, at) != [] <==> exists i | 0 <= i < |docs| :: HasRepeat(docs[i])
  {
    if docs != [] {
      RepeatsMeanRepeat(docs[0], [], "", at);
      StreamRepeatsMeanRepeat(docs[1..], at + |Tokens(docs[0])|);
      assert docs == [docs[0]] + docs[1..];
    }
  }
}
