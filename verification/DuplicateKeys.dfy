/** The duplicate-key scan: one pass over a token stream with an explicit stack of open containers,
    proved against a recursive reading of the document it came from. */
module DuplicateKeys {
  import opened Options
  import opened Lists
  import opened RepeatedKeys

  // ---------------------------------------------------------------------------------------------
  // The scan

  /** One open container. Only an object frame holds keys; an array frame counts its elements. */
  datatype Frame = Frame(isObject: bool, keys: set<string>, expectKey: bool, elems: nat, name: string)

  datatype State = State(stack: seq<Frame>, pending: string)

  /** A decoder never delivers a close that matches no open container. */
  predicate Matched(tokens: seq<Token>, depth: nat)
  {
    if tokens == [] then true
    else match tokens[0]
      case OpenObject => Matched(tokens[1..], depth + 1)
      case OpenArray => Matched(tokens[1..], depth + 1)
      case Close => depth > 0 && Matched(tokens[1..], depth - 1)
      case _ => Matched(tokens[1..], depth)
  }

  function Top(stack: seq<Frame>): Frame
    requires stack != []
  {
    stack[|stack| - 1]
  }

  function WithTop(stack: seq<Frame>, f: Frame): seq<Frame>
    requires stack != []
  {
    stack[..|stack| - 1] + [f]
  }

  /** A value has just been completed inside the innermost container. */
  function ValueDone(stack: seq<Frame>): State
  {
    if stack == [] then State([], "")
    else
      var top := Top(stack);
      State(WithTop(stack, if top.isObject then top.(expectKey := true) else top.(elems := top.elems + 1)), "")
  }

  predicate KeyPosition(st: State)
  {
    st.stack != [] && Top(st.stack).isObject && Top(st.stack).expectKey
  }

  /** The name a container opened now would be given. */
  function NextName(st: State): string
  {
    if st.pending == "" && st.stack != [] && !Top(st.stack).isObject then IndexLabel(Top(st.stack).elems)
    else st.pending
  }

  function Step(st: State, token: Token): State
    requires token == Close ==> st.stack != []
  {
    match token
    case OpenObject => State(st.stack + [Frame(true, {}, true, 0, NextName(st))], "")
    case OpenArray => State(st.stack + [Frame(false, {}, false, 0, NextName(st))], "")
    case Close => ValueDone(st.stack[..|st.stack| - 1])
    case Str(s) =>
      if KeyPosition(st) then
        var top := Top(st.stack);
        State(WithTop(st.stack, top.(keys := top.keys + {s}, expectKey := false)), s)
      else ValueDone(st.stack)
    case Atom => ValueDone(st.stack)
  }

  predicate Offends(st: State, token: Token)
  {
    token.Str? && KeyPosition(st) && token.s in Top(st.stack).keys
  }

  function FrameName(f: Frame): string { f.name }

  function Names(stack: seq<Frame>): seq<string>
  {
    Map(FrameName, stack)
  }

  /** What the scan reports when it starts on `tokens` in state st. */
  function Run(tokens: seq<Token>, st: State, at: nat): Option<Repeat>
    requires Matched(tokens, |st.stack|)
  {
    if tokens == [] then None
    else if Offends(st, tokens[0]) then Some(Repeat(tokens[0].s, Names(st.stack), at))
    else Run(tokens[1..], Step(st, tokens[0]), at + 1)
  }

  /** Where a value may start: outside every container, in an array, or after a key. */
  predicate Ready(st: State)
  {
    !KeyPosition(st) && (st.pending != "" ==> st.stack != [] && Top(st.stack).isObject)
  }

  /** The first of the repeats, or what the scan reports afterwards. */
  function FirstOr(rs: seq<Repeat>, otherwise: Option<Repeat>): Option<Repeat>
  {
    if rs != [] then Some(rs[0]) else otherwise
  }

  lemma RunStep(token: Token, rest: seq<Token>, st: State, at: nat)
    requires Matched([token] + rest, |st.stack|) && !Offends(st, token)
    ensures Matched(rest, |Step(st, token).stack|)
    ensures Run([token] + rest, st, at) == Run(rest, Step(st, token), at + 1)
  {
    assert ([token] + rest)[1..] == rest;
  }

  lemma MatchedStep(token: Token, rest: seq<Token>, depth: nat)
    ensures Matched([token] + rest, depth)
         == match token
            case OpenObject => Matched(rest, depth + 1)
            case OpenArray => Matched(rest, depth + 1)
            case Close => depth > 0 && Matched(rest, depth - 1)
            case _ => Matched(rest, depth)
  {
    assert ([token] + rest)[1..] == rest;
  }

  lemma {:induction false} MatchedValue(v: Json, rest: seq<Token>, depth: nat)
    ensures Matched(Tokens(v) + rest, depth) == Matched(rest, depth)
    decreases v
  {
    hide Matched;
    match v
    case Scalar => MatchedStep(Atom, rest, depth);
    case Text(s) => MatchedStep(Str(s), rest, depth);
    case Array(items) =>
      MatchedItems(items, [Close] + rest, depth + 1);
      MatchedStep(OpenArray, ItemTokens(items) + ([Close] + rest), depth);
      MatchedStep(Close, rest, depth + 1);
      assert Tokens(v) + rest == [OpenArray] + (ItemTokens(items) + ([Close] + rest));
    case Object(members) =>
      MatchedMembers(members, [Close] + rest, depth + 1);
      MatchedStep(OpenObject, MemberTokens(members) + ([Close] + rest), depth);
      MatchedStep(Close, rest, depth + 1);
      assert Tokens(v) + rest == [OpenObject] + (MemberTokens(members) + ([Close] + rest));
  }

  lemma {:induction false} MatchedItems(items: seq<Json>, rest: seq<Token>, depth: nat)
    ensures Matched(ItemTokens(items) + rest, depth) == Matched(rest, depth)
    decreases items
  {
    hide Matched, Tokens;
    if items == [] {
      assert ItemTokens(items) + rest == rest;
    } else {
      MatchedValue(items[0], ItemTokens(items[1..]) + rest, depth);
      MatchedItems(items[1..], rest, depth);
      assert ItemTokens(items) + rest == Tokens(items[0]) + (ItemTokens(items[1..]) + rest);
    }
  }

  lemma {:induction false} MatchedMembers(members: seq<Member>, rest: seq<Token>, depth: nat)
    ensures Matched(MemberTokens(members) + rest, depth) == Matched(rest, depth)
    decreases members
  {
    hide Matched, Tokens;
    if members == [] {
      assert MemberTokens(members) + rest == rest;
    } else {
      var tail := MemberTokens(members[1..]) + rest;
      MatchedStep(Str(members[0].key), Tokens(members[0].value) + tail, depth);
      MatchedValue(members[0].value, tail, depth);
      MatchedMembers(members[1..], rest, depth);
      assert MemberTokens(members) + rest == [Str(members[0].key)] + (Tokens(members[0].value) + tail);
    }
  }

  lemma FirstOrJoin(a: seq<Repeat>, b: seq<Repeat>, otherwise: Option<Repeat>)
    ensures FirstOr(a + b, otherwise) == FirstOr(a, FirstOr(b, otherwise))
  {
  }

  function KeySet(members: seq<Member>): set<string>
  {
    set m | m in members :: m.key
  }

  /** Scanning a value reports its first repeat, or steps over it and goes on. */
  lemma {:induction false} ScanValue(v: Json, rest: seq<Token>, st: State, at: nat)
    requires Ready(st) && Matched(Tokens(v) + rest, |st.stack|) && Matched(rest, |st.stack|)
    ensures |ValueDone(st.stack).stack| == |st.stack|
    ensures Run(Tokens(v) + rest, st, at)
         == FirstOr(Repeats(v, Names(st.stack), NextName(st), at), Run(rest, ValueDone(st.stack), at + |Tokens(v)|))
    decreases v
  {
    match v
    case Scalar => RunStep(Atom, rest, st, at);
    case Text(s) => RunStep(Str(s), rest, st, at);
    case Array(items) => ScanArray(items, rest, st, at);
    case Object(members) => ScanObject(members, rest, st, at);
  }

  lemma Opened(st: State, open: Token)
    requires open == OpenObject || open == OpenArray
    ensures var f := Frame(open == OpenObject, {}, open == OpenObject, 0, NextName(st));
            Step(st, open) == State(st.stack + [f], "") && Names(st.stack + [f]) == Names(st.stack) + [NextName(st)]
  {
  }

  lemma Closed(stack: seq<Frame>, f: Frame)
    ensures Step(State(stack + [f], ""), Close) == ValueDone(stack)
    ensures !Offends(State(stack + [f], ""), Close)
  {
    assert (stack + [f])[..|stack|] == stack;
  }

  lemma {:induction false} ScanArray(items: seq<Json>, rest: seq<Token>, st: State, at: nat)
    requires Ready(st) && Matched(Tokens(Array(items)) + rest, |st.stack|) && Matched(rest, |st.stack|)
    ensures |ValueDone(st.stack).stack| == |st.stack|
    ensures Run(Tokens(Array(items)) + rest, st, at)
         == FirstOr(Repeats(Array(items), Names(st.stack), NextName(st), at),
                    Run(rest, ValueDone(st.stack), at + |Tokens(Array(items))|))
    decreases items, 1
  {
    hide Run, Matched, NextName, Names, Step, ItemRepeats, FirstOr;
    var f := Frame(false, {}, false, 0, NextName(st));
    var last := f.(elems := |items|);
    var closing := [Close] + rest;
    assert Tokens(Array(items)) + rest == [OpenArray] + (ItemTokens(items) + closing);
    Opened(st, OpenArray);
    RunStep(OpenArray, ItemTokens(items) + closing, st, at);
    MatchedItems(items, closing, |st.stack| + 1);
    ScanItems(items, closing, st.stack, f, at + 1);
    Closed(st.stack, last);
    RunStep(Close, rest, State(st.stack + [last], ""), at + 1 + |ItemTokens(items)|);
  }

  lemma {:induction false} ScanObject(members: seq<Member>, rest: seq<Token>, st: State, at: nat)
    requires Ready(st) && Matched(Tokens(Object(members)) + rest, |st.stack|) && Matched(rest, |st.stack|)
    ensures |ValueDone(st.stack).stack| == |st.stack|
    ensures Run(Tokens(Object(members)) + rest, st, at)
         == FirstOr(Repeats(Object(members), Names(st.stack), NextName(st), at),
                    Run(rest, ValueDone(st.stack), at + |Tokens(Object(members))|))
    decreases members, 2
  {
    hide Run, Matched, NextName, Names, Step, MemberRepeats, FirstOr;
    var f := Frame(true, {}, true, 0, NextName(st));
    var last := f.(keys := {} + KeySet(members));
    var closing := [Close] + rest;
    assert Tokens(Object(members)) + rest == [OpenObject] + (MemberTokens(members) + closing);
    Opened(st, OpenObject);
    RunStep(OpenObject, MemberTokens(members) + closing, st, at);
    MatchedMembers(members, closing, |st.stack| + 1);
    ScanMembers(members, closing, st.stack, f, at + 1);
    Closed(st.stack, last);
    RunStep(Close, rest, State(st.stack + [last], ""), at + 1 + |MemberTokens(members)|);
  }

  lemma ElementCounted(base: seq<Frame>, f: Frame)
    requires !f.isObject
    ensures var g := f.(elems := f.elems + 1);
            && Ready(State(base + [f], "")) && NextName(State(base + [f], "")) == IndexLabel(f.elems)
            && ValueDone(base + [f]) == State(base + [g], "") && Names(base + [g]) == Names(base + [f])
  {
  }

  /** Inside an array frame f on top of `base`, when its elements so far have been counted. */
  lemma {:induction false} ScanItems(items: seq<Json>, rest: seq<Token>, base: seq<Frame>, f: Frame, at: nat)
    requires !f.isObject && Matched(rest, |base| + 1) && Matched(ItemTokens(items) + rest, |base| + 1)
    ensures Run(ItemTokens(items) + rest, State(base + [f], ""), at)
         == FirstOr(ItemRepeats(items, Names(base + [f]), f.elems, at),
                    Run(rest, State(base + [f.(elems := f.elems + |items|)], ""), at + |ItemTokens(items)|))
    decreases items, 0
  {
    hide Run, Matched, NextName, Names, ValueDone, Repeats, Tokens, IndexLabel, Ready;
    if items == [] {
      assert ItemTokens(items) + rest == rest;
    } else {
      hide FirstOr;
      var tail := ItemTokens(items[1..]) + rest;
      var g := f.(elems := f.elems + 1);
      MatchedItems(items[1..], rest, |base| + 1);
      assert ItemTokens(items) + rest == Tokens(items[0]) + tail;
      ElementCounted(base, f);
      ScanValue(items[0], tail, State(base + [f], ""), at);
      ScanItems(items[1..], rest, base, g, at + |Tokens(items[0])|);
      FirstOrJoin(Repeats(items[0], Names(base + [f]), IndexLabel(f.elems), at),
                  ItemRepeats(items[1..], Names(base + [f]), f.elems + 1, at + |Tokens(items[0])|),
                  Run(rest, State(base + [f.(elems := f.elems + |items|)], ""), at + |ItemTokens(items)|));
      assert g.(elems := g.elems + |items[1..]|) == f.(elems := f.elems + |items|);
    }
  }

  lemma KeyRead(base: seq<Frame>, f: Frame, key: string)
    requires f.isObject && f.expectKey
    ensures Offends(State(base + [f], ""), Str(key)) <==> key in f.keys
    ensures var st := Step(State(base + [f], ""), Str(key));
            && Ready(st) && NextName(st) == key && Names(st.stack) == Names(base + [f]) && |st.stack| == |base| + 1
            && ValueDone(st.stack) == State(base + [f.(keys := f.keys + {key})], "")
            && Names(base + [f.(keys := f.keys + {key})]) == Names(base + [f])
  {
  }

  lemma RunOffends(key: string, rest: seq<Token>, st: State, at: nat)
    requires Matched([Str(key)] + rest, |st.stack|) && Offends(st, Str(key))
    ensures Run([Str(key)] + rest, st, at) == Some(Repeat(key, Names(st.stack), at))
  {
  }

  /** Inside an object frame f on top of `base`, about to read a key. */
  lemma {:induction false} ScanMembers(members: seq<Member>, rest: seq<Token>, base: seq<Frame>, f: Frame, at: nat)
    requires f.isObject && f.expectKey && Matched(rest, |base| + 1) && Matched(MemberTokens(members) + rest, |base| + 1)
    ensures Run(MemberTokens(members) + rest, State(base + [f], ""), at)
         == FirstOr(MemberRepeats(members, Names(base + [f]), f.keys, at),
                    Run(rest, State(base + [f.(keys := f.keys + KeySet(members))], ""), at + |MemberTokens(members)|))
    decreases members, 1
  {
    hide Run, Matched, NextName, Names, ValueDone, Repeats, Tokens, Ready, Step, Offends;
    if members == [] {
      assert MemberTokens(members) + rest == rest;
      assert f.keys + KeySet(members) == f.keys;
    } else {
      var m := members[0];
      var tail := MemberTokens(members[1..]) + rest;
      var st := State(base + [f], "");
      assert MemberTokens(members) + rest == [Str(m.key)] + (Tokens(m.value) + tail);
      KeyRead(base, f, m.key);
      if m.key in f.keys {
        RunOffends(m.key, Tokens(m.value) + tail, st, at);
      } else {
        RunStep(Str(m.key), Tokens(m.value) + tail, st, at);
        ScanNextMember(members, rest, base, f, at);
        MemberRepeatsClean(members, Names(base + [f]), f.keys, at);
      }
    }
  }

  lemma MemberRepeatsClean(members: seq<Member>, labels: seq<string>, seen: set<string>, at: nat)
    requires members != [] && members[0].key !in seen
    ensures var m := members[0];
            MemberRepeats(members, labels, seen, at)
              == Repeats(m.value, labels, m.key, at + 1)
                 + MemberRepeats(members[1..], labels, seen + {m.key}, at + 1 + |Tokens(m.value)|)
  {
  }

  lemma {:induction false} ScanNextMember(members: seq<Member>, rest: seq<Token>, base: seq<Frame>, f: Frame, at: nat)
    requires f.isObject && f.expectKey && members != [] && Matched(rest, |base| + 1)
    requires var m := members[0];
             var st := Step(State(base + [f], ""), Str(m.key));
             |st.stack| == |base| + 1 && Matched(Tokens(m.value) + (MemberTokens(members[1..]) + rest), |st.stack|)
    ensures var m := members[0];
            var st := Step(State(base + [f], ""), Str(m.key));
            Run(Tokens(m.value) + (MemberTokens(members[1..]) + rest), st, at + 1)
              == FirstOr(Repeats(m.value, Names(base + [f]), m.key, at + 1)
                         + MemberRepeats(members[1..], Names(base + [f]), f.keys + {m.key}, at + 1 + |Tokens(m.value)|),
                         Run(rest, State(base + [f.(keys := f.keys + KeySet(members))], ""),
                           at + |MemberTokens(members)|))
    decreases members, 0
  {
    hide Run, Matched, NextName, Names, ValueDone, Repeats, Tokens, Ready, Step, Offends, FirstOr, MemberRepeats;
    var m := members[0];
    var tail := MemberTokens(members[1..]) + rest;
    MatchedMembers(members[1..], rest, |base| + 1);
    KeyRead(base, f, m.key);
    var g := f.(keys := f.keys + {m.key});
    ScanValue(m.value, tail, Step(State(base + [f], ""), Str(m.key)), at + 1);
    ScanMembers(members[1..], rest, base, g, at + 1 + |Tokens(m.value)|);
    assert members == [m] + members[1..];
    assert g.keys + KeySet(members[1..]) == f.keys + KeySet(members);
    FirstOrJoin(Repeats(m.value, Names(base + [f]), m.key, at + 1),
                MemberRepeats(members[1..], Names(base + [f]), f.keys + {m.key}, at + 1 + |Tokens(m.value)|),
                Run(rest, State(base + [f.(keys := f.keys + KeySet(members))], ""), at + |MemberTokens(members)|));
  }

  // ---------------------------------------------------------------------------------------------
  // Streams of documents, cut off anywhere

  lemma {:induction false} MatchedStream(docs: seq<Json>, depth: nat)
    ensures Matched(StreamTokens(docs), depth)
  {
    MatchedItems(docs, [], depth);
    assert ItemTokens(docs) + [] == ItemTokens(docs);
  }

  lemma {:induction false} MatchedPrefix(tokens: seq<Token>, depth: nat, k: nat)
    requires Matched(tokens, depth) && k <= |tokens|
    ensures Matched(tokens[..k], depth)
  {
    if k > 0 {
      assert tokens[..k][1..] == tokens[1..][..k - 1];
      match tokens[0]
      case Close => MatchedPrefix(tokens[1..], depth - 1, k - 1);
      case OpenObject => MatchedPrefix(tokens[1..], depth + 1, k - 1);
      case OpenArray => MatchedPrefix(tokens[1..], depth + 1, k - 1);
      case _ => MatchedPrefix(tokens[1..], depth, k - 1);
    }
  }

  lemma {:induction false} ScanStream(docs: seq<Json>, at: nat)
    ensures Matched(StreamTokens(docs), 0)
    ensures Run(StreamTokens(docs), State([], ""), at) == FirstOr(StreamRepeats(docs, at), None)
  {
    MatchedStream(docs, 0);
    hide Matched, Tokens, Repeats;
    if docs != [] {
      MatchedStream(docs[1..], 0);
      assert Names([]) == [];
      ScanValue(docs[0], StreamTokens(docs[1..]), State([], ""), at);
      ScanStream(docs[1..], at + |Tokens(docs[0])|);
    }
  }

  /** Cutting the input off can only lose a repeat that lies beyond the cut. */
  lemma {:induction false} RunPrefix(tokens: seq<Token>, st: State, at: nat, k: nat)
    requires Matched(tokens, |st.stack|) && k <= |tokens|
    ensures Matched(tokens[..k], |st.stack|)
    ensures var r := Run(tokens, st, at);
            && (r.Some? ==> at <= r.value.at)
            && Run(tokens[..k], st, at) == if r.Some? && r.value.at < at + k then r else None
    decreases |tokens|
  {
    MatchedPrefix(tokens, |st.stack|, k);
    if tokens != [] && !Offends(st, tokens[0]) {
      if k > 0 {
        assert tokens[..k][1..] == tokens[1..][..k - 1];
      }
      RunPrefix(tokens[1..], Step(st, tokens[0]), at + 1, if k > 0 then k - 1 else 0);
    }
  }

  // ---------------------------------------------------------------------------------------------
  // The path in the report, and the scan as the program runs it

  /** The dotted path that the labels spell after `text`: empty labels are dropped, positions are
      appended without a dot. */
  function PathFrom(text: string, labels: seq<string>): string
    decreases |labels|
  {
    if labels == [] then text
    else
      var l := labels[0];
      PathFrom(if l == "" then text
               else if l[0] == '[' || text == "" then text + l
               else text + ['.'] + l, labels[1..])
  }

  function PathText(labels: seq<string>): string
  {
    var text := PathFrom("", labels);
    if text == "" then "the top-level object" else text
  }

  lemma {:induction false} PathFromSkipsEmpty(text: string, labels: seq<string>)
    ensures PathFrom(text, labels) == PathFrom(text, NonEmpty(labels))
    decreases |labels|
  {
    if labels != [] {
      var l := labels[0];
      var next := if l == "" then text
                  else if l[0] == '[' || text == "" then text + l
                  else text + ['.'] + l;
      PathFromSkipsEmpty(next, labels[1..]);
      if l != "" {
        assert NonEmpty(labels)[1..] == NonEmpty(labels[1..]);
      }
    }
  }

  function NonEmpty(labels: seq<string>): seq<string>
  {
    if labels == [] then []
    else if labels[0] == "" then NonEmpty(labels[1..])
    else [labels[0]] + NonEmpty(labels[1..])
  }

  /** Render the path to the innermost open container. */
  method FramePath(stack: seq<Frame>) returns (path: string)
    ensures path == PathText(Names(stack))
  {
    var text := "";
    for i := 0 to |stack|
      invariant PathFrom(text, Names(stack)[i..]) == PathFrom("", Names(stack))
    {
      var name := stack[i].name;
      assert Names(stack)[i..][0] == name && Names(stack)[i..][1..] == Names(stack)[i + 1..];
      if name != "" {
        if name[0] == '[' {
          text := text + name;
        } else {
          if text != "" {
            text := text + ['.'];
          }
          text := text + name;
        }
      }
    }
    path := if text == "" then "the top-level object" else text;
  }

  /** The program's report: the repeated key and the path to its object. */
  datatype Report = Report(key: string, path: string)

  function ReportOf(found: Option<Repeat>): Option<Report>
  {
    if found.Some? then Some(Report(found.value.key, PathText(found.value.labels))) else None
  }

  /** Scan a decoder's tokens with an explicit stack. A decoder that meets a syntax error stops, and
      the scan then ends without a report. */
  method RejectDuplicateKeys(tokens: seq<Token>) returns (report: Option<Report>)
    requires Matched(tokens, 0)
    ensures report == ReportOf(Run(tokens, State([], ""), 0))
  {
    var stack: seq<Frame> := [];
    var pending := "";
    for i := 0 to |tokens|
      invariant Matched(tokens[i..], |stack|)
      invariant Run(tokens, State([], ""), 0) == Run(tokens[i..], State(stack, pending), i)
    {
      assert tokens[i..][0] == tokens[i] && tokens[i..][1..] == tokens[i + 1..];
      match tokens[i]
      case OpenObject =>
        var name := NextName(State(stack, pending));
        stack, pending := stack + [Frame(true, {}, true, 0, name)], "";
      case OpenArray =>
        var name := NextName(State(stack, pending));
        stack, pending := stack + [Frame(false, {}, false, 0, name)], "";
      case Close =>
        var done := ValueDone(stack[..|stack| - 1]);
        stack, pending := done.stack, done.pending;
      case Str(s) =>
        var top := |stack| - 1;
        if top >= 0 && stack[top].isObject && stack[top].expectKey {
          if s in stack[top].keys {
            var path := FramePath(stack);
            return Some(Report(s, path));
          }
          stack := stack[..top] + [stack[top].(keys := stack[top].keys + {s}, expectKey := false)];
          pending := s;
        } else {
          var done := ValueDone(stack);
          stack, pending := done.stack, done.pending;
        }
      case Atom =>
        var done := ValueDone(stack);
        stack, pending := done.stack, done.pending;
    }
    report := None;
  }

  /** The scan of a stream of documents, cut off after k tokens, reports exactly the first repeat in
      document order that lies before the cut. */
  lemma ScanReportsFirstRepeat(docs: seq<Json>, k: nat)
    requires k <= |StreamTokens(docs)|
    ensures Matched(StreamTokens(docs)[..k], 0)
    ensures var all := StreamRepeats(docs, 0);
            && InOrder(all, StreamTokens(docs), 0)
            && Run(StreamTokens(docs)[..k], State([], ""), 0)
                 == if all != [] && all[0].at < k then Some(all[0]) else None
  {
    ScanStream(docs, 0);
    RunPrefix(StreamTokens(docs), State([], ""), 0, k);
    StreamRepeatsInOrder(docs, 0);
  }

  /** On one whole document the scan reports an error exactly when some object repeats a key. */
  lemma ScanDetectsRepeats(v: Json)
    ensures Matched(Tokens(v), 0)
    ensures Run(Tokens(v), State([], ""), 0).Some? <==> HasRepeat(v)
  {
    hide Tokens, HasRepeat, Matched, Run;
    assert [v][1..] == [];
    assert StreamTokens([v]) == Tokens(v) + ItemTokens([]);
    assert StreamTokens([v]) == Tokens(v);
    ScanStream([v], 0);
    StreamRepeatsMeanRepeat([v], 0);
    assert [v][0] == v;
  }
}
