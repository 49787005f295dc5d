/** Canonical JSON: the printer that every hash is taken over, and a parser that undoes it.
    Section numbers are those of RFC 8259. */
module CanonicalJson {
  import opened Lists
  import opened Options

  /** A decoded JSON value. An object is a map, so its members carry no order; a number keeps the
      literal it was written with. */
  datatype Value =
    | Null
    | Bool(b: bool)
    | Number(literal: string)
    | Text(s: string)
    | Array(items: seq<Value>)
    | Object(members: map<string, Value>)

  // ---------------------------------------------------------------------------------------------
  // Numbers (section 6)

  predicate IsDigit(c: char) { '0' <= c <= '9' }

  predicate IsNumberChar(c: char) { IsDigit(c) || c in "+-.eE" }

  function DigitRun(s: string): (n: nat)
    ensures n <= |s|
    ensures forall i | 0 <= i < n :: IsDigit(s[i])
  {
    if s != "" && IsDigit(s[0]) then 1 + DigitRun(s[1..]) else 0
  }

  /** The rest of s after an integer part, or None when there is none. */
  function AfterInteger(s: string): Option<string>
  {
    if s == "" || !IsDigit(s[0]) then None
    else if s[0] == '0' then Some(s[1..])
    else Some(s[DigitRun(s)..])
  }

  function AfterFraction(s: string): Option<string>
  {
    if s == "" || s[0] != '.' then Some(s)
    else if DigitRun(s[1..]) == 0 then None
    else Some(s[1..][DigitRun(s[1..])..])
  }

  function AfterExponent(s: string): Option<string>
  {
    if s == "" || s[0] !in "eE" then Some(s)
    else
      var t := if |s| > 1 && s[1] in "+-" then s[2..] else s[1..];
      if DigitRun(t) == 0 then None else Some(t[DigitRun(t)..])
  }

  /** The number grammar: an optional minus, an integer, an optional fraction, an optional exponent. */
  predicate IsNumber(s: string)
  {
    var unsigned := if s != "" && s[0] == '-' then s[1..] else s;
    var i := AfterInteger(unsigned);
    i.Some? &&
    var f := AfterFraction(i.value);
    f.Some? &&
    var e := AfterExponent(f.value);
    e.Some? && e.value == ""
  }

  /** Every literal is a number; this is what a decoder that keeps literals delivers. */
  ghost predicate WellFormed(v: Value)
  {
    match v
    case Number(literal) => IsNumber(literal)
    case Array(items) => forall i | 0 <= i < |items| :: WellFormed(items[i])
    case Object(members) => forall k | k in members :: WellFormed(members[k])
    case _ => true
  }

  // ---------------------------------------------------------------------------------------------
  // Strings (section 7)

  const HEX := "0123456789abcdef"

  /** One character as the encoder writes it with HTML escaping off. */
  function EscapeChar(c: char): string
  {
    if c == '"' then "\\\""
    else if c == '\\' then "\\\\"
    else if c == '\U{08}' then "\\b"
    else if c == '\U{0C}' then "\\f"
    else if c == '\n' then "\\n"
    else if c == '\r' then "\\r"
    else if c == '\t' then "\\t"
    else if c < ' ' then "\\u00" + [HEX[c as int / 16], HEX[c as int % 16]]
    else if c == '\U{2028}' then "\\u2028"
    else if c == '\U{2029}' then "\\u2029"
    else [c]
  }

  function Escape(s: string): string
  {
    if s == "" then "" else EscapeChar(s[0]) + Escape(s[1..])
  }

  function Quote(s: string): string
  {
    ['"'] + Escape(s) + ['"']
  }

  function HexValue(c: char): Option<nat>
  {
    if '0' <= c <= '9' then Some((c as int - '0' as int) as nat)
    else if 'a' <= c <= 'f' then Some((c as int - 'a' as int + 10) as nat)
    else if 'A' <= c <= 'F' then Some((c as int - 'A' as int + 10) as nat)
    else None
  }

  function HexCode(s: string): (r: Option<nat>)
    requires |s| == 4
    ensures r.Some? ==> r.value < 0x1_0000
  {
    var a, b, c, d := HexValue(s[0]), HexValue(s[1]), HexValue(s[2]), HexValue(s[3]);
    if a.Some? && b.Some? && c.Some? && d.Some?
    then Some((a.value * 16 + b.value) * 0x100 + (c.value * 16 + d.value))
    else None
  }

  /** One possibly escaped character and what follows it. */
  function ParseChar(s: string): (r: Option<(char, string)>)
    ensures r.Some? ==> |r.value.1| < |s|
  {
    if s == "" || s[0] == '"' || s[0] < ' ' then None
    else if s[0] != '\\' then Some((s[0], s[1..]))
    else if |s| < 2 then None
    else
      var rest := s[2..];
      match s[1]
      case '"' => Some(('"', rest))
      case '\\' => Some(('\\', rest))
      case '/' => Some(('/', rest))
      case 'b' => Some(('\U{08}', rest))
      case 'f' => Some(('\U{0C}', rest))
      case 'n' => Some(('\n', rest))
      case 'r' => Some(('\r', rest))
      case 't' => Some(('\t', rest))
      case 'u' =>
        if |s| < 6 then None
        else
          var code := HexCode(s[2..6]);
          if code.None? || 0xD800 <= code.value <= 0xDFFF then None
          else Some((code.value as char, s[6..]))
      case _ => None
  }

  /** The characters up to the closing quote, and what follows it. */
  function ParseText(s: string): (r: Option<(string, string)>)
    ensures r.Some? ==> |r.value.1| < |s|
    decreases |s|
  {
    if s == "" then None
    else if s[0] == '"' then Some(("", s[1..]))
    else
      var first := ParseChar(s);
      if first.None? then None
      else
        var more := ParseText(first.value.1);
        if more.None? then None else Some(([first.value.0] + more.value.0, more.value.1))
  }

  // ---------------------------------------------------------------------------------------------
  // Printing

  /** The keys of an object in the order the printer writes them. */
  ghost function SortedKeys(keys: set<string>): (r: seq<string>)
    ensures StrictlySorted(TextKey, r) && Elements(r) == keys && |r| == |keys|
    decreases |keys|
  {
    if keys == {} then []
    else
      var k :| k in keys;
      var rest := SortedKeys(keys - {k});
      assert multiset(Insert(TextKey, k, rest)) == multiset{k} + multiset(rest) by {
        InsertPermutes(TextKey, k, rest);
      }
      InsertKey(k, rest);
      Insert(TextKey, k, rest)
  }

  lemma InsertKey(k: string, rest: seq<string>)
    requires StrictlySorted(TextKey, rest) && k !in rest
    ensures StrictlySorted(TextKey, Insert(TextKey, k, rest))
    ensures Elements(Insert(TextKey, k, rest)) == Elements(rest) + {k}
  {
    StrictIsSorted(TextKey, rest);
    InsertSorted(TextKey, k, rest);
    InsertPermutes(TextKey, k, rest);
    assert multiset([k] + rest) == multiset(Insert(TextKey, k, rest));
    SameMembers([k] + rest, Insert(TextKey, k, rest));
    DistinctTextKeys([k] + rest);
    DistinctKeysOfPermutation(TextKey, [k] + rest, Insert(TextKey, k, rest));
    SortedDistinctIsStrict(TextKey, Insert(TextKey, k, rest));
    assert Elements([k] + rest) == Elements(rest) + {k};
  }

  /** The text of a value that holds no other value. */
  function LeafText(v: Value): string
    requires !v.Array? && !v.Object?
  {
    match v
    case Null => "null"
    case Bool(b) => if b then "true" else "false"
    case Number(literal) => literal
    case Text(s) => Quote(s)
  }

  ghost function Print(v: Value): string
    decreases v
  {
    if v.Array? then ['['] + PrintItems(v.items) + [']']
    else if v.Object? then ['{'] + PrintMembers(v, SortedKeys(v.members.Keys)) + ['}']
    else LeafText(v)
  }

  ghost function PrintItems(items: seq<Value>): string
    decreases items
  {
    if items == [] then ""
    else Print(items[0]) + (if |items| == 1 then "" else [','] + PrintItems(items[1..]))
  }

  ghost function PrintMembers(v: Value, keys: seq<string>): string
    requires v.Object? && forall k | k in keys :: k in v.members
    decreases v, 0, |keys|
  {
    if keys == [] then ""
    else
      Quote(keys[0]) + [':'] + Print(v.members[keys[0]])
      + (if |keys| == 1 then "" else [','] + PrintMembers(v, keys[1..]))
  }

  // ---------------------------------------------------------------------------------------------
  // Parsing

  function NumberRun(s: string): (n: nat)
    ensures n <= |s|
    ensures forall i | 0 <= i < n :: IsNumberChar(s[i])
    ensures n < |s| ==> !IsNumberChar(s[n])
  {
    if s != "" && IsNumberChar(s[0]) then 1 + NumberRun(s[1..]) else 0
  }

  /** Parse one value without white space, and return it with what follows it. */
  function Parse(s: string): (r: Option<(Value, string)>)
    ensures r.Some? ==> |r.value.1| < |s|
    decreases |s|, 2
  {
    if s == "" then None
    else if "null" <= s then Some((Null, s[4..]))
    else if "true" <= s then Some((Bool(true), s[4..]))
    else if "false" <= s then Some((Bool(false), s[5..]))
    else if s[0] == '"' then
      var t := ParseText(s[1..]);
      if t.None? then None else Some((Text(t.value.0), t.value.1))
    else if s[0] == '[' then
      if "[]" <= s then Some((Array([]), s[2..]))
      else
        var t := ParseItems(s[1..]);
        if t.None? then None else Some((Array(t.value.0), t.value.1))
    else if s[0] == '{' then
      if "{}" <= s then Some((Object(map[]), s[2..]))
      else
        var t := ParseMembers(s[1..], map[]);
        if t.None? then None else Some((Object(t.value.0), t.value.1))
    else
      ParseNumber(s)
  }

  function ParseNumber(s: string): (r: Option<(Value, string)>)
    ensures r.Some? ==> |r.value.1| < |s| && IsNumberChar(s[0])
  {
    var n := NumberRun(s);
    if n > 0 && IsNumber(s[..n]) then Some((Number(s[..n]), s[n..])) else None
  }

  /** One or more values separated by commas, up to and including the closing bracket. */
  function ParseItems(s: string): (r: Option<(seq<Value>, string)>)
    ensures r.Some? ==> |r.value.1| < |s|
    decreases |s|, 3
  {
    var first := Parse(s);
    if first.None? || first.value.1 == "" then None
    else if first.value.1[0] == ']' then Some(([first.value.0], first.value.1[1..]))
    else if first.value.1[0] != ',' then None
    else
      var more := ParseItems(first.value.1[1..]);
      if more.None? then None else Some(([first.value.0] + more.value.0, more.value.1))
  }

  /** One or more members, up to and including the closing brace, added to those already read. A
      repeated key is refused. */
  function ParseMembers(s: string, read: map<string, Value>): (r: Option<(map<string, Value>, string)>)
    ensures r.Some? ==> |r.value.1| < |s|
    decreases |s|, 3
  {
    if s == "" || s[0] != '"' then None
    else
      var key := ParseText(s[1..]);
      if key.None? || key.value.0 in read || key.value.1 == "" || key.value.1[0] != ':' then None
      else
        var first := Parse(key.value.1[1..]);
        if first.None? || first.value.1 == "" then None
        else
          var sofar := read[key.value.0 := first.value.0];
          if first.value.1[0] == '}' then Some((sofar, first.value.1[1..]))
          else if first.value.1[0] != ',' then None
          else ParseMembers(first.value.1[1..], sofar)
  }

  // ---------------------------------------------------------------------------------------------
  // The parser undoes the printer

  lemma HexDigits(n: nat)
    requires n < 32
    ensures HexCode(['0', '0', HEX[n / 16], HEX[n % 16]]) == Some(n)
  {
    assert HexValue(HEX[n / 16]) == Some(n / 16) && HexValue(HEX[n % 16]) == Some(n % 16);
  }

  lemma EscapedCharParses(c: char, rest: string)
    ensures ParseChar(EscapeChar(c) + rest) == Some((c, rest))
    ensures EscapeChar(c) != "" && EscapeChar(c)[0] != '"'
  {
    hide HexCode;
    var s := EscapeChar(c) + rest;
    if c < ' ' && |EscapeChar(c)| == 6 {
      HexDigits(c as int);
      assert s[2..6] == ['0', '0', HEX[c as int / 16], HEX[c as int % 16]];
      assert s[6..] == rest;
    } else if c == '\U{2028}' || c == '\U{2029}' {
      LineSeparators();
      assert s[2..6] == ['2', '0', '2', if c == '\U{2028}' then '8' else '9'];
      assert s[6..] == rest;
    } else if |EscapeChar(c)| == 2 {
      assert s[2..] == rest;
    } else {
      assert s[1..] == rest;
    }
  }

  lemma LineSeparators()
    ensures HexCode(['2', '0', '2', '8']) == Some(0x2028) && HexCode(['2', '0', '2', '9']) == Some(0x2029)
  {
  }

  lemma ParseTextStep(t: string, c: char, tail: string, s: string, rest: string)
    requires t != "" && t[0] != '"' && ParseChar(t) == Some((c, tail))
    requires ParseText(tail) == Some((s, rest))
    ensures ParseText(t) == Some(([c] + s, rest))
  {
  }

  lemma EscapeStep(s: string, rest: string)
    requires s != ""
    ensures Escape(s) + rest == EscapeChar(s[0]) + (Escape(s[1..]) + rest)
  {
    hide EscapeChar;
  }

  lemma {:induction false} EscapedTextParses(s: string, rest: string)
    ensures ParseText(Escape(s) + (['"'] + rest)) == Some((s, rest))
  {
    if s == "" {
      assert Escape(s) + (['"'] + rest) == ['"'] + rest;
      assert (['"'] + rest)[1..] == rest;
    } else {
      var tail := Escape(s[1..]) + (['"'] + rest);
      EscapedCharParses(s[0], tail);
      EscapedTextParses(s[1..], rest);
      EscapeStep(s, ['"'] + rest);
      ParseTextStep(EscapeChar(s[0]) + tail, s[0], tail, s[1..], rest);
      assert s == [s[0]] + s[1..];
    }
  }

  lemma QuoteParses(s: string, rest: string)
    ensures Quote(s) + rest != "" && (Quote(s) + rest)[0] == '"'
    ensures ParseText((Quote(s) + rest)[1..]) == Some((s, rest))
  {
    EscapedTextParses(s, rest);
    assert (Quote(s) + rest)[1..] == Escape(s) + (['"'] + rest);
  }

  lemma {:induction false} NumberRunOfLiteral(literal: string, rest: string)
    requires forall i | 0 <= i < |literal| :: IsNumberChar(literal[i])
    requires Ends(rest)
    ensures NumberRun(literal + rest) == |literal|
  {
    if literal == "" {
      assert literal + rest == rest;
    } else {
      assert (literal + rest)[1..] == literal[1..] + rest;
      NumberRunOfLiteral(literal[1..], rest);
    }
  }

  /** What follows a value never continues a number. */
  predicate Ends(rest: string) { rest != "" ==> !IsNumberChar(rest[0]) }

  lemma ExponentChars(s: string)
    requires AfterExponent(s) == Some("")
    ensures forall i | 0 <= i < |s| :: IsNumberChar(s[i])
  {
    if s != "" {
      var t := if |s| > 1 && s[1] in "+-" then s[2..] else s[1..];
      assert DigitRun(t) == |t|;
      forall i | 0 <= i < |s|
        ensures IsNumberChar(s[i])
      {
        if i >= |s| - |t| {
          assert s[i] == t[i - (|s| - |t|)];
        }
      }
    }
  }

  lemma FractionChars(s: string)
    requires AfterFraction(s).Some? && AfterExponent(AfterFraction(s).value) == Some("")
    ensures forall i | 0 <= i < |s| :: IsNumberChar(s[i])
  {
    hide AfterExponent;
    var f := AfterFraction(s).value;
    ExponentChars(f);
    if s != "" && s[0] == '.' {
      var n := DigitRun(s[1..]);
      forall i | 0 <= i < |s|
        ensures IsNumberChar(s[i])
      {
        if 1 <= i <= n {
          assert s[i] == s[1..][i - 1];
        } else if i > n {
          assert s[i] == f[i - 1 - n];
        }
      }
    }
  }

  lemma NumberChars(s: string)
    requires IsNumber(s)
    ensures s != "" && (s[0] == '-' || IsDigit(s[0]))
    ensures forall i | 0 <= i < |s| :: IsNumberChar(s[i])
  {
    if s[0] == '-' {
      IntegerChars(s[1..]);
      forall i | 0 < i < |s|
        ensures IsNumberChar(s[i])
      {
        assert s[i] == s[1..][i - 1];
      }
    } else {
      IntegerChars(s);
    }
  }

  lemma IntegerChars(s: string)
    requires AfterInteger(s).Some? && AfterFraction(AfterInteger(s).value).Some?
    requires AfterExponent(AfterFraction(AfterInteger(s).value).value) == Some("")
    ensures s != "" && IsDigit(s[0]) && forall i | 0 <= i < |s| :: IsNumberChar(s[i])
  {
    hide AfterFraction, AfterExponent;
    var f := AfterInteger(s).value;
    FractionChars(f);
    var n := if s[0] == '0' then 1 else DigitRun(s);
    forall i | 0 <= i < |s|
      ensures IsNumberChar(s[i])
    {
      if i >= n {
        assert s[i] == f[i - n];
      }
    }
  }

  lemma NumberParses(literal: string, rest: string)
    requires IsNumber(literal) && Ends(rest)
    ensures Parse(literal + rest) == Some((Number(literal), rest))
  {
    NumberChars(literal);
    NumberRunOfLiteral(literal, rest);
    var s := literal + rest;
    assert s[0] == literal[0];
    assert s[..|literal|] == literal && s[|literal|..] == rest;
  }

  lemma ParsedStart(s: string)
    requires Parse(s).Some?
    ensures s != "" && s[0] != ']' && s[0] != '}'
  {
    LiteralStart(s);
  }

  lemma ParsedItemsStart(s: string)
    requires ParseItems(s).Some?
    ensures s != "" && s[0] != ']'
  {
    ParsedStart(s);
  }

  lemma LiteralStart(s: string)
    requires s != ""
    ensures "null" <= s ==> s[0] == 'n'
    ensures "true" <= s ==> s[0] == 't'
    ensures "false" <= s ==> s[0] == 'f'
  {
    assert "null"[0] == 'n' && "true"[0] == 't' && "false"[0] == 'f';
  }

  lemma ItemsParseAsArray(s: string, items: seq<Value>, rest: string)
    requires ParseItems(s) == Some((items, rest))
    ensures Parse(['['] + s) == Some((Array(items), rest))
  {
    LiteralStart(['['] + s);
    ParsedItemsStart(s);
    assert (['['] + s)[1..] == s;
  }

  lemma MembersParseAsObject(s: string, members: map<string, Value>, rest: string)
    requires ParseMembers(s, map[]) == Some((members, rest))
    ensures Parse(['{'] + s) == Some((Object(members), rest))
  {
    LiteralStart(['{'] + s);
    assert (['{'] + s)[1..] == s;
    assert s[0] == '"';
  }

  lemma LeafParses(v: Value, rest: string)
    requires WellFormed(v) && Ends(rest) && !v.Array? && !v.Object?
    ensures Parse(Print(v) + rest) == Some((v, rest))
  {
    var s := Print(v) + rest;
    LiteralStart(s);
    match v
    case Null => assert s[4..] == rest;
    case Bool(b) =>
      if b {
        assert s[4..] == rest;
      } else {
        assert s[5..] == rest;
      }
    case Number(literal) => NumberParses(literal, rest);
    case Text(t) => QuoteParses(t, rest);
  }

  lemma EmptyParses(rest: string)
    ensures Parse("[]" + rest) == Some((Array([]), rest))
    ensures Parse("{}" + rest) == Some((Object(map[]), rest))
  {
    LiteralStart("[]" + rest);
    LiteralStart("{}" + rest);
    assert ("[]" + rest)[2..] == rest && ("{}" + rest)[2..] == rest;
  }

  /** The parser recovers a printed value and stops exactly where it ends. */
  lemma {:induction false} PrintParses(v: Value, rest: string)
    requires WellFormed(v) && Ends(rest)
    ensures Parse(Print(v) + rest) == Some((v, rest))
    decreases v
  {
    hide Parse, ParseItems, ParseMembers;
    if v.Array? {
      PrintArray(v, rest);
      if v.items == [] {
        EmptyParses(rest);
      } else {
        ItemsParse(v.items, rest);
        ItemsParseAsArray(PrintItems(v.items) + ([']'] + rest), v.items, rest);
      }
    } else if v.Object? {
      var keys := PrintObject(v, rest);
      if keys == [] {
        EmptyParses(rest);
      } else {
        MembersParse(v, keys, map[], rest);
        MembersParseAsObject(PrintMembers(v, keys) + (['}'] + rest), v.members, rest);
      }
    } else {
      LeafParses(v, rest);
    }
  }

  lemma PrintArray(v: Value, rest: string)
    requires v.Array?
    ensures Print(v) + rest == ['['] + (PrintItems(v.items) + ([']'] + rest))
    ensures v.items == [] ==> Print(v) + rest == "[]" + rest
  {
  }

  lemma KeyFacts(m: map<string, Value>, keys: seq<string>)
    requires StrictlySorted(TextKey, keys) && Elements(keys) == m.Keys
    ensures Distinct(keys) && forall k | k in keys :: k in m
    ensures keys == [] ==> m == map[]
    ensures map[] + Pick(m, keys) == m
  {
    StrictIsSorted(TextKey, keys);
    assert forall k | k in keys :: k in Elements(keys);
    assert forall k | k in m :: k in Elements(keys);
  }

  lemma PrintObject(v: Value, rest: string) returns (keys: seq<string>)
    requires v.Object?
    ensures Distinct(keys) && forall k | k in keys :: k in v.members
    ensures Print(v) + rest == ['{'] + (PrintMembers(v, keys) + (['}'] + rest))
    ensures keys == [] ==> v == Object(map[]) && Print(v) + rest == "{}" + rest
    ensures map[] + Pick(v.members, keys) == v.members
  {
    keys := SortedKeys(v.members.Keys);
    KeyFacts(v.members, keys);
    Braces(PrintMembers(v, keys), rest);
  }

  lemma Braces(body: string, rest: string)
    ensures ['{'] + body + ['}'] + rest == ['{'] + (body + (['}'] + rest))
    ensures body == "" ==> ['{'] + body + ['}'] + rest == "{}" + rest
  {
  }

  lemma LastItem(s: string, x: Value, rest: string)
    requires Parse(s) == Some((x, [']'] + rest))
    ensures ParseItems(s) == Some(([x], rest))
  {
    assert ([']'] + rest)[1..] == rest;
  }

  lemma NextItem(s: string, x: Value, tail: string, more: seq<Value>, rest: string)
    requires Parse(s) == Some((x, [','] + tail)) && ParseItems(tail) == Some((more, rest))
    ensures ParseItems(s) == Some(([x] + more, rest))
  {
    assert ([','] + tail)[1..] == tail;
  }

  lemma PrintItemsStep(items: seq<Value>, end: string)
    requires |items| > 1
    ensures PrintItems(items) + end == Print(items[0]) + ([','] + (PrintItems(items[1..]) + end))
  {
  }

  lemma {:induction false} ItemsParse(items: seq<Value>, rest: string)
    requires items != [] && forall i | 0 <= i < |items| :: WellFormed(items[i])
    ensures ParseItems(PrintItems(items) + ([']'] + rest)) == Some((items, rest))
    decreases items
  {
    hide Parse, ParseItems;
    if |items| == 1 {
      PrintParses(items[0], [']'] + rest);
      assert PrintItems(items) == Print(items[0]);
      LastItem(Print(items[0]) + ([']'] + rest), items[0], rest);
      assert items == [items[0]];
    } else {
      var tail := PrintItems(items[1..]) + ([']'] + rest);
      PrintParses(items[0], [','] + tail);
      ItemsParse(items[1..], rest);
      PrintItemsStep(items, [']'] + rest);
      NextItem(Print(items[0]) + ([','] + tail), items[0], tail, items[1..], rest);
      assert items == [items[0]] + items[1..];
    }
  }

  lemma LastMember(k: string, x: Value, p: string, read: map<string, Value>, rest: string)
    requires k !in read && Parse(p + (['}'] + rest)) == Some((x, ['}'] + rest))
    ensures ParseMembers(Quote(k) + ([':'] + (p + (['}'] + rest))), read) == Some((read[k := x], rest))
  {
    hide Quote, Escape, Parse;
    var t := [':'] + (p + (['}'] + rest));
    QuoteParses(k, t);
    assert t[1..] == p + (['}'] + rest);
    assert (['}'] + rest)[1..] == rest;
  }

  lemma NextMember(k: string, x: Value, p: string, tail: string, read: map<string, Value>)
    requires k !in read && Parse(p + ([','] + tail)) == Some((x, [','] + tail))
    ensures ParseMembers(Quote(k) + ([':'] + (p + ([','] + tail))), read) == ParseMembers(tail, read[k := x])
  {
    hide Quote, Escape, Parse;
    var t := [':'] + (p + ([','] + tail));
    QuoteParses(k, t);
    assert t[1..] == p + ([','] + tail);
    assert ([','] + tail)[1..] == tail;
  }

  function Pick(m: map<string, Value>, keys: seq<string>): map<string, Value>
  {
    map k | k in m && k in keys :: m[k]
  }

  lemma PrintMembersStep(v: Value, keys: seq<string>, end: string)
    requires v.Object? && keys != [] && forall k | k in keys :: k in v.members
    ensures PrintMembers(v, keys) + end == Quote(keys[0]) + ([':'] + (Print(v.members[keys[0]])
         + (if |keys| == 1 then end else [','] + (PrintMembers(v, keys[1..]) + end))))
  {
    hide Quote, Print;
  }

  lemma PickStep(m: map<string, Value>, keys: seq<string>, read: map<string, Value>)
    requires keys != [] && Distinct(keys) && forall k | k in keys :: k in m && k !in read
    ensures read + Pick(m, keys) == read[keys[0] := m[keys[0]]] + Pick(m, keys[1..])
  {
    assert keys == [keys[0]] + keys[1..];
  }

  lemma {:induction false} MembersParse(v: Value, keys: seq<string>, read: map<string, Value>, rest: string)
    requires v.Object? && WellFormed(v) && keys != [] && Distinct(keys)
    requires forall k | k in keys :: k in v.members && k !in read
    ensures ParseMembers(PrintMembers(v, keys) + (['}'] + rest), read) == Some((read + Pick(v.members, keys), rest))
    decreases v, 0, |keys|
  {
    hide Parse, ParseMembers;
    var k, x := keys[0], v.members[keys[0]];
    PrintMembersStep(v, keys, ['}'] + rest);
    PickStep(v.members, keys, read);
    if |keys| == 1 {
      PrintParses(x, ['}'] + rest);
      LastMember(k, x, Print(x), read, rest);
      assert read + Pick(v.members, keys) == read[k := x];
    } else {
      var tail := PrintMembers(v, keys[1..]) + (['}'] + rest);
      PrintParses(x, [','] + tail);
      NextMember(k, x, Print(x), tail, read);
      MembersParse(v, keys[1..], read[k := x], rest);
    }
  }

  /** Canonical JSON is uniquely decodable: parsing a printed value gives the value back with nothing
      left over, and printing that again gives the same text. */
  lemma RoundTrip(v: Value)
    requires WellFormed(v)
    ensures Parse(Print(v)) == Some((v, ""))
    ensures Print(Parse(Print(v)).value.0) == Print(v)
  {
    PrintParses(v, "");
    assert Print(v) + "" == Print(v);
  }

  /** Equal canonical text means equal values. */
  lemma PrintInjective(a: Value, b: Value)
    requires WellFormed(a) && WellFormed(b)
    ensures Print(a) == Print(b) <==> a == b
  {
    RoundTrip(a);
    RoundTrip(b);
  }

  // ---------------------------------------------------------------------------------------------
  // The printer as the program runs it

  class Buffer {
    var data: string

    constructor ()
      ensures data == ""
    {
      data := "";
    }

    method WriteByte(c: char)
      modifies this
      ensures data == old(data) + [c]
    {
      data := data + [c];
    }

    method Write(s: string)
      modifies this
      ensures data == old(data) + s
    {
      data := data + s;
    }
  }

  /** Collect the keys of an object in whatever order the map yields them, then sort them. */
  method CollectKeys(members: map<string, Value>) returns (keys: seq<string>)
    ensures keys == SortedKeys(members.Keys)
  {
    keys := [];
    var left := members.Keys;
    while left != {}
      invariant Elements(keys) + left == members.Keys && Elements(keys) !! left
      invariant Distinct(keys)
    {
      var k :| k in left;
      assert k !in keys by {
        assert k !in Elements(keys);
      }
      assert Elements(keys + [k]) == Elements(keys) + {k};
      keys, left := keys + [k], left - {k};
    }
    DistinctTextKeys(keys);
    SortByDistinct(TextKey, keys);
    keys := SortBy(TextKey, keys);
    StrictlySortedUnique(TextKey, keys, SortedKeys(members.Keys));
  }

  /** What the member loop still has to write when it is about to look at index i. */
  ghost function MembersFrom(v: Value, keys: seq<string>, i: nat): string
    requires v.Object? && (forall k | k in keys :: k in v.members) && i <= |keys|
  {
    (if 0 < i < |keys| then [','] else "") + PrintMembers(v, keys[i..])
  }

  ghost function ItemsFrom(items: seq<Value>, i: nat): string
    requires i <= |items|
  {
    (if 0 < i < |items| then [','] else "") + PrintItems(items[i..])
  }

  /** The recursive printer over a shared buffer writes exactly the canonical text. */
  method WriteCanonical(buf: Buffer, v: Value)
    modifies buf
    ensures buf.data == old(buf.data) + Print(v)
    decreases v
  {
    hide PrintMembers, PrintItems, LeafText, SortedKeys;
    ghost var start := buf.data;
    if v.Object? {
      buf.WriteByte('{');
      WriteMembers(buf, v);
      buf.WriteByte('}');
      Between(start, ['{'], PrintMembers(v, SortedKeys(v.members.Keys)), ['}']);
    } else if v.Array? {
      buf.WriteByte('[');
      WriteItems(buf, v);
      buf.WriteByte(']');
      Between(start, ['['], PrintItems(v.items), [']']);
    } else {
      buf.Write(LeafText(v));
    }
  }

  lemma Between(start: string, open: string, body: string, close: string)
    ensures start + open + body + close == start + (open + body + close)
  {
  }

  method WriteMembers(buf: Buffer, v: Value)
    requires v.Object?
    modifies buf
    ensures buf.data == old(buf.data) + PrintMembers(v, SortedKeys(v.members.Keys))
    decreases v, 0
  {
    hide PrintMembers, Print, SortedKeys, Quote, MembersFrom;
    var keys := CollectKeys(v.members);
    assert forall k | k in keys :: k in Elements(keys);
    ghost var text := buf.data + PrintMembers(v, keys);
    MembersFromEnds(v, keys);
    for i := 0 to |keys|
      invariant buf.data + MembersFrom(v, keys, i) == text
    {
      MembersFromStep(v, keys, i);
      if i > 0 {
        buf.WriteByte(',');
      }
      buf.Write(Quote(keys[i]));
      buf.WriteByte(':');
      WriteCanonical(buf, v.members[keys[i]]);
    }
  }

  method WriteItems(buf: Buffer, v: Value)
    requires v.Array?
    modifies buf
    ensures buf.data == old(buf.data) + PrintItems(v.items)
    decreases v, 0
  {
    hide PrintItems, Print, ItemsFrom;
    var items := v.items;
    ItemsFromEnds(items);
    ghost var text := buf.data + PrintItems(items);
    for i := 0 to |items|
      invariant buf.data + ItemsFrom(items, i) == text
    {
      ItemsFromStep(items, i);
      if i > 0 {
        buf.WriteByte(',');
      }
      WriteCanonical(buf, items[i]);
    }
  }

  lemma MembersFromStep(v: Value, keys: seq<string>, i: nat)
    requires v.Object? && (forall k | k in keys :: k in v.members) && i < |keys|
    ensures MembersFrom(v, keys, i) == (if i > 0 then [','] else "") + (Quote(keys[i]) + ([':']
         + (Print(v.members[keys[i]]) + MembersFrom(v, keys, i + 1))))
  {
    var rest := keys[i..];
    assert rest[0] == keys[i] && rest[1..] == keys[i + 1..];
    if i + 1 == |keys| {
      assert MembersFrom(v, keys, i + 1) == "";
    }
  }

  lemma MembersFromEnds(v: Value, keys: seq<string>)
    requires v.Object? && forall k | k in keys :: k in v.members
    ensures MembersFrom(v, keys, 0) == PrintMembers(v, keys)
    ensures MembersFrom(v, keys, |keys|) == ""
  {
    assert keys[0..] == keys && keys[|keys|..] == [];
  }

  lemma ItemsFromEnds(items: seq<Value>)
    ensures ItemsFrom(items, 0) == PrintItems(items)
    ensures ItemsFrom(items, |items|) == ""
  {
    assert items[0..] == items && items[|items|..] == [];
  }

  lemma ItemsFromStep(items: seq<Value>, i: nat)
    requires i < |items|
    ensures ItemsFrom(items, i) == (if i > 0 then [','] else "") + (Print(items[i]) + ItemsFrom(items, i + 1))
  {
    var rest := items[i..];
    assert rest[0] == items[i] && rest[1..] == items[i + 1..];
  }
}
