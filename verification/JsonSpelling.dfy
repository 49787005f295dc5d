/** What canonical JSON looks like, character by character. Section numbers are those of RFC 8259. */
module JsonSpelling {
  import opened Options
  import opened Lists
  import opened SetText
  import opened CanonicalJson

  // ---------------------------------------------------------------------------------------------
  // Texts (section 7)

  /** What stands between the quotes of a printed text. */
  ghost function Spelled(s: string): string
  {
    var printed := Print(Text(s));
    if |printed| >= 2 then printed[1..|printed| - 1] else ""
  }

  /** A character that is written as it is: no quote, no backslash, no control character, no line separator. */
  predicate Plain(c: char)
  {
    c != '"' && c != '\\' && c >= ' ' && c != '\U{2028}' && c != '\U{2029}'
  }

  /** A printed text stands between quotes, and its spelling is that of its characters in a row. */
  lemma {:induction false} TextPrints(s: string)
    ensures Print(Text(s)) == ['"'] + Spelled(s) + ['"']
    ensures Spelled("") == ""
    ensures s != "" ==> Spelled(s) == Spelled([s[0]]) + Spelled(s[1..])
  {
    hide EscapeChar;
    assert Print(Text(s)) == ['"'] + Escape(s) + ['"'];
    assert Spelled(s) == Escape(s);
    if s != "" {
      var first, rest := [s[0]], s[1..];
      assert Spelled(rest) == Escape(rest);
      assert first[1..] == "";
      assert Escape(first) == EscapeChar(s[0]) + "";
      assert Spelled(first) == Escape(first);
    }
  }

  /** The characters that are not written as they are: a backslash and a letter for seven, a backslash, `u` and
      four digits, in lower case, for the other control characters and the two line separators. */
  lemma SpecialCharacters(c: char)
    ensures Spelled(['"']) == ['\\', '"'] && Spelled(['\\']) == ['\\', '\\']
    ensures Spelled(['\U{08}']) == ['\\', 'b'] && Spelled(['\U{0C}']) == ['\\', 'f']
    ensures Spelled(['\U{0A}']) == ['\\', 'n'] && Spelled(['\U{0D}']) == ['\\', 'r']
    ensures Spelled(['\U{09}']) == ['\\', 't']
    ensures Spelled(['\U{2028}']) == ['\\', 'u', '2', '0', '2', '8']
    ensures Spelled(['\U{2029}']) == ['\\', 'u', '2', '0', '2', '9']
    ensures c < ' ' && c !in ['\U{08}', '\U{09}', '\U{0A}', '\U{0C}', '\U{0D}'] ==>
              var low := c as int % 16;
              Spelled([c]) == ['\\', 'u', '0', '0', if c as int < 16 then '0' else '1',
                               if low < 10 then '0' + low as char else 'a' + (low - 10) as char]
    ensures Plain(c) ==> Spelled([c]) == [c]
  {
    One('"');
    One('\\');
    One('\U{08}');
    One('\U{0C}');
    One('\U{0A}');
    One('\U{0D}');
    One('\U{09}');
    One('\U{2028}');
    One('\U{2029}');
    One(c);
    hide Spelled, Print;
    if c < ' ' {
      HexInLowerCase(c as int % 16);
    }
  }

  lemma One(c: char)
    ensures Spelled([c]) == EscapeChar(c)
  {
    hide EscapeChar;
    assert [c][1..] == "";
    assert Escape([c]) == EscapeChar(c) + "";
    QuotedText([c]);
  }

  lemma HexInLowerCase(n: nat)
    requires n < 16
    ensures HEX[n] == if n < 10 then '0' + n as char else 'a' + (n - 10) as char
  {
  }

  /** A text without special characters prints as itself between two quotes. */
  lemma {:induction false} PlainTextPrints(s: string)
    requires forall c | c in s :: Plain(c)
    ensures Print(Text(s)) == ['"'] + s + ['"']
  {
    hide Spelled, Print, Plain;
    TextPrints(s);
    if s != "" {
      assert s[0] in s;
      SpecialCharacters(s[0]);
      PlainTextPrints(s[1..]);
      TextPrints(s[1..]);
      Unquote(Spelled(s[1..]), s[1..]);
      assert s == [s[0]] + s[1..];
    }
  }

  lemma Unquote(a: string, b: string)
    requires ['"'] + a + ['"'] == ['"'] + b + ['"']
    ensures a == b
  {
    assert (['"'] + a + ['"'])[1..|a| + 1] == a;
    assert |a| == |b| && (['"'] + b + ['"'])[1..|b| + 1] == b;
  }

  // ---------------------------------------------------------------------------------------------
  // Values (section 3), arrays (section 5) and objects (section 4)

  /** Literals are spelled out, and a number as it was written. */
  lemma LeavesPrint(literal: string)
    ensures Print(Null) == "null" && Print(Bool(true)) == "true" && Print(Bool(false)) == "false"
    ensures Print(Number(literal)) == literal
  {
  }

  /** An array is its items in brackets, with single commas and no space between them. */
  lemma {:induction false} ArrayPrints(items: seq<Value>)
    ensures Print(Array(items)) == ['['] + Join(Map(Print, items), ",") + [']']
  {
    ItemsJoin(items);
  }

  lemma {:induction false} ItemsJoin(items: seq<Value>)
    ensures PrintItems(items) == Join(Map(Print, items), ",")
  {
    hide Print;
    if items != [] {
      ItemsJoin(items[1..]);
      assert Map(Print, items)[1..] == Map(Print, items[1..]);
    }
  }

  /** A member as it is printed. */
  ghost function Entry(members: map<string, Value>, key: string): string
    requires key in members
  {
    Print(Text(key)) + ":" + Print(members[key])
  }

  ghost function Entries(members: map<string, Value>, keys: seq<string>): seq<string>
    requires forall k | k in keys :: k in members
  {
    seq(|keys|, i requires 0 <= i < |keys| => Entry(members, keys[i]))
  }

  /** An object is its members in braces, keys strictly increasing, each key a colon and its value, with single
      commas and no space between them. */
  lemma ObjectPrints(members: map<string, Value>) returns (keys: seq<string>)
    ensures StrictlySorted(TextKey, keys) && Elements(keys) == members.Keys
    ensures forall k | k in keys :: k in members
    ensures Print(Object(members)) == ['{'] + Join(Entries(members, keys), ",") + ['}']
  {
    keys := SortedKeys(members.Keys);
    assert forall k | k in keys :: k in Elements(keys);
    MembersJoin(members, keys);
  }

  lemma {:induction false} MembersJoin(members: map<string, Value>, keys: seq<string>)
    requires forall k | k in keys :: k in members
    ensures PrintMembers(Object(members), keys) == Join(Entries(members, keys), ",")
  {
    hide Print;
    if keys != [] {
      MembersJoin(members, keys[1..]);
      assert Entries(members, keys)[1..] == Entries(members, keys[1..]);
      assert Print(Text(keys[0])) == Quote(keys[0]) by {
        QuotedText(keys[0]);
      }
    }
  }

  lemma QuotedText(s: string)
    ensures Print(Text(s)) == Quote(s)
  {
  }

  // ---------------------------------------------------------------------------------------------
  // Numbers (section 6)

  predicate Digits(s: string)
  {
    s != "" && forall c | c in s :: '0' <= c <= '9'
  }

  predicate IntPart(s: string)
  {
    Digits(s) && (s == "0" || s[0] != '0')
  }

  predicate FracPart(s: string)
  {
    s == "" || (s[0] == '.' && Digits(s[1..]))
  }

  predicate ExpPart(s: string)
  {
    s == "" || ((s[0] == 'e' || s[0] == 'E')
                && (Digits(s[1..]) || (|s| > 1 && (s[1] == '+' || s[1] == '-') && Digits(s[2..]))))
  }

  /** An optional minus, an integer, an optional fraction and an optional exponent, one after the other. */
  predicate Parts(s: string, minus: string, whole: string, frac: string, exp: string)
  {
    && (minus == "" || minus == "-") && IntPart(whole) && FracPart(frac) && ExpPart(exp)
    && s == minus + (whole + (frac + exp))
  }

  lemma {:induction false} RunOfDigits(d: string, rest: string)
    requires (forall c | c in d :: '0' <= c <= '9') && (rest != "" ==> !('0' <= rest[0] <= '9'))
    ensures DigitRun(d + rest) == |d|
  {
    if d == "" {
      assert d + rest == rest;
    } else {
      assert d[0] in d && (d + rest)[1..] == d[1..] + rest;
      assert forall c | c in d[1..] :: c in d;
      RunOfDigits(d[1..], rest);
    }
  }

  lemma {:induction false} RunIsDigits(s: string)
    ensures forall c | c in s[..DigitRun(s)] :: '0' <= c <= '9'
    ensures s[DigitRun(s)..] != "" ==> !('0' <= s[DigitRun(s)..][0] <= '9')
  {
    if s != "" && '0' <= s[0] <= '9' {
      RunIsDigits(s[1..]);
      assert s[..DigitRun(s)] == [s[0]] + s[1..][..DigitRun(s[1..])];
      assert s[DigitRun(s)..] == s[1..][DigitRun(s[1..])..];
    }
  }

  lemma IntegerFirst(whole: string, rest: string)
    requires IntPart(whole) && (rest != "" ==> !('0' <= rest[0] <= '9'))
    ensures AfterInteger(whole + rest) == Some(rest)
  {
    RunOfDigits(whole, rest);
    assert whole[0] in whole && (whole + rest)[|whole|..] == rest;
    assert whole == "0" ==> (whole + rest)[1..] == rest;
  }

  lemma FractionFirst(frac: string, rest: string)
    requires FracPart(frac) && (rest != "" ==> !('0' <= rest[0] <= '9') && rest[0] != '.')
    ensures AfterFraction(frac + rest) == Some(rest)
  {
    if frac == "" {
      assert frac + rest == rest;
    } else {
      var d := frac[1..];
      assert (frac + rest)[1..] == d + rest && (d + rest)[|d|..] == rest;
      RunOfDigits(d, rest);
    }
  }

  lemma ExponentFirst(exp: string)
    requires ExpPart(exp)
    ensures AfterExponent(exp) == Some("")
  {
    if exp != "" {
      var t := if |exp| > 1 && (exp[1] == '+' || exp[1] == '-') then exp[2..] else exp[1..];
      if |exp| > 1 && (exp[1] == '+' || exp[1] == '-') {
        assert exp[1] in exp[1..];
      }
      RunOfDigits(t, "");
      assert t + "" == t && t[|t|..] == "";
    }
  }

  lemma PartsAreNumber(s: string, minus: string, whole: string, frac: string, exp: string)
    requires Parts(s, minus, whole, frac, exp)
    ensures IsNumber(s)
  {
    var rest := frac + exp;
    var unsigned := whole + rest;
    assert whole[0] in whole && s == minus + unsigned;
    assert minus == "-" ==> s[1..] == unsigned;
    assert minus == "" ==> s == unsigned;
    hide AfterInteger, AfterFraction, AfterExponent;
    IntegerFirst(whole, rest);
    FractionFirst(frac, exp);
    ExponentFirst(exp);
  }

  lemma IntegerTaken(s: string) returns (whole: string, rest: string)
    requires AfterInteger(s).Some?
    ensures IntPart(whole) && s == whole + rest && AfterInteger(s) == Some(rest)
  {
    var n := if s[0] == '0' then 1 else DigitRun(s);
    RunIsDigits(s);
    whole, rest := s[..n], s[n..];
    assert s[..1] == [s[0]];
  }

  lemma FractionTaken(s: string) returns (frac: string, rest: string)
    requires AfterFraction(s).Some?
    ensures FracPart(frac) && s == frac + rest && AfterFraction(s) == Some(rest)
  {
    if s == "" || s[0] != '.' {
      frac, rest := "", s;
    } else {
      var n := 1 + DigitRun(s[1..]);
      RunIsDigits(s[1..]);
      frac, rest := s[..n], s[n..];
      assert frac[1..] == s[1..][..n - 1] && rest == s[1..][n - 1..];
    }
  }

  lemma ExponentTaken(s: string)
    requires AfterExponent(s) == Some("")
    ensures ExpPart(s)
  {
    if s != "" && s[0] in "eE" {
      var t := if |s| > 1 && s[1] in "+-" then s[2..] else s[1..];
      RunIsDigits(t);
      assert t[..DigitRun(t)] == t;
    }
  }

  /** A literal is a number exactly when it is made of those parts. */
  lemma NumberGrammar(s: string)
    ensures IsNumber(s) <==> exists minus, whole, frac, exp :: Parts(s, minus, whole, frac, exp)
  {
    if minus, whole, frac, exp :| Parts(s, minus, whole, frac, exp) {
      PartsAreNumber(s, minus, whole, frac, exp);
    }
    if IsNumber(s) {
      var minus := if s != "" && s[0] == '-' then "-" else "";
      var unsigned := if s != "" && s[0] == '-' then s[1..] else s;
      hide AfterInteger, AfterFraction, AfterExponent, IntPart, FracPart, ExpPart;
      var whole, rest := IntegerTaken(unsigned);
      var frac, exp := FractionTaken(rest);
      ExponentTaken(exp);
      assert s == minus + unsigned;
      assert Parts(s, minus, whole, frac, exp);
    }
  }
}
