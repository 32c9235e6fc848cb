/**
 * `JSON.stringify` and `JSON.parse` on the JSON values the program writes
 * into its stores (SQLite text columns and `localStorage`): `null`, a string,
 * an array of strings and an object whose values are strings. Strings are
 * escaped as ECMAScript's QuoteJSONString does; the parser accepts every
 * escape of RFC 8259 section 7, and parsing what was written gives back what
 * was written.
 */
module Json {
  import opened Wrappers
  import opened JsObject
  import Text

  datatype Value = Null | Str(s: string) | StrArray(items: seq<string>) | StrObject(members: Obj<string>)

  /** A value a JavaScript program can hold: object keys are distinct. */
  predicate WellFormed(v: Value) {
    v.StrObject? ==> DistinctKeys(v.members)
  }

  // ------------------------------------------------------------- writing

  /** One character of a JSON string literal as `JSON.stringify` writes it. */
  function EscapeChar(c: char): (e: string)
    ensures 1 <= |e| && e[0] != '"'
  {
    var n := c as int;
    if c == '"' then ['\\', '"']
    else if c == '\\' then ['\\', '\\']
    else if n == 0x08 then ['\\', 'b']
    else if n == 0x09 then ['\\', 't']
    else if n == 0x0A then ['\\', 'n']
    else if n == 0x0C then ['\\', 'f']
    else if n == 0x0D then ['\\', 'r']
    else if n < 0x20 then ['\\', 'u', '0', '0', Text.HexDigit(n / 16), Text.HexDigit(n % 16)]
    else [c]
  }

  function EscapeString(s: string): string {
    if s == [] then [] else EscapeChar(s[0]) + EscapeString(s[1..])
  }

  function Quote(s: string): string {
    ['"'] + EscapeString(s) + ['"']
  }

  /** The items after the first, each preceded by a comma. */
  function ItemsTail(items: seq<string>): string {
    if items == [] then [] else [','] + Quote(items[0]) + ItemsTail(items[1..])
  }

  function Member(k: string, v: string): string {
    Quote(k) + [':'] + Quote(v)
  }

  function MembersTail(members: Obj<string>): string {
    if members == [] then [] else [','] + Member(members[0].0, members[0].1) + MembersTail(members[1..])
  }

  /** `JSON.stringify`. */
  function Stringify(v: Value): string {
    match v
    case Null => "null"
    case Str(s) => Quote(s)
    case StrArray(items) =>
      if items == [] then "[]" else ['['] + Quote(items[0]) + ItemsTail(items[1..]) + [']']
    case StrObject(m) =>
      if m == [] then "{}" else ['{'] + Member(m[0].0, m[0].1) + MembersTail(m[1..]) + ['}']
  }

  // ------------------------------------------------------------- reading

  /** The character named by four hexadecimal digits; a lone surrogate, which
      a JavaScript string can hold but a Dafny string cannot, is refused. */
  function UnicodeEscape(h: string): Option<char>
    requires |h| == 4
  {
    match (Text.HexValue(h[0]), Text.HexValue(h[1]), Text.HexValue(h[2]), Text.HexValue(h[3]))
    case (Some(a), Some(b), Some(c), Some(d)) =>
      var n := ((a * 16 + b) * 16 + c) * 16 + d;
      if 0xD800 <= n < 0xE000 then None else Some(n as char)
    case _ => None
  }

  /** One character of a string literal, and what follows it. */
  function ParseChar(t: string): (r: Option<(char, string)>)
    requires t != [] && t[0] != '"'
    ensures r.Some? ==> |r.value.1| < |t|
  {
    if t[0] == '\\' then
      if |t| < 2 then None
      else
        var e := t[1];
        if e == '"' || e == '\\' || e == '/' then Some((e, t[2..]))
        else if e == 'b' then Some((8 as char, t[2..]))
        else if e == 't' then Some((9 as char, t[2..]))
        else if e == 'n' then Some((10 as char, t[2..]))
        else if e == 'f' then Some((12 as char, t[2..]))
        else if e == 'r' then Some((13 as char, t[2..]))
        else if e == 'u' && |t| >= 6 then
          match UnicodeEscape(t[2..6])
          case None => None
          case Some(c) => Some((c, t[6..]))
        else None
    else if (t[0] as int) < 0x20 then None
    else Some((t[0], t[1..]))
  }

  /** The rest of a string literal after its opening quote: its characters,
      and what follows the closing quote. */
  function ParseStringBody(t: string): (r: Option<(string, string)>)
    ensures r.Some? ==> |r.value.1| < |t|
    decreases |t|
  {
    if t == [] then None
    else if t[0] == '"' then Some(([], t[1..]))
    else match ParseChar(t)
      case None => None
      case Some((c, more)) =>
        match ParseStringBody(more)
        case None => None
        case Some((s, rest)) => Some(([c] + s, rest))
  }

  function ParseQuoted(t: string): (r: Option<(string, string)>)
    ensures r.Some? ==> |r.value.1| < |t|
  {
    if t != [] && t[0] == '"' then ParseStringBody(t[1..]) else None
  }

  /** After the first item of an array: more items, each after a comma, up to
      the closing bracket. */
  function ParseItemsTail(t: string, acc: seq<string>): (r: Option<(seq<string>, string)>)
    ensures r.Some? ==> |r.value.1| < |t|
    decreases |t|
  {
    if t == [] then None
    else if t[0] == ']' then Some((acc, t[1..]))
    else if t[0] == ',' then
      match ParseQuoted(t[1..])
      case None => None
      case Some((s, more)) => ParseItemsTail(more, acc + [s])
    else None
  }

  function ParseMember(t: string): (r: Option<((string, string), string)>)
    ensures r.Some? ==> |r.value.1| < |t|
  {
    match ParseQuoted(t)
    case None => None
    case Some((k, more)) =>
      if more != [] && more[0] == ':' then
        match ParseQuoted(more[1..])
        case None => None
        case Some((v, rest)) => Some(((k, v), rest))
      else None
  }

  /** After the first member of an object: more members, each after a comma,
      up to the closing brace; a repeated key keeps its place and takes the
      later value, as `JSON.parse` does. */
  function ParseMembersTail(t: string, acc: Obj<string>): (r: Option<(Obj<string>, string)>)
    ensures r.Some? ==> |r.value.1| < |t|
    decreases |t|
  {
    if t == [] then None
    else if t[0] == '}' then Some((acc, t[1..]))
    else if t[0] == ',' then
      match ParseMember(t[1..])
      case None => None
      case Some((kv, more)) => ParseMembersTail(more, Set(acc, kv.0, kv.1))
    else None
  }

  /** An array of strings after its opening bracket. */
  function ParseArray(t: string): Option<(seq<string>, string)> {
    if t != [] && t[0] == ']' then Some(([], t[1..]))
    else
      match ParseQuoted(t)
      case None => None
      case Some((first, more)) => ParseItemsTail(more, [first])
  }

  /** An object of strings after its opening brace. */
  function ParseObject(t: string): Option<(Obj<string>, string)> {
    if t != [] && t[0] == '}' then Some(([], t[1..]))
    else
      match ParseMember(t)
      case None => None
      case Some((kv, more)) => ParseMembersTail(more, [kv])
  }

  function ParseValue(t: string): Option<(Value, string)> {
    if |t| >= 4 && t[..4] == "null" then Some((Null, t[4..]))
    else if t == [] then None
    else if t[0] == '"' then
      match ParseQuoted(t)
      case None => None
      case Some((s, rest)) => Some((Str(s), rest))
    else if t[0] == '[' then
      match ParseArray(t[1..])
      case None => None
      case Some((items, rest)) => Some((StrArray(items), rest))
    else if t[0] == '{' then
      match ParseObject(t[1..])
      case None => None
      case Some((m, rest)) => Some((StrObject(m), rest))
    else None
  }

  /** `JSON.parse` on the texts `Stringify` produces, which carry no
      white space between tokens: it reads them back (`ParseStringify`).
      Other texts, white space between tokens included, give `None`, so
      on text written by other programs the model is stricter than
      `JSON.parse`. */
  function Parse(t: string): Option<Value> {
    match ParseValue(t)
    case Some((v, rest)) => if rest == [] then Some(v) else None
    case None => None
  }

  // ---------------------------------------------------------- round trip

  lemma {:induction false} EscapeCharParses(c: char, more: string)
    ensures EscapeChar(c) + more != [] && (EscapeChar(c) + more)[0] != '"'
    ensures ParseChar(EscapeChar(c) + more) == Some((c, more))
  {
    var e := EscapeChar(c);
    var t := e + more;
    assert t[0] == e[0];
    var n := c as int;
    if c == '"' || c == '\\' || n == 0x08 || n == 0x09 || n == 0x0A || n == 0x0C || n == 0x0D {
      assert t[1] == e[1] && t[2..] == more;
    } else if n < 0x20 {
      assert t[1] == 'u' && t[2..6] == ['0', '0', Text.HexDigit(n / 16), Text.HexDigit(n % 16)];
      Text.HexRoundTrip(n / 16);
      Text.HexRoundTrip(n % 16);
      assert t[6..] == more;
    } else {
      assert t[1..] == more;
    }
  }

  lemma {:induction false} EscapeStringParses(s: string, rest: string)
    ensures ParseStringBody(EscapeString(s) + ['"'] + rest) == Some((s, rest))
  {
    var t := EscapeString(s) + ['"'] + rest;
    if s == [] {
      assert t == ['"'] + rest;
    } else {
      var more := EscapeString(s[1..]) + ['"'] + rest;
      assert t == EscapeChar(s[0]) + more;
      EscapeCharParses(s[0], more);
      EscapeStringParses(s[1..], rest);
      assert [s[0]] + s[1..] == s;
    }
  }

  lemma QuoteParses(s: string, rest: string)
    ensures ParseQuoted(Quote(s) + rest) == Some((s, rest))
  {
    var t := Quote(s) + rest;
    assert t[0] == '"';
    assert t[1..] == EscapeString(s) + ['"'] + rest;
    EscapeStringParses(s, rest);
  }

  lemma {:induction false} ItemsTailParses(items: seq<string>, acc: seq<string>, rest: string)
    ensures ParseItemsTail(ItemsTail(items) + [']'] + rest, acc) == Some((acc + items, rest))
  {
    var t := ItemsTail(items) + [']'] + rest;
    if items == [] {
      assert t == [']'] + rest;
      assert acc + items == acc;
    } else {
      var more := ItemsTail(items[1..]) + [']'] + rest;
      ItemsTailUnfold(items, rest);
      QuoteParses(items[0], more);
      ItemsTailStep(t, items[0], more, acc);
      ItemsTailParses(items[1..], acc + [items[0]], rest);
      assert acc + [items[0]] + items[1..] == acc + items;
    }
  }

  lemma ItemsTailUnfold(items: seq<string>, rest: string)
    requires items != []
    ensures var t := ItemsTail(items) + [']'] + rest;
      t != [] && t[0] == ',' && t[1..] == Quote(items[0]) + (ItemsTail(items[1..]) + [']'] + rest)
  {
    var q, tail := Quote(items[0]), ItemsTail(items[1..]);
    assert ItemsTail(items) == [','] + q + tail;
    CommaSplit(q, tail, [']'] + rest);
    assert ItemsTail(items) + [']'] + rest == [','] + q + tail + ([']'] + rest);
  }

  lemma CommaSplit(q: string, tail: string, rest: string)
    ensures var t := [','] + q + tail + rest; t != [] && t[0] == ',' && t[1..] == q + (tail + rest)
  {
    var t := [','] + q + tail + rest;
    assert t == [','] + (q + (tail + rest));
  }

  lemma ItemsTailStep(t: string, s: string, more: string, acc: seq<string>)
    requires t != [] && t[0] == ',' && ParseQuoted(t[1..]) == Some((s, more))
    ensures ParseItemsTail(t, acc) == ParseItemsTail(more, acc + [s])
  {
  }

  lemma MemberParses(k: string, v: string, rest: string)
    ensures ParseMember(Member(k, v) + rest) == Some(((k, v), rest))
  {
    var more := [':'] + (Quote(v) + rest);
    assert Member(k, v) + rest == Quote(k) + more;
    QuoteParses(k, more);
    QuoteParses(v, rest);
    MemberStep(Member(k, v) + rest, k, more, v, rest);
  }

  lemma MemberStep(t: string, k: string, more: string, v: string, rest: string)
    requires ParseQuoted(t) == Some((k, more))
    requires more != [] && more[0] == ':' && ParseQuoted(more[1..]) == Some((v, rest))
    ensures ParseMember(t) == Some(((k, v), rest))
  {
  }

  lemma MembersTailStep(k: string, v: string, more: string, acc: Obj<string>)
    ensures ParseMembersTail([','] + (Member(k, v) + more), acc) == ParseMembersTail(more, Set(acc, k, v))
  {
    var t := [','] + (Member(k, v) + more);
    assert t[1..] == Member(k, v) + more;
    MemberParses(k, v, more);
  }

  /** A key not among those before it is appended by `Set`. */
  lemma DistinctSplit(acc: Obj<string>, m: Obj<string>)
    requires m != [] && DistinctKeys(acc + m)
    ensures Set(acc, m[0].0, m[0].1) == acc + [m[0]]
    ensures acc + [m[0]] + m[1..] == acc + m
  {
    assert m[0].0 !in Keys(acc) by {
      forall j | 0 <= j < |acc| ensures acc[j].0 != m[0].0 {
        assert (acc + m)[j] == acc[j] && (acc + m)[|acc|] == m[0];
      }
    }
    assert acc + [m[0]] + m[1..] == acc + m;
  }

  lemma {:induction false} MembersTailParses(m: Obj<string>, acc: Obj<string>, rest: string)
    requires DistinctKeys(acc + m)
    ensures ParseMembersTail(MembersTail(m) + ['}'] + rest, acc) == Some((acc + m, rest))
  {
    var t := MembersTail(m) + ['}'] + rest;
    if m == [] {
      assert t == ['}'] + rest;
      assert acc + m == acc;
    } else {
      var more := MembersTail(m[1..]) + ['}'] + rest;
      assert t == [','] + (Member(m[0].0, m[0].1) + more);
      MembersTailStep(m[0].0, m[0].1, more, acc);
      DistinctSplit(acc, m);
      MembersTailParses(m[1..], acc + [m[0]], rest);
    }
  }

  lemma ArrayParses(items: seq<string>)
    requires items != []
    ensures ParseArray(Quote(items[0]) + ItemsTail(items[1..]) + [']']) == Some((items, []))
  {
    var more := ItemsTail(items[1..]) + [']'];
    assert Quote(items[0]) + ItemsTail(items[1..]) + [']'] == Quote(items[0]) + more;
    QuoteParses(items[0], more);
    assert more == ItemsTail(items[1..]) + [']'] + [];
    ItemsTailParses(items[1..], [items[0]], []);
    assert [items[0]] + items[1..] == items;
  }

  lemma ObjectParses(m: Obj<string>)
    requires m != [] && DistinctKeys(m)
    ensures ParseObject(Member(m[0].0, m[0].1) + MembersTail(m[1..]) + ['}']) == Some((m, []))
  {
    var more := MembersTail(m[1..]) + ['}'];
    assert Member(m[0].0, m[0].1) + MembersTail(m[1..]) + ['}'] == Member(m[0].0, m[0].1) + more;
    MemberParses(m[0].0, m[0].1, more);
    assert [m[0]] + m[1..] == m;
    assert more == MembersTail(m[1..]) + ['}'] + [];
    MembersTailParses(m[1..], [m[0]], []);
  }

  lemma NullParses()
    ensures Parse(Stringify(Null)) == Some(Null)
  {
    var t := Stringify(Null);
    assert t[..4] == "null" && t[4..] == [];
  }

  lemma StrParses(s: string)
    ensures Parse(Stringify(Str(s))) == Some(Str(s))
  {
    var t := Stringify(Str(s));
    assert t == Quote(s) + [];
    QuoteParses(s, []);
    assert !(|t| >= 4 && t[..4] == "null") by {
      if |t| >= 4 { assert t[..4][0] == t[0]; }
    }
  }

  lemma ArrayValueParses(items: seq<string>)
    ensures Parse(Stringify(StrArray(items))) == Some(StrArray(items))
  {
    var inner := if items == [] then [']'] else Quote(items[0]) + ItemsTail(items[1..]) + [']'];
    assert Stringify(StrArray(items)) == ['['] + inner;
    if items != [] {
      ArrayParses(items);
    } else {
      assert inner[1..] == [];
    }
    BracketedParses(inner, StrArray(items));
  }

  lemma ObjectValueParses(m: Obj<string>)
    requires DistinctKeys(m)
    ensures Parse(Stringify(StrObject(m))) == Some(StrObject(m))
  {
    var inner := if m == [] then ['}'] else Member(m[0].0, m[0].1) + MembersTail(m[1..]) + ['}'];
    assert Stringify(StrObject(m)) == ['{'] + inner;
    if m != [] {
      ObjectParses(m);
    } else {
      assert inner[1..] == [];
    }
    BracketedParses(inner, StrObject(m));
  }

  /** An array or an object whose inside parses to the end is parsed whole. */
  lemma BracketedParses(inner: string, v: Value)
    requires v.StrArray? ==> ParseArray(inner) == Some((v.items, []))
    requires v.StrObject? ==> ParseObject(inner) == Some((v.members, []))
    requires v.StrArray? || v.StrObject?
    ensures Parse([if v.StrArray? then '[' else '{'] + inner) == Some(v)
  {
    var t := [if v.StrArray? then '[' else '{'] + inner;
    assert t[1..] == inner;
    assert !(|t| >= 4 && t[..4] == "null") by {
      if |t| >= 4 { assert t[..4][0] == t[0]; }
    }
  }

  /** Parsing what `Stringify` wrote gives back the value. */
  lemma ParseStringify(v: Value)
    requires WellFormed(v)
    ensures Parse(Stringify(v)) == Some(v)
  {
    match v
    case Null => NullParses();
    case Str(s) => StrParses(s);
    case StrArray(items) => ArrayValueParses(items);
    case StrObject(m) => ObjectValueParses(m);
  }

  /** JavaScript truth of a parsed value: `null` and the empty string are
      falsy, every array and object is truthy. */
  predicate Truthy(v: Value) {
    match v
    case Null => false
    case Str(s) => s != ""
    case _ => true
  }
}
