/**
 * The string operations of JavaScript that the modelled code relies on:
 * `\s` and `trim`, substring search, `split`/`join`, ASCII case folding as a
 * case-insensitive regular expression applies it to an ASCII pattern, and
 * the decimal rendering of a non-negative integer (`${n}`).
 */
module Text {
  import opened Wrappers

  /** JavaScript's WhiteSpace and LineTerminator characters: what `\s` in a
      regular expression and `String.prototype.trim` treat as space. */
  predicate IsSpace(c: char) {
    var n := c as int;
    n == 0x09 || n == 0x0A || n == 0x0B || n == 0x0C || n == 0x0D || n == 0x20 || n == 0xA0
    || n == 0x1680 || (0x2000 <= n <= 0x200A) || n == 0x2028 || n == 0x2029
    || n == 0x202F || n == 0x205F || n == 0x3000 || n == 0xFEFF
  }

  predicate IsAsciiLetter(c: char) {
    'A' <= c <= 'Z' || 'a' <= c <= 'z'
  }

  predicate IsDigit(c: char) {
    '0' <= c <= '9'
  }

  /** ASCII upper-casing: a case-insensitive regular expression with an ASCII
      pattern matches exactly the characters this maps onto the pattern. */
  function Upper(c: char): char {
    if 'a' <= c <= 'z' then (c as int - 32) as char else c
  }

  function UpperAll(s: string): (u: string)
    ensures |u| == |s|
    ensures forall i :: 0 <= i < |s| ==> u[i] == Upper(s[i])
  {
    seq(|s|, i requires 0 <= i < |s| => Upper(s[i]))
  }

  // ---------------------------------------------------------------- trim

  function TrimStart(s: string): (r: string)
    ensures |r| <= |s| && r == s[|s| - |r|..]
    ensures r == [] || !IsSpace(r[0])
    ensures forall i :: 0 <= i < |s| - |r| ==> IsSpace(s[i])
  {
    if s != [] && IsSpace(s[0]) then TrimStart(s[1..]) else s
  }

  function TrimEnd(s: string): (r: string)
    ensures |r| <= |s| && r == s[..|r|]
    ensures r == [] || !IsSpace(r[|r| - 1])
    ensures forall i :: |r| <= i < |s| ==> IsSpace(s[i])
  {
    if s != [] && IsSpace(s[|s| - 1]) then TrimEnd(s[..|s| - 1]) else s
  }

  /** `String.prototype.trim`. */
  function Trim(s: string): (r: string)
    ensures r == [] || (!IsSpace(r[0]) && !IsSpace(r[|r| - 1]))
    ensures |r| <= |s|
  {
    TrimEnd(TrimStart(s))
  }

  /** A string whose ends are not space is its own trim. */
  lemma TrimNoop(s: string)
    requires s == [] || (!IsSpace(s[0]) && !IsSpace(s[|s| - 1]))
    ensures Trim(s) == s
  {
  }

  // ---------------------------------------------------- substring search

  predicate OccursAt(p: string, s: string, i: nat) {
    i + |p| <= |s| && s[i..i + |p|] == p
  }

  /** `s.includes(p)`. */
  predicate Contains(s: string, p: string) {
    exists i: nat | i <= |s| :: OccursAt(p, s, i)
  }

  /** The first occurrence of `p` in `s` at or after `from`. */
  function IndexOfFrom(s: string, p: string, from: nat): (r: Option<nat>)
    ensures r.Some? ==> from <= r.value && OccursAt(p, s, r.value)
    ensures r.Some? ==> forall k: nat :: from <= k < r.value ==> !OccursAt(p, s, k)
    ensures r.None? ==> forall k: nat :: from <= k ==> !OccursAt(p, s, k)
    decreases |s| - from
  {
    if from + |p| > |s| then None
    else if OccursAt(p, s, from) then Some(from)
    else IndexOfFrom(s, p, from + 1)
  }

  /** `s.indexOf(p)`, with `None` for -1. */
  function IndexOf(s: string, p: string): (r: Option<nat>)
    ensures r.Some? <==> Contains(s, p)
    ensures r.Some? ==> OccursAt(p, s, r.value)
    ensures r.Some? ==> forall k: nat :: k < r.value ==> !OccursAt(p, s, k)
  {
    IndexOfFrom(s, p, 0)
  }

  /** An ASCII-case-insensitive search for an upper-case ASCII pattern. */
  predicate ContainsIgnoringCase(s: string, upperPattern: string) {
    Contains(UpperAll(s), upperPattern)
  }

  // -------------------------------------------------------- split / join

  /** `s.split(sep)` for a non-empty separator: the pieces between the
      non-overlapping occurrences found scanning from the left. */
  function Split(s: string, sep: string): (parts: seq<string>)
    requires sep != []
    ensures |parts| >= 1
    decreases |s|
  {
    match IndexOf(s, sep)
    case None => [s]
    case Some(i) => [s[..i]] + Split(s[i + |sep|..], sep)
  }

  /** `parts.join(sep)`. */
  function Join(parts: seq<string>, sep: string): string {
    if parts == [] then []
    else if |parts| == 1 then parts[0]
    else parts[0] + sep + Join(parts[1..], sep)
  }

  /** Joining the pieces with the separator gives back the string. */
  lemma {:induction false} JoinSplit(s: string, sep: string)
    requires sep != []
    ensures Join(Split(s, sep), sep) == s
    decreases |s|
  {
    var idx := IndexOf(s, sep);
    if idx.Some? {
      var i := idx.value;
      var head, rest := s[..i], s[i + |sep|..];
      JoinSplit(rest, sep);
      var tail := Split(rest, sep);
      assert Split(s, sep) == [head] + tail;
      JoinCons(head, tail, sep);
      assert Join(Split(s, sep), sep) == head + sep + rest;
      SplitAround(s, sep, i);
    }
  }

  lemma SplitAround(s: string, sep: string, i: nat)
    requires OccursAt(sep, s, i)
    ensures s == s[..i] + sep + s[i + |sep|..]
  {
    assert s == s[..i] + s[i..i + |sep|] + s[i + |sep|..];
  }

  lemma JoinCons(head: string, tail: seq<string>, sep: string)
    requires tail != []
    ensures Join([head] + tail, sep) == head + sep + Join(tail, sep)
  {
    assert ([head] + tail)[1..] == tail;
  }

  /** No piece of a split contains the separator. */
  lemma {:induction false} SplitPiecesLackSeparator(s: string, sep: string)
    requires sep != []
    ensures forall k :: 0 <= k < |Split(s, sep)| ==> !Contains(Split(s, sep)[k], sep)
    decreases |s|
  {
    match IndexOf(s, sep)
    case None =>
    case Some(i) =>
      var rest := s[i + |sep|..];
      SplitPiecesLackSeparator(rest, sep);
      var head := s[..i];
      forall j: nat | OccursAt(sep, head, j)
        ensures false
      {
        assert head[j..j + |sep|] == s[j..j + |sep|];
        assert OccursAt(sep, s, j);
      }
      assert !Contains(head, sep);
      assert Split(s, sep) == [head] + Split(rest, sep);
  }

  /** The first piece is everything before the first occurrence, or all of
      `s` when there is none. */
  lemma SplitFirstPiece(s: string, sep: string)
    requires sep != []
    ensures IndexOf(s, sep).None? ==> Split(s, sep) == [s]
    ensures IndexOf(s, sep).Some? ==> Split(s, sep)[0] == s[..IndexOf(s, sep).value]
  {
  }

  /** A piece without the separator character, then the separator, splits
      off as the first piece. */
  lemma SplitCharPiece(a: string, c: char, rest: string)
    requires c !in a
    ensures Split(a + [c] + rest, [c]) == [a] + Split(rest, [c])
  {
    var s := a + [c] + rest;
    forall k: nat | k < |a| ensures !OccursAt([c], s, k) {
      assert s[k..k + 1] == [a[k]];
    }
    SplitPiece(a, [c], rest);
  }

  /** A piece in which the separator does not start, then the separator,
      splits off as the first piece. */
  lemma SplitPiece(a: string, sep: string, rest: string)
    requires sep != []
    requires forall k: nat :: k < |a| ==> !OccursAt(sep, a + sep + rest, k)
    ensures Split(a + sep + rest, sep) == [a] + Split(rest, sep)
  {
    var s := a + sep + rest;
    assert OccursAt(sep, s, |a|) by { assert s[|a|..|a| + |sep|] == sep; }
    assert IndexOf(s, sep) == Some(|a|);
    assert s[..|a|] == a && s[|a| + |sep|..] == rest;
  }

  /** A string without the separator character splits into itself. */
  lemma SplitCharNone(a: string, c: char)
    requires c !in a
    ensures Split(a, [c]) == [a]
  {
    assert !Contains(a, [c]) by {
      forall k: nat | k < |a| ensures !OccursAt([c], a, k) {
        assert a[k..k + 1] == [a[k]];
      }
    }
  }

  /** Splitting on a one-character separator gives one piece more than the
      separator has occurrences. */
  lemma {:induction false} SplitCharCount(s: string, c: char)
    ensures |Split(s, [c])| == multiset(s)[c] + 1
    decreases |s|
  {
    match IndexOf(s, [c])
    case None =>
      forall k | 0 <= k < |s| ensures s[k] != c {
        assert !OccursAt([c], s, k) && s[k..k + 1] == [s[k]];
      }
      assert c !in s;
    case Some(i) =>
      var rest := s[i + 1..];
      SplitCharCount(rest, c);
      forall k | 0 <= k < i ensures s[k] != c {
        assert !OccursAt([c], s, k) && s[k..k + 1] == [s[k]];
      }
      assert c !in s[..i];
      assert s[i..i + 1] == [c];
      assert s == s[..i] + [c] + rest;
      assert multiset(s) == multiset(s[..i]) + multiset{c} + multiset(rest);
  }

  // ------------------------------------------------------------ decimals

  function DigitChar(d: nat): (c: char)
    requires d < 10
    ensures IsDigit(c)
  {
    ('0' as int + d) as char
  }

  function DigitValue(c: char): nat
    requires IsDigit(c)
  {
    c as int - '0' as int
  }

  predicate AllDigits(s: string) {
    forall i :: 0 <= i < |s| ==> IsDigit(s[i])
  }

  /** `${n}` for a non-negative integer: its shortest decimal numeral. */
  function NatToString(n: nat): (s: string)
    ensures 1 <= |s| && AllDigits(s)
    ensures n < 10 <==> |s| == 1
    ensures n < 100 ==> |s| <= 2
    ensures |s| > 1 ==> s[0] != '0'
  {
    if n < 10 then [DigitChar(n)] else NatToString(n / 10) + [DigitChar(n % 10)]
  }

  /** A lower-case hexadecimal digit, as `Number.prototype.toString(16)`
      writes it. */
  function HexDigit(d: nat): (c: char)
    requires d < 16
    ensures IsDigit(c) || 'a' <= c <= 'f'
  {
    if d < 10 then ('0' as int + d) as char else ('a' as int + d - 10) as char
  }

  /** The value of a hexadecimal digit in either case. */
  function HexValue(c: char): (r: Option<nat>)
    ensures r.Some? ==> r.value < 16
  {
    if '0' <= c <= '9' then Some(c as int - '0' as int)
    else if 'a' <= c <= 'f' then Some(c as int - 'a' as int + 10)
    else if 'A' <= c <= 'F' then Some(c as int - 'A' as int + 10)
    else None
  }

  lemma HexRoundTrip(d: nat)
    requires d < 16
    ensures HexValue(HexDigit(d)) == Some(d)
  {
  }

  /** The value of a string of decimal digits. */
  function DigitsValue(s: string): nat
    requires AllDigits(s)
  {
    if s == [] then 0 else DigitsValue(s[..|s| - 1]) * 10 + DigitValue(s[|s| - 1])
  }

  /** Reading back the numeral of `n` gives `n`. */
  lemma {:induction false} NatToStringValue(n: nat)
    ensures DigitsValue(NatToString(n)) == n
  {
    if n >= 10 {
      NatToStringValue(n / 10);
      var s := NatToString(n);
      assert s[..|s| - 1] == NatToString(n / 10);
    }
  }
}
