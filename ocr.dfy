/**
 * The field extractors that read a scanned student identity card: the text
 * the OCR engine recognised goes in, the holder's name, person ID and date
 * of birth come out, or "Not Found" for each field the text does not show.
 */
module Ocr {
  import opened Wrappers
  import opened Text
  import Lists

  const NotFound := "Not Found"

  // --------------------------------------------------------------- name

  /** The card's title lines, skipped before the name. */
  predicate IsHeader(line: string) {
    ContainsIgnoringCase(line, "UNDERGRADUATE") || ContainsIgnoringCase(line, "STUDENT IDENTITY CARD")
  }

  /** The first field label after the name: reading stops here. */
  predicate IsStop(line: string) {
    ContainsIgnoringCase(line, "PERSON ID") || ContainsIgnoringCase(line, "DOB")
    || ContainsIgnoringCase(line, "ISSUE NO") || ContainsIgnoringCase(line, "EXPIRES")
  }

  /** A line that can be part of the name: letters and spaces only, and not
      the university's name in capitals. */
  predicate IsNameLine(line: string) {
    line != [] && (forall i :: 0 <= i < |line| ==> IsAsciiLetter(line[i]) || IsSpace(line[i]))
    && !Contains(line, "UNIVERSITY")
  }

  predicate NonEmpty(line: string) {
    line != []
  }

  /** A trimmed, non-empty line. */
  predicate Trimmed(line: string) {
    line != [] && !IsSpace(line[0]) && !IsSpace(line[|line| - 1])
  }

  /** The text's lines, trimmed, without the empty ones. */
  function Lines(text: string): (lines: seq<string>)
    ensures forall i :: 0 <= i < |lines| ==> Trimmed(lines[i])
  {
    Lists.Filter(Lists.Map(Split(text, "\n"), Trim), NonEmpty)
  }

  /** What the name scan does with a line, tests in the order the scan
      makes them. */
  datatype LineKind = Header | Stop | Name | Other

  function Classify(line: string): LineKind {
    if IsHeader(line) then Header
    else if IsStop(line) then Stop
    else if IsNameLine(line) then Name
    else Other
  }

  /** The lines that make up the name: after skipping title lines, every
      name line before the first field label, in order. */
  function NameLines(lines: seq<string>): (r: seq<string>)
    ensures |r| <= |lines|
    ensures forall i :: 0 <= i < |r| ==> r[i] in lines && Classify(r[i]) == Name
  {
    if lines == [] then []
    else match Classify(lines[0])
      case Header => NameLines(lines[1..])
      case Stop => []
      case Name => [lines[0]] + NameLines(lines[1..])
      case Other => NameLines(lines[1..])
  }

  predicate IsNameKind(line: string) {
    Classify(line) == Name
  }

  /** The name is made of exactly the lines before the first field label
      (one that is not also a title line) that classify as name lines, in
      their order on the card. */
  lemma {:induction false} NameLinesBeforeStop(lines: seq<string>, k: nat)
    requires k <= |lines|
    requires forall i :: 0 <= i < k ==> Classify(lines[i]) != Stop
    requires k == |lines| || Classify(lines[k]) == Stop
    ensures NameLines(lines) == Lists.Filter(lines[..k], IsNameKind)
  {
    if lines == [] {
    } else if k == 0 {
      assert lines[..0] == [];
    } else {
      NameLinesBeforeStop(lines[1..], k - 1);
      assert lines[..k][0] == lines[0];
      assert lines[..k][1..] == lines[1..][..k - 1];
    }
  }

  predicate NotAmpOrSlash(c: char) {
    c != '&' && c != '/'
  }

  /** `replace(/\s+/g, " ")` from a point where the character before was
      (`afterSpace`) or was not a space: each run of space becomes one
      ordinary space. */
  function CollapseFrom(s: string, afterSpace: bool): (r: string)
    ensures !afterSpace && s != [] ==> r != []
    ensures afterSpace ==> r == [] || r[0] != ' '
    ensures (forall i :: 0 <= i < |s| ==> LetterOrSpace(s[i])) ==>
      forall i :: 0 <= i < |r| ==> IsAsciiLetter(r[i]) || r[i] == ' '
    ensures forall i :: 0 <= i < |r| - 1 ==> r[i] == ' ' ==> r[i + 1] != ' '
    ensures s != [] && !IsSpace(s[0]) ==> r != [] && r[0] == s[0]
    ensures s != [] && !IsSpace(s[|s| - 1]) ==> r != [] && r[|r| - 1] == s[|s| - 1]
  {
    if s == [] then []
    else
      var rest := CollapseFrom(s[1..], IsSpace(s[0]));
      var head := if !IsSpace(s[0]) then [s[0]] else if afterSpace then [] else [' '];
      assert forall i :: |head| <= i < |head| + |rest| ==> (head + rest)[i] == rest[i - |head|];
      head + rest
  }

  function CollapseSpaces(s: string): string {
    CollapseFrom(s, false)
  }

  /** The name from its lines: joined by spaces, trimmed, `&` and `/`
      removed, spaces collapsed; "Not Found" when nothing is left. */
  function NameFrom(nameLines: seq<string>): string {
    var full := CollapseSpaces(Lists.Filter(Trim(Join(nameLines, " ")), NotAmpOrSlash));
    if full == [] then NotFound else full
  }

  /** The scan of `extractName` over the lines: title lines are skipped,
      name lines are collected, and the first field label ends the scan. */
  method ScanNameLines(lines: seq<string>) returns (nameLines: seq<string>)
    ensures nameLines == NameLines(lines)
  {
    nameLines := [];
    var i := 0;
    while i < |lines|
      invariant 0 <= i <= |lines|
      invariant nameLines + NameLines(lines[i..]) == NameLines(lines)
    {
      var line := lines[i];
      var kind := Classify(line);
      NameLinesAt(lines, i);
      if kind == Header {
        i := i + 1;
        continue;
      }
      if kind == Stop {
        assert nameLines == NameLines(lines);
        break;
      }
      if kind == Name {
        assert nameLines + [line] + NameLines(lines[i + 1..]) == nameLines + ([line] + NameLines(lines[i + 1..]));
        nameLines := nameLines + [line];
      }
      i := i + 1;
    }
    assert i == |lines| ==> lines[i..] == [];
  }

  /** `extractName`. */
  method ExtractName(text: string) returns (name: string)
    ensures name == NameFrom(NameLines(Lines(text)))
    ensures name == NotFound || WellFormedName(name)
  {
    var nameLines := ScanNameLines(Lines(text));
    name := NameFrom(nameLines);
    ExtractedNameShape(text);
  }

  /** How `NameLines` treats the line at `i`. */
  lemma NameLinesAt(lines: seq<string>, i: nat)
    requires i < |lines|
    ensures NameLines(lines[i..]) ==
      match Classify(lines[i])
      case Header => NameLines(lines[i + 1..])
      case Stop => []
      case Name => [lines[i]] + NameLines(lines[i + 1..])
      case Other => NameLines(lines[i + 1..])
  {
    assert lines[i..][0] == lines[i] && lines[i..][1..] == lines[i + 1..];
  }

  /** Lines after the first field label that is not also a title line never
      contribute to the name. */
  lemma {:induction false} StopLineEndsName(before: seq<string>, stop: string, after: seq<string>)
    requires IsStop(stop) && !IsHeader(stop)
    ensures NameLines(before + [stop] + after) == NameLines(before + [stop])
  {
    if before == [] {
      assert ([stop] + after)[1..] == after;
      assert [] + [stop] + after == [stop] + after;
      assert [] + [stop] == [stop];
    } else {
      StopLineEndsName(before[1..], stop, after);
      assert (before + [stop] + after)[1..] == before[1..] + [stop] + after;
      assert (before + [stop])[1..] == before[1..] + [stop];
    }
  }

  /** A name as the card shows it: letters in words separated by single
      spaces. */
  predicate WellFormedName(s: string) {
    s != [] && s[0] != ' ' && s[|s| - 1] != ' '
    && (forall i :: 0 <= i < |s| ==> IsAsciiLetter(s[i]) || s[i] == ' ')
    && (forall i :: 0 <= i < |s| - 1 ==> s[i] == ' ' ==> s[i + 1] != ' ')
  }

  predicate LetterOrSpace(c: char) {
    IsAsciiLetter(c) || IsSpace(c)
  }

  lemma {:induction false} JoinNameLines(ls: seq<string>)
    requires forall k :: 0 <= k < |ls| ==> IsNameLine(ls[k]) && Trimmed(ls[k])
    ensures var j := Join(ls, " ");
      (forall i :: 0 <= i < |j| ==> LetterOrSpace(j[i]))
      && (ls == [] <==> j == [])
      && (ls != [] ==> !IsSpace(j[0]) && !IsSpace(j[|j| - 1]))
  {
    if |ls| > 1 {
      JoinNameLines(ls[1..]);
      var rest := Join(ls[1..], " ");
      var j := ls[0] + " " + rest;
      assert Join(ls, " ") == j;
      forall i | 0 <= i < |j| ensures LetterOrSpace(j[i]) {
        if i < |ls[0]| {
          assert j[i] == ls[0][i];
        } else if i > |ls[0]| {
          assert j[i] == rest[i - |ls[0]| - 1];
        }
      }
      assert j[|j| - 1] == rest[|rest| - 1];
    }
  }

  lemma {:induction false} FilterKeepsAll(s: string)
    requires forall i :: 0 <= i < |s| ==> NotAmpOrSlash(s[i])
    ensures Lists.Filter(s, NotAmpOrSlash) == s
  {
    if s != [] {
      FilterKeepsAll(s[1..]);
      assert [s[0]] + s[1..] == s;
    }
  }

  /** What the name extractor returns is "Not Found" when no line qualified,
      and otherwise a well-formed name. */
  lemma NameFromShape(nameLines: seq<string>)
    requires forall k :: 0 <= k < |nameLines| ==> IsNameLine(nameLines[k]) && Trimmed(nameLines[k])
    ensures nameLines == [] ==> NameFrom(nameLines) == NotFound
    ensures nameLines != [] ==> WellFormedName(NameFrom(nameLines))
  {
    var j := Join(nameLines, " ");
    JoinNameLines(nameLines);
    TrimNoop(j);
    FilterKeepsAll(j);
    var full := CollapseSpaces(j);
  }

  /** The name read from any text is "Not Found" or a well-formed name. */
  lemma ExtractedNameShape(text: string)
    ensures var name := NameFrom(NameLines(Lines(text)));
      name == NotFound || WellFormedName(name)
  {
    var lines := Lines(text);
    var ls := NameLines(lines);
    forall k | 0 <= k < |ls| ensures IsNameLine(ls[k]) && Trimmed(ls[k]) {
      var m :| 0 <= m < |lines| && lines[m] == ls[k];
    }
    NameFromShape(ls);
  }

  // ----------------------------------------------------------- matching

  /** The leftmost position from `from` up to `to` at which `at` matches,
      and what it captured: a regular expression's `match` without the
      global flag. */
  function Leftmost(at: nat -> Option<string>, from: nat, to: nat): (r: Option<(nat, string)>)
    ensures r.Some? ==> from <= r.value.0 <= to && at(r.value.0) == Some(r.value.1)
    ensures r.Some? ==> forall k :: from <= k < r.value.0 ==> at(k).None?
    ensures r.None? ==> forall k :: from <= k <= to ==> at(k).None?
    decreases if from <= to then to + 1 - from else 0
  {
    if from > to then None
    else if at(from).Some? then Some((from, at(from).value))
    else Leftmost(at, from + 1, to)
  }

  /** The end of the longest run of characters satisfying `p` from `i`. */
  function RunEnd(s: string, i: nat, p: char -> bool): (j: nat)
    requires i <= |s|
    ensures i <= j <= |s|
    ensures forall k :: i <= k < j ==> p(s[k])
    ensures j == |s| || !p(s[j])
    decreases |s| - i
  {
    if i < |s| && p(s[i]) then RunEnd(s, i + 1, p) else i
  }

  /** A run that is followed by a character outside it is the longest. */
  lemma {:induction false} RunEndOf(s: string, i: nat, run: string, p: char -> bool)
    requires i + |run| <= |s| && s[i..i + |run|] == run
    requires forall k :: 0 <= k < |run| ==> p(run[k])
    requires i + |run| == |s| || !p(s[i + |run|])
    ensures RunEnd(s, i, p) == i + |run|
    decreases |run|
  {
    if run != [] {
      assert s[i] == run[0];
      assert s[i + 1..i + 1 + |run[1..]|] == run[1..];
      RunEndOf(s, i + 1, run[1..], p);
    }
  }

  // ---------------------------------------------------------- person ID

  /** `[A-Z0-9-]` under the case-insensitive flag. */
  predicate IsIdChar(c: char) {
    IsAsciiLetter(c) || IsDigit(c) || c == '-'
  }

  const PersonIdLabel := "PERSON ID:"

  /** What `Person ID:\s*([A-Z0-9-]+)` (case-insensitive) captures when a
      match starts at `i`. */
  function PersonIdAt(text: string, i: nat): (r: Option<string>)
    ensures r.Some? ==> r.value != [] && forall k :: 0 <= k < |r.value| ==> IsIdChar(r.value[k])
  {
    if OccursAt(PersonIdLabel, UpperAll(text), i) then
      var j := RunEnd(text, i + |PersonIdLabel|, IsSpace);
      var k := RunEnd(text, j, IsIdChar);
      if j < k then Some(text[j..k]) else None
    else None
  }

  function ReplaceOWithZero(s: string): (r: string)
    ensures |r| == |s|
    ensures forall i :: 0 <= i < |s| ==> r[i] == if s[i] == 'O' then '0' else s[i]
  {
    seq(|s|, i requires 0 <= i < |s| => if s[i] == 'O' then '0' else s[i])
  }

  /** `extractPersonID`. */
  function ExtractPersonId(text: string): (id: string)
    ensures id != NotFound ==> id != [] && forall k :: 0 <= k < |id| ==> id[k] != 'O' && IsIdChar(id[k])
  {
    match FirstPersonId(text)
    case None => NotFound
    case Some(captured) =>
      IdIsTrimmed(captured);
      ReplaceOWithZero(Trim(captured))
  }

  /** The capture of the leftmost match. */
  function FirstPersonId(text: string): (r: Option<string>)
    ensures r.Some? ==> r.value != [] && forall k :: 0 <= k < |r.value| ==> IsIdChar(r.value[k])
  {
    match Leftmost((i: nat) => PersonIdAt(text, i), 0, |text|)
    case None => None
    case Some((at, captured)) =>
      assert PersonIdAt(text, at) == Some(captured);
      Some(captured)
  }

  /** An ID has no space at its ends, so trimming keeps it. */
  lemma IdIsTrimmed(id: string)
    requires id != [] && forall k :: 0 <= k < |id| ==> IsIdChar(id[k])
    ensures Trim(id) == id
  {
    IdCharNotSpace(id[0]);
    IdCharNotSpace(id[|id| - 1]);
    TrimNoop(id);
  }

  lemma IdCharNotSpace(c: char)
    requires IsIdChar(c)
    ensures !IsSpace(c)
  {
  }

  /** The label as the card prints it matches the case-insensitive pattern. */
  lemma PrintedLabelMatches(text: string)
    requires |text| >= 10 && text[..10] == "Person ID:"
    ensures OccursAt(PersonIdLabel, UpperAll(text), 0)
  {
    var u := UpperAll(text);
    forall k | 0 <= k < 10 ensures u[k] == PersonIdLabel[k] {
      assert text[k] == "Person ID:"[k];
    }
  }

  /** A card whose text begins with the person-ID label yields the ID that
      follows it, with each capital O read as a zero. */
  lemma PersonIdOfLabelled(spaces: string, id: string, rest: string)
    requires forall k :: 0 <= k < |spaces| ==> IsSpace(spaces[k])
    requires id != [] && forall k :: 0 <= k < |id| ==> IsIdChar(id[k])
    requires rest == [] || !IsIdChar(rest[0])
    ensures ExtractPersonId("Person ID:" + spaces + id + rest) == ReplaceOWithZero(id)
  {
    var text := "Person ID:" + spaces + id + rest;
    var n := |PersonIdLabel|;
    assert text[..10] == "Person ID:";
    PrintedLabelMatches(text);
    assert text[n..n + |spaces|] == spaces;
    assert text[n + |spaces|] == id[0];
    IdCharNotSpace(id[0]);
    RunEndOf(text, n, spaces, IsSpace);
    var j := n + |spaces|;
    assert text[j..j + |id|] == id;
    assert j + |id| == |text| || text[j + |id|] == rest[0];
    RunEndOf(text, j, id, IsIdChar);
    var k := j + |id|;
    assert text[j..k] == id;
    assert PersonIdAt(text, 0) == Some(id);
    assert FirstPersonId(text) == Some(id);
    IdIsTrimmed(id);
  }

  // ---------------------------------------------------------- birthdate

  predicate IsDigitAt(s: string, i: nat) {
    i < |s| && IsDigit(s[i])
  }

  /** `-[A-Za-z]{3}-\d{4}` at `i`. */
  predicate MonthYearAt(s: string, i: nat) {
    i + 9 <= |s| && s[i] == '-' && IsAsciiLetter(s[i + 1]) && IsAsciiLetter(s[i + 2])
    && IsAsciiLetter(s[i + 3]) && s[i + 4] == '-' && IsDigit(s[i + 5]) && IsDigit(s[i + 6])
    && IsDigit(s[i + 7]) && IsDigit(s[i + 8])
  }

  /** `\d{1,2}-[A-Za-z]{3}-\d{4}`: one or two day digits, a three-letter
      month, a four-digit year. */
  predicate IsDate(d: string) {
    (|d| == 11 && IsDigit(d[0]) && IsDigit(d[1]) && MonthYearAt(d, 2))
    || (|d| == 10 && IsDigit(d[0]) && MonthYearAt(d, 1))
  }

  /** What `DOB:\s*(\d{1,2}-[A-Za-z]{3}-\d{4})` captures when a match starts
      at `i`: two day digits are tried before one. */
  function DobAt(text: string, i: nat): (r: Option<string>)
    ensures r.Some? ==> IsDate(r.value)
  {
    if OccursAt("DOB:", text, i) then
      var j := RunEnd(text, i + 4, IsSpace);
      if IsDigitAt(text, j) && IsDigitAt(text, j + 1) && MonthYearAt(text, j + 2) then
        DateSlice(text, j, 2);
        Some(text[j..j + 11])
      else if IsDigitAt(text, j) && MonthYearAt(text, j + 1) then
        DateSlice(text, j, 1);
        Some(text[j..j + 10])
      else None
    else None
  }

  lemma DateSlice(text: string, j: nat, days: nat)
    requires days == 1 || days == 2
    requires forall k :: j <= k < j + days ==> IsDigitAt(text, k)
    requires MonthYearAt(text, j + days)
    ensures IsDate(text[j..j + days + 9])
  {
    var d := text[j..j + days + 9];
    forall k | 0 <= k < days + 9 ensures d[k] == text[j + k] {
    }
    assert IsDigitAt(text, j);
    assert days == 2 ==> IsDigitAt(text, j + 1);
  }

  /** `extractDOB`. */
  function ExtractDob(text: string): (dob: string)
    ensures dob == NotFound || IsDate(dob)
  {
    match FirstDob(text)
    case None => NotFound
    case Some(captured) =>
      DateIsTrimmed(captured);
      Trim(captured)
  }

  /** The capture of the leftmost match. */
  function FirstDob(text: string): (r: Option<string>)
    ensures r.Some? ==> IsDate(r.value)
  {
    match Leftmost((i: nat) => DobAt(text, i), 0, |text|)
    case None => None
    case Some((at, captured)) =>
      assert DobAt(text, at) == Some(captured);
      Some(captured)
  }

  /** A date begins and ends with a digit, so trimming keeps it. */
  lemma DateIsTrimmed(d: string)
    requires IsDate(d)
    ensures Trim(d) == d
  {
    assert IsDigit(d[0]) && IsDigit(d[|d| - 1]);
    TrimNoop(d);
  }

  /** A date right after the label and its spaces is what the pattern
      captures there. */
  lemma DateAfterLabel(text: string, j: nat, date: string)
    requires OccursAt("DOB:", text, 0) && RunEnd(text, 4, IsSpace) == j
    requires IsDate(date) && j + |date| <= |text| && text[j..j + |date|] == date
    ensures DobAt(text, 0) == Some(date)
  {
    var days := |date| - 9;
    forall k | 0 <= k < |date| ensures text[j + k] == date[k] {
      assert text[j..j + |date|][k] == date[k];
    }
    MonthYearShift(text, j, date, days);
    assert IsDigitAt(text, j);
    if days == 2 {
      assert IsDigitAt(text, j + 1);
    } else {
      assert text[j + 1] == '-';
      assert !IsDigitAt(text, j + 1);
    }
  }

  lemma MonthYearShift(text: string, j: nat, date: string, at: nat)
    requires j + |date| <= |text| && forall k :: 0 <= k < |date| ==> text[j + k] == date[k]
    requires MonthYearAt(date, at)
    ensures MonthYearAt(text, j + at)
  {
    assert text[j + at] == date[at] && text[j + at + 1] == date[at + 1] && text[j + at + 2] == date[at + 2];
    assert text[j + at + 3] == date[at + 3] && text[j + at + 4] == date[at + 4] && text[j + at + 5] == date[at + 5];
    assert text[j + at + 6] == date[at + 6] && text[j + at + 7] == date[at + 7] && text[j + at + 8] == date[at + 8];
  }

  /** A text that begins with the birthdate label yields the date after it. */
  lemma DobOfLabelled(spaces: string, date: string, rest: string)
    requires forall k :: 0 <= k < |spaces| ==> IsSpace(spaces[k])
    requires IsDate(date)
    ensures ExtractDob("DOB:" + spaces + date + rest) == date
  {
    var text := "DOB:" + spaces + date + rest;
    assert text[0..4] == "DOB:";
    assert text[4..4 + |spaces|] == spaces;
    assert text[4 + |spaces|] == date[0];
    assert !IsSpace(date[0]);
    RunEndOf(text, 4, spaces, IsSpace);
    var j := 4 + |spaces|;
    assert text[j..j + |date|] == date;
    DateAfterLabel(text, j, date);
    assert FirstDob(text) == Some(date);
    DateIsTrimmed(date);
  }

  /** Nothing is found in a text without the birthdate label. */
  lemma DobNeedsLabel(text: string)
    requires !Contains(text, "DOB:")
    ensures ExtractDob(text) == NotFound
  {
    forall i: nat | i <= |text| ensures DobAt(text, i).None? {
      assert !OccursAt("DOB:", text, i);
    }
  }
}
