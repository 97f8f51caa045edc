/** The V3 rewrite at the level of characters: what the tool's patterns find in a line, the marker block it writes, and
    the loop that rewrites a file. */
module RepairedText {
  import opened Prelude
  import opened TickText
  import opened RepairedFile
  import AnchorRepair

  // ---- lines --------------------------------------------------------------------------------------

  /** A line of text, taken apart by the version pattern and the collection-time pattern. */
  function Parse(s: string): (l: Line)
    ensures l.text == s
  {
    var body := SkipSpace(s);
    var m := MatchStart(body, COLLECTED);
    if AfterName(body, VERSION).Some? then Version(s, s[..|s| - |body|], ScanText(s))
    else if m.None? then Other(s, ScanText(s))
    else Collected(s, s[..|s| - |m.value.digits + m.value.rest|], ParseNat(m.value.digits), m.value.rest,
      ScanText(m.value.rest))
  }

  /** The text in front of the digits of a collection time: indent, quoted name, colon, and whitespace. */
  function Lead(indent: string, gap: string, gap2: string): string {
    indent + Keyed(COLLECTED, gap) + gap2
  }

  lemma NamesHaveNoQuotes()
    ensures NoQuote(COLLECTED) && NoQuote(VERSION) && COLLECTED != VERSION && COLLECTED != []
  {
    assert |COLLECTED| == 13 && |VERSION| == 19;
  }

  lemma SpaceHasNoQuote(ws: string)
    requires AllSpace(ws)
    ensures NoQuote(ws)
  {
  }

  /** The keys as they are written in a tick file. */
  lemma KeysAsWritten()
    ensures Quoted(COLLECTED) == "\"collected_msc\"" && Quoted(TIME) == "\"time_msc\""
    ensures Quoted(VERSION) == "\"data_format_version\""
  {
  }

  /** A line that begins with the quoted name is no version line. */
  lemma {:induction false} NotVersion(name: string, rest: string)
    requires NoQuote(name) && name != VERSION
    ensures AfterName(Quoted(name) + rest, VERSION).None?
  {
    NamesHaveNoQuotes();
    OtherNameIsQuiet(name, rest, VERSION);
  }

  lemma {:induction false} SkipIndent(indent: string, name: string, rest: string)
    requires AllSpace(indent)
    ensures SkipSpace(indent + (Quoted(name) + rest)) == Quoted(name) + rest
  {
    var body := Quoted(name) + rest;
    assert body[0] == QUOTE;
    SkipSpaceOf(indent, body);
  }

  lemma {:induction false} BodyOf(indent: string, gap: string, gap2: string, digits: string, rest: string, s: string,
                                  body: string)
    requires AllSpace(indent) && AllSpace(gap) && AllSpace(gap2) && digits != [] && AllDigits(digits)
             && NotDigitFirst(rest)
    requires body == Keyed(COLLECTED, gap) + gap2 + digits + rest && s == indent + body
    ensures SkipSpace(s) == body && AfterName(body, VERSION).None?
            && MatchStart(body, COLLECTED) == Some(Match(digits, rest))
  {
    var tail := gap + ":" + gap2 + digits + rest;
    KeyedIsQuoted(gap, gap2, digits, rest);
    SkipIndent(indent, COLLECTED, tail);
    NamesHaveNoQuotes();
    NotVersion(COLLECTED, tail);
    MatchOf(COLLECTED, gap, gap2, digits, rest);
  }

  lemma KeyedIsQuoted(gap: string, gap2: string, digits: string, rest: string)
    ensures Keyed(COLLECTED, gap) + gap2 + digits + rest == Quoted(COLLECTED) + (gap + ":" + gap2 + digits + rest)
  {
  }

  /** The pieces of a collected line, put together. */
  lemma {:induction false} ParseOf(indent: string, gap: string, gap2: string, digits: string, rest: string)
    requires AllSpace(indent) && AllSpace(gap) && AllSpace(gap2) && digits != [] && AllDigits(digits)
             && NotDigitFirst(rest)
    ensures var s := Lead(indent, gap, gap2) + digits + rest;
            Parse(s) == Collected(s, Lead(indent, gap, gap2), ParseNat(digits), rest, ScanText(rest))
  {
    var s := Lead(indent, gap, gap2) + digits + rest;
    LeadRejoins(indent, Keyed(COLLECTED, gap), gap2, digits, rest);
    BodyOf(indent, gap, gap2, digits, rest, s, Keyed(COLLECTED, gap) + gap2 + digits + rest);
    FrontOf(Lead(indent, gap, gap2), digits, rest);
  }

  lemma FrontOf(a: string, b: string, c: string)
    ensures var s := a + b + c; s[..|s| - |b + c|] == a
  {
  }

  /** The pieces of a collected line. */
  lemma {:induction false} ParseGives(s: string) returns (indent: string, gap: string, gap2: string, digits: string)
    requires Parse(s).Collected?
    ensures AllSpace(indent) && AllSpace(gap) && AllSpace(gap2) && digits != [] && AllDigits(digits)
    ensures var l := Parse(s);
            && l.prefix == Lead(indent, gap, gap2) && l.value == ParseNat(digits) && NotDigitFirst(l.suffix)
            && l.embedded == ScanText(l.suffix) && s == l.prefix + digits + l.suffix
  {
    var body := SkipSpace(s);
    var m := MatchStart(body, COLLECTED).value;
    indent := SkippedIsSpace(s);
    gap, gap2 := MatchGives(body, COLLECTED);
    digits := m.digits;
    var lead := Lead(indent, gap, gap2);
    LeadRejoins(indent, Keyed(COLLECTED, gap), gap2, digits, m.rest);
    assert s == lead + digits + m.rest;
    FrontOf(lead, digits, m.rest);
  }

  lemma LeadRejoins(indent: string, key: string, gap2: string, digits: string, rest: string)
    ensures indent + (key + gap2 + digits + rest) == (indent + key + gap2) + digits + rest
  {
  }

  // ---- scanning a line ----------------------------------------------------------------------------

  lemma {:induction false} ScanOfTime(indent: string, gap: string, gap2: string, digits: string, rest: string)
    requires AllSpace(indent) && AllSpace(gap) && AllSpace(gap2) && digits != [] && AllDigits(digits)
             && NotDigitFirst(rest)
    ensures ScanText(Lead(indent, gap, gap2) + digits + rest) == [ParseNat(digits)] + ScanText(rest)
  {
    var body := Keyed(COLLECTED, gap) + gap2 + digits + rest;
    LeadRejoins(indent, Keyed(COLLECTED, gap), gap2, digits, rest);
    SpaceHasNoQuote(indent);
    ScanPastPlain(indent, body, COLLECTED);
    MatchOf(COLLECTED, gap, gap2, digits, rest);
  }

  /** What the scanner finds in a line is what its parts say. */
  lemma {:induction false} ParseScans(s: string)
    ensures ScanText(s) == ScanLine(Parse(s))
  {
    if Parse(s).Collected? {
      var indent, gap, gap2, digits := ParseGives(s);
      ScanOfTime(indent, gap, gap2, digits, Parse(s).suffix);
    }
  }

  // ---- a rewritten line ---------------------------------------------------------------------------

  lemma {:induction false} MinusIsQuiet(gap: string, gap2: string, rest: string)
    requires AllSpace(gap) && AllSpace(gap2)
    ensures MatchStart(Keyed(COLLECTED, gap) + (gap2 + (['-'] + rest)), COLLECTED).None?
  {
    var minus := ['-'] + rest;
    AfterNameOf(COLLECTED, gap, gap2 + minus);
    SkipSpaceOf(gap2, minus);
    assert Digits(minus) == [];
  }

  /** A negative number in the place of the digits is not found, and nothing else in the lead is. */
  lemma {:induction false} ParseOfNegative(indent: string, gap: string, gap2: string, digits: string, rest: string)
    requires AllSpace(indent) && AllSpace(gap) && AllSpace(gap2) && AllDigits(digits)
    ensures var s := Lead(indent, gap, gap2) + (['-'] + digits) + rest;
            Parse(s) == Other(s, ScanText(rest))
  {
    var s := Lead(indent, gap, gap2) + (['-'] + digits) + rest;
    var between := gap + ":" + gap2 + ['-'] + digits;
    var body := Quoted(COLLECTED) + (between + rest);
    NegativeRejoins(indent, gap, gap2, digits, rest);
    SkipIndent(indent, COLLECTED, between + rest);
    NamesHaveNoQuotes();
    NotVersion(COLLECTED, between + rest);
    MinusIsQuiet(gap, gap2, digits + rest);
    SpaceHasNoQuote(indent);
    ScanPastPlain(indent, body, COLLECTED);
    assert (between + rest)[0] != COLLECTED[0];
    ScanPastQuoted(COLLECTED, between + rest, COLLECTED);
    BetweenHasNoQuote(gap, gap2, digits);
    ScanPastPlain(between, rest, COLLECTED);
  }

  lemma NegativeRejoins(indent: string, gap: string, gap2: string, digits: string, rest: string)
    ensures var between := gap + ":" + gap2 + ['-'] + digits;
            && Lead(indent, gap, gap2) + (['-'] + digits) + rest == indent + (Quoted(COLLECTED) + (between + rest))
            && Keyed(COLLECTED, gap) + (gap2 + (['-'] + (digits + rest))) == Quoted(COLLECTED) + (between + rest)
  {
  }

  lemma BetweenHasNoQuote(gap: string, gap2: string, digits: string)
    requires AllSpace(gap) && AllSpace(gap2) && AllDigits(digits)
    ensures NoQuote(gap + ":" + gap2 + ['-'] + digits)
  {
  }

  /** Rewriting a line's digits and reading the line again gives the shifted line. */
  lemma {:induction false} ParseShifted(s: string, shift: int)
    requires Parse(s).Collected?
    ensures Parse(Shifted(Parse(s), shift).text) == Shifted(Parse(s), shift)
  {
    var indent, gap, gap2, digits := ParseGives(s);
    if Parse(s).value + shift >= 0 {
      ParseShiftedUp(Parse(s), indent, gap, gap2, shift);
    } else {
      ParseShiftedDown(Parse(s), indent, gap, gap2, shift);
    }
  }

  lemma {:induction false} ParseShiftedUp(l: Line, indent: string, gap: string, gap2: string, shift: int)
    requires l.Collected? && AllSpace(indent) && AllSpace(gap) && AllSpace(gap2) && l.prefix == Lead(indent, gap, gap2)
    requires NotDigitFirst(l.suffix) && l.embedded == ScanText(l.suffix) && l.value + shift >= 0
    ensures Parse(Shifted(l, shift).text) == Shifted(l, shift)
  {
    var n := l.value + shift;
    DecIsDigits(n);
    ParseDec(n);
    ParseOf(indent, gap, gap2, Dec(n), l.suffix);
  }

  lemma {:induction false} ParseShiftedDown(l: Line, indent: string, gap: string, gap2: string, shift: int)
    requires l.Collected? && AllSpace(indent) && AllSpace(gap) && AllSpace(gap2) && l.prefix == Lead(indent, gap, gap2)
    requires l.embedded == ScanText(l.suffix) && l.value + shift < 0
    ensures Parse(Shifted(l, shift).text) == Shifted(l, shift)
  {
    var n := -(l.value + shift);
    DecIsDigits(n);
    ParseOfNegative(indent, gap, gap2, Dec(n), l.suffix);
  }

  // ---- the marker block ---------------------------------------------------------------------------

  function JoinInts(shifts: seq<int>): string {
    if shifts == [] then ""
    else if |shifts| == 1 then DecInt(shifts[0])
    else JoinInts(Init(shifts)) + ", " + DecInt(Last(shifts))
  }

  const TIMEBASE: string := "collected_msc_timebase"
  const RESTORATION: string := "collected_msc_restoration"

  function StringEntry(name: string, value: string): string {
    Quoted(name) + (": " + (Quoted(value) + ","))
  }

  function PlainEntry(name: string, value: string): string {
    Quoted(name) + (": " + value)
  }

  /** The eight lines that record a repair, without their common indent. */
  function MarkerEntry(i: nat, applied: string, branch: string, shifts: seq<int>): string {
    match i
    case 0 => StringEntry(TIMEBASE, "utc")
    case 1 => PlainEntry(RESTORATION, "{")
    case 2 => "  " + PlainEntry("version", "3,")
    case 3 => "  " + StringEntry("applied", applied)
    case 4 => "  " + StringEntry("method", branch)
    case 5 => "  " + PlainEntry("segments", Dec(|shifts|) + ",")
    case 6 => "  " + PlainEntry("shift_ms", "[" + JoinInts(shifts) + "]")
    case _ => "},"
  }

  function MarkerNote(applied: string, branch: string, shifts: seq<int>): (note: seq<string>)
    ensures |note| == 8 && forall i :: 0 <= i < 8 ==> note[i] == MarkerEntry(i, applied, branch, shifts)
  {
    seq(8, i requires 0 <= i < 8 => MarkerEntry(i, applied, branch, shifts))
  }

  /** The block of a file with one segment that was left alone, as it is written. */
  lemma MarkerOfOne(applied: string)
    ensures MarkerNote(applied, "noop", [0]) == [
              Quoted(TIMEBASE) + ": \"utc\",",
              Quoted(RESTORATION) + ": {",
              "  \"version\": 3,",
              "  \"applied\": \"" + applied + "\",",
              "  \"method\": \"noop\",",
              "  \"segments\": 1,",
              "  \"shift_ms\": [0]",
              "},"]
  {
    var note := MarkerNote(applied, "noop", [0]);
    EntriesOfOne(applied);
    TextsOfOne(applied);
    SegmentsOfOne(applied);
    ShiftsOfOne(applied);
    assert forall i :: 0 <= i < 8 ==> note[i] == MarkerEntry(i, applied, "noop", [0]);
  }

  lemma EntriesOfOne(applied: string)
    ensures MarkerEntry(0, applied, "noop", [0]) == Quoted(TIMEBASE) + ": \"utc\","
    ensures MarkerEntry(1, applied, "noop", [0]) == Quoted(RESTORATION) + ": {"
    ensures MarkerEntry(2, applied, "noop", [0]) == "  \"version\": 3,"
    ensures MarkerEntry(7, applied, "noop", [0]) == "},"
  {
  }

  lemma TextsOfOne(applied: string)
    ensures MarkerEntry(3, applied, "noop", [0]) == "  \"applied\": \"" + applied + "\","
    ensures MarkerEntry(4, applied, "noop", [0]) == "  \"method\": \"noop\","
  {
  }

  lemma SegmentsOfOne(applied: string)
    ensures MarkerEntry(5, applied, "noop", [0]) == "  \"segments\": 1,"
  {
    assert Dec(1) == "1";
  }

  lemma ShiftsOfOne(applied: string)
    ensures MarkerEntry(6, applied, "noop", [0]) == "  \"shift_ms\": [0]"
  {
    assert DecInt(0) == "0" && JoinInts([0]) == "0";
  }

  lemma {:induction false} DecIntHasNoQuote(n: int)
    ensures NoQuote(DecInt(n))
  {
    DecIsDigits(if n < 0 then -n else n);
  }

  lemma {:induction false} JoinHasNoQuote(shifts: seq<int>)
    ensures NoQuote(JoinInts(shifts))
  {
    if |shifts| == 1 {
      DecIntHasNoQuote(shifts[0]);
    } else if shifts != [] {
      JoinHasNoQuote(Init(shifts));
      DecIntHasNoQuote(Last(shifts));
    }
  }

  /** The name of a marker entry: unlike the two names the tool looks for, because the closing quote counts. */
  predicate MarkerName(name: string) {
    NoQuote(name) && name != COLLECTED && name != VERSION
  }

  lemma MarkerNames()
    ensures MarkerName(TIMEBASE) && MarkerName(RESTORATION) && MarkerName("version") && MarkerName("applied")
    ensures MarkerName("method") && MarkerName("segments") && MarkerName("shift_ms")
  {
    assert |COLLECTED| == 13 && |VERSION| == 19;
    assert |TIMEBASE| == 22 && |RESTORATION| == 25;
  }

  /** An entry with another name and a silent value is an ordinary line without a collection time. */
  lemma {:induction false} EntryIsSilent(ws: string, name: string, rest: string)
    requires AllSpace(ws) && MarkerName(name) && rest != [] && rest[0] == ':' && ScanText(rest) == []
    ensures Parse(ws + (Quoted(name) + rest)) == Other(ws + (Quoted(name) + rest), [])
  {
    var body := Quoted(name) + rest;
    NamesHaveNoQuotes();
    SkipIndent(ws, name, rest);
    NotVersion(name, rest);
    OtherNameIsQuiet(name, rest, COLLECTED);
    SpaceHasNoQuote(ws);
    ScanPastPlain(ws, body, COLLECTED);
    assert COLLECTED[0] == 'c';
    ScanPastQuoted(name, rest, COLLECTED);
  }

  lemma {:induction false} StringEntryIsSilent(ws: string, name: string, value: string)
    requires AllSpace(ws) && MarkerName(name) && NoQuote(value)
    ensures Parse(ws + StringEntry(name, value)) == Other(ws + StringEntry(name, value), [])
  {
    var quoted, rest, comma := Quoted(value) + ",", ": " + (Quoted(value) + ","), ",";
    NamesHaveNoQuotes();
    ScanPastPlain(": ", quoted, COLLECTED);
    ValueIsQuiet(value, comma, COLLECTED);
    ScanPastQuoted(value, comma, COLLECTED);
    ScanOfPlain(comma, COLLECTED);
    EntryIsSilent(ws, name, rest);
  }

  lemma {:induction false} PlainEntryIsSilent(ws: string, name: string, value: string)
    requires AllSpace(ws) && MarkerName(name) && NoQuote(value)
    ensures Parse(ws + PlainEntry(name, value)) == Other(ws + PlainEntry(name, value), [])
  {
    var rest := ": " + value;
    ScanOfPlain(rest, COLLECTED);
    EntryIsSilent(ws, name, rest);
  }

  lemma {:induction false} PlainIsSilent(s: string)
    requires NoQuote(s)
    ensures Parse(s) == Other(s, [])
  {
    ScanOfPlain(s, COLLECTED);
    var ws := SkippedIsSpace(s);
    var body := SkipSpace(s);
    assert body != [] ==> body[0] == s[|ws|];
  }

  lemma {:induction false} Indented(indent: string, entry: string)
    requires AllSpace(indent)
    ensures AllSpace(indent + "  ") && (indent + "  ") + entry == indent + ("  " + entry)
  {
  }

  predicate Silent(text: string) {
    Parse(text) == Other(text, [])
  }

  lemma {:induction false} OuterLinesAreSilent(indent: string, i: nat, applied: string, branch: string,
                                               shifts: seq<int>)
    requires AllSpace(indent) && (i < 2 || 7 <= i)
    ensures Silent(indent + MarkerEntry(i, applied, branch, shifts))
  {
    MarkerNames();
    SpaceHasNoQuote(indent);
    match i {
      case 0 => StringEntryIsSilent(indent, TIMEBASE, "utc");
      case 1 => PlainEntryIsSilent(indent, RESTORATION, "{");
      case _ => PlainIsSilent(indent + "},");
    }
  }

  lemma {:induction false} InnerStringIsSilent(indent: string, name: string, value: string)
    requires AllSpace(indent) && MarkerName(name) && NoQuote(value)
    ensures Silent(indent + ("  " + StringEntry(name, value)))
  {
    Indented(indent, StringEntry(name, value));
    StringEntryIsSilent(indent + "  ", name, value);
  }

  lemma {:induction false} InnerPlainIsSilent(indent: string, name: string, value: string)
    requires AllSpace(indent) && MarkerName(name) && NoQuote(value)
    ensures Silent(indent + ("  " + PlainEntry(name, value)))
  {
    Indented(indent, PlainEntry(name, value));
    PlainEntryIsSilent(indent + "  ", name, value);
  }

  lemma {:induction false} TextLinesAreSilent(indent: string, i: nat, applied: string, branch: string, shifts: seq<int>)
    requires AllSpace(indent) && NoQuote(applied) && NoQuote(branch) && (i == 3 || i == 4)
    ensures Silent(indent + MarkerEntry(i, applied, branch, shifts))
  {
    MarkerNames();
    if i == 3 {
      InnerStringIsSilent(indent, "applied", applied);
    } else {
      InnerStringIsSilent(indent, "method", branch);
    }
  }

  lemma {:induction false} NumberLinesAreSilent(indent: string, i: nat, applied: string, branch: string,
                                                shifts: seq<int>)
    requires AllSpace(indent) && (i == 2 || i == 5 || i == 6)
    ensures Silent(indent + MarkerEntry(i, applied, branch, shifts))
  {
    MarkerNames();
    match i {
      case 2 => InnerPlainIsSilent(indent, "version", "3,");
      case 5 =>
        DecIntHasNoQuote(|shifts|);
        InnerPlainIsSilent(indent, "segments", Dec(|shifts|) + ",");
      case _ =>
        JoinHasNoQuote(shifts);
        InnerPlainIsSilent(indent, "shift_ms", "[" + JoinInts(shifts) + "]");
    }
  }

  /** Whatever the indent, the time, the branch and the shifts: none of the eight marker lines holds a collection time,
      begins like one, or looks like a version line. */
  lemma {:induction false} MarkerIsSilent(indent: string, i: nat, applied: string, branch: string, shifts: seq<int>)
    requires AllSpace(indent) && NoQuote(applied) && NoQuote(branch) && i < 8
    ensures Silent(indent + MarkerNote(applied, branch, shifts)[i])
  {
    if i == 3 || i == 4 {
      TextLinesAreSilent(indent, i, applied, branch, shifts);
    } else if i == 2 || i == 5 || i == 6 {
      NumberLinesAreSilent(indent, i, applied, branch, shifts);
    } else {
      OuterLinesAreSilent(indent, i, applied, branch, shifts);
    }
  }

  // ---- a file -------------------------------------------------------------------------------------

  function ParseAll(texts: seq<string>): (lines: seq<Line>)
    ensures |lines| == |texts| && forall i :: 0 <= i < |texts| ==> lines[i] == Parse(texts[i])
  {
    seq(|texts|, i requires 0 <= i < |texts| => Parse(texts[i]))
  }

  function Texts(lines: seq<Line>): (texts: seq<string>)
    ensures |texts| == |lines| && forall i :: 0 <= i < |lines| ==> texts[i] == lines[i].text
  {
    seq(|lines|, i requires 0 <= i < |lines| => lines[i].text)
  }

  /** The collection times the scanner finds in a file, line by line. */
  function ScanTexts(texts: seq<string>): seq<int> {
    if texts == [] then []
    else if ScanText(Last(texts)) == [] then ScanTexts(Init(texts))
    else ScanTexts(Init(texts)) + ScanText(Last(texts))
  }

  lemma {:induction false} ScanOfParsed(texts: seq<string>)
    ensures Scan(ParseAll(texts)) == ScanTexts(texts)
  {
    if texts != [] {
      ScanOfParsed(Init(texts));
      ParseScans(Last(texts));
      assert Init(ParseAll(texts)) == ParseAll(Init(texts));
    }
  }

  predicate IsParsed(l: Line) {
    l == Parse(l.text)
  }

  predicate WellFormed(lines: seq<Line>) {
    forall i :: 0 <= i < |lines| ==> IsParsed(lines[i])
  }

  lemma WellFormedIsParsed(lines: seq<Line>)
    requires WellFormed(lines)
    ensures ParseAll(Texts(lines)) == lines
  {
  }

  lemma {:induction false} ShiftedIsParsed(l: Line, shift: int)
    requires IsParsed(l) && l.Collected?
    ensures IsParsed(Shifted(l, shift))
  {
    ParseShifted(l.text, shift);
  }

  lemma {:induction false} ShiftedWellFormed(lines: seq<Line>, shifts: seq<int>)
    requires WellFormed(lines) && |Values(lines)| <= |shifts|
    ensures WellFormed(ShiftedLines(lines, shifts))
  {
    forall k | 0 <= k < |lines| ensures IsParsed(ShiftedLines(lines, shifts)[k]) {
      ShiftedAt(lines, shifts, k);
      if lines[k].Collected? {
        ShiftedIsParsed(lines[k], shifts[|Values(lines[..k])|]);
      }
    }
  }

  lemma {:induction false} VersionIndent(s: string)
    requires Parse(s).Version?
    ensures AllSpace(Parse(s).indent)
  {
    var ws := SkippedIsSpace(s);
    assert s[..|s| - |SkipSpace(s)|] == ws;
  }

  lemma {:induction false} MarkerWellFormed(indent: string, applied: string, branch: string, shifts: seq<int>)
    requires AllSpace(indent) && NoQuote(applied) && NoQuote(branch)
    ensures WellFormed(Marker(indent, MarkerNote(applied, branch, shifts)))
  {
    var note := MarkerNote(applied, branch, shifts);
    forall i | 0 <= i < 8 ensures IsParsed(Marker(indent, note)[i]) {
      MarkerIsSilent(indent, i, applied, branch, shifts);
    }
  }

  lemma WellFormedConcat(a: seq<Line>, b: seq<Line>)
    requires WellFormed(a) && WellFormed(b)
    ensures WellFormed(a + b)
  {
  }

  /** The lines of a rewritten file are what the tool would read in their texts. */
  lemma {:induction false} RewrittenWellFormed(lines: seq<Line>, shifts: seq<int>, applied: string, branch: string,
                                               all: seq<int>)
    requires WellFormed(lines) && NoQuote(applied) && NoQuote(branch)
    requires Outcome(lines, shifts, MarkerNote(applied, branch, all)).Ok?
    ensures WellFormed(Outcome(lines, shifts, MarkerNote(applied, branch, all)).value)
  {
    var note := MarkerNote(applied, branch, all);
    OutcomeExactly(lines, shifts, note);
    var v, shifted := FirstVersion(lines), ShiftedLines(lines, shifts);
    ShiftedWellFormed(lines, shifts);
    assert IsParsed(lines[v]);
    VersionIndent(lines[v].text);
    MarkerWellFormed(lines[v].indent, applied, branch, all);
    InsertedWellFormed(shifted, v + 1, Marker(lines[v].indent, note));
  }

  lemma InsertedWellFormed(lines: seq<Line>, n: nat, block: seq<Line>)
    requires n <= |lines| && WellFormed(lines) && WellFormed(block)
    ensures WellFormed(lines[..n] + block + lines[n..])
  {
    assert WellFormed(lines[..n]) && WellFormed(lines[n..]);
    WellFormedConcat(lines[..n], block);
    WellFormedConcat(lines[..n] + block, lines[n..]);
  }

  /** Text in, text out: for a plan made from the file's own scan, the texts written scan to every time plus its shift
      exactly when no shifted time is negative. */
  lemma {:induction false} RewrittenTextRescans(texts: seq<string>, shifts: seq<int>, applied: string, branch: string,
                                                all: seq<int>)
    requires NoQuote(applied) && NoQuote(branch) && |shifts| == |ScanTexts(texts)|
    requires Outcome(ParseAll(texts), shifts, MarkerNote(applied, branch, all)).Ok?
    ensures var out := Texts(Outcome(ParseAll(texts), shifts, MarkerNote(applied, branch, all)).value);
            var x := Sums(ScanTexts(texts), shifts);
            ScanTexts(out) == x <==> forall i :: 0 <= i < |x| ==> x[i] >= 0
  {
    var lines, note := ParseAll(texts), MarkerNote(applied, branch, all);
    ScanOfParsed(texts);
    RewrittenWellFormed(lines, shifts, applied, branch, all);
    var out := Outcome(lines, shifts, note).value;
    WellFormedIsParsed(out);
    ScanOfParsed(Texts(out));
    RescanIsShifted(lines, shifts, note);
  }
}
