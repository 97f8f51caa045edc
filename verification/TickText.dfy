/** The text of a tick file as the V3 tool reads it: the scanner's pattern for a collection time, and decimal numbers.
    Whitespace and digits are the ASCII ones. */
module TickText {
  import opened Prelude

  predicate IsSpace(c: char) {
    c == ' ' || 9 <= c as int <= 13
  }

  predicate IsDigit(c: char) {
    '0' <= c <= '9'
  }

  // ---- decimal numbers ----------------------------------------------------------------------------

  function DigitChar(d: nat): (c: char)
    requires d < 10
    ensures IsDigit(c) && c as int == '0' as int + d
  {
    ('0' as int + d) as char
  }

  function Dec(n: nat): string {
    if n < 10 then [DigitChar(n)] else Dec(n / 10) + [DigitChar(n % 10)]
  }

  function DecInt(n: int): string {
    if n < 0 then "-" + Dec(-n) else Dec(n)
  }

  predicate AllDigits(s: string) {
    forall i :: 0 <= i < |s| ==> IsDigit(s[i])
  }

  function DigitValue(c: char): nat {
    if IsDigit(c) then c as int - '0' as int else 0
  }

  function ParseNat(s: string): nat {
    if s == [] then 0 else ParseNat(Init(s)) * 10 + DigitValue(Last(s))
  }

  lemma {:induction false} DecIsDigits(n: nat)
    ensures Dec(n) != [] && AllDigits(Dec(n))
  {
    if n >= 10 {
      DecIsDigits(n / 10);
    }
  }

  /** Printing a number and reading it back gives the number. */
  lemma {:induction false} ParseDec(n: nat)
    ensures AllDigits(Dec(n)) && ParseNat(Dec(n)) == n
  {
    DecIsDigits(n);
    if n < 10 {
      var s := Dec(n);
      assert Init(s) == [] && ParseNat(Init(s)) == 0;
    } else {
      var p := Dec(n / 10);
      DecIsDigits(n / 10);
      ParseDec(n / 10);
      assert Init(Dec(n)) == p && Last(Dec(n)) == DigitChar(n % 10);
    }
  }

  /** A negative number is its minus sign and the digits of its size. */
  lemma SignInFront(n: int)
    ensures n >= 0 ==> AllDigits(DecInt(n)) && ParseNat(DecInt(n)) == n
    ensures n < 0 ==> DecInt(n)[0] == '-' && AllDigits(DecInt(n)[1..]) && ParseNat(DecInt(n)[1..]) == -n
  {
    ParseDec(if n < 0 then -n else n);
    if n < 0 {
      assert DecInt(n)[1..] == Dec(-n);
    }
  }

  function PowerOfTen(n: nat): nat {
    if n == 0 then 1 else PowerOfTen(n - 1) * 10
  }

  lemma Regroup(d: nat, p: nat, r: nat, v: nat)
    ensures (d * p + r) * 10 + v == d * (p * 10) + (r * 10 + v)
  {
  }

  /** Positional notation, the most significant digit first: a digit counts as often as the power of ten of its
      place. */
  lemma {:induction false} ParsePositional(c: char, rest: string)
    ensures ParseNat([c] + rest) == DigitValue(c) * PowerOfTen(|rest|) + ParseNat(rest)
    ensures IsDigit(c) ==> DigitValue(c) == c as int - 48
  {
    var s := [c] + rest;
    if rest == [] {
      assert Init(s) == [] && ParseNat(Init(s)) == 0;
    } else {
      ParsePositional(c, Init(rest));
      assert Init(s) == [c] + Init(rest);
      Regroup(DigitValue(c), PowerOfTen(|rest| - 1), ParseNat(Init(rest)), DigitValue(Last(rest)));
    }
  }

  // ---- the pattern --------------------------------------------------------------------------------

  const QUOTE: char := '"'
  const COLLECTED: string := "collected_msc"
  const TIME: string := "time_msc"
  const VERSION: string := "data_format_version"

  predicate AllSpace(s: string) {
    forall i :: 0 <= i < |s| ==> IsSpace(s[i])
  }

  predicate NoQuote(s: string) {
    forall i :: 0 <= i < |s| ==> s[i] != QUOTE
  }

  function SkipSpace(s: string): (r: string)
    ensures |r| <= |s|
  {
    if s != [] && IsSpace(s[0]) then SkipSpace(s[1..]) else s
  }

  /** What the patterns skip as whitespace: tabs, line feeds, vertical tabs, form feeds, carriage returns and spaces. */
  lemma SkipsExactly(c: char, rest: string)
    ensures SkipSpace([c] + rest) ==
              if c == '\t' || c == '\n' || c == '\U{0B}' || c == '\U{0C}' || c == '\r' || c == ' ' then SkipSpace(rest)
              else [c] + rest
  {
    assert ([c] + rest)[1..] == rest;
  }

  /** The longest prefix of digits. */
  function Digits(s: string): (d: string)
    ensures |d| <= |s|
  {
    if s != [] && IsDigit(s[0]) then [s[0]] + Digits(s[1..]) else []
  }

  function Quoted(name: string): (q: string)
    ensures |q| == |name| + 2
  {
    [QUOTE] + name + [QUOTE]
  }

  /** What follows the quoted name and its colon at the start of the text. */
  function AfterName(s: string, name: string): (r: Option<string>)
    ensures r.Some? ==> |r.value| < |s|
  {
    if !(Quoted(name) <= s) then None
    else
      var r := SkipSpace(s[|name| + 2..]);
      if r != [] && r[0] == ':' then Some(r[1..]) else None
  }

  /** A number of that name at the start of the text: its digits and what follows them. */
  datatype Match = Match(digits: string, rest: string)

  function MatchStart(s: string, name: string): (m: Option<Match>)
    ensures m.Some? ==> |m.value.rest| < |s|
  {
    var r := AfterName(s, name);
    if r.None? then None
    else
      var d := SkipSpace(r.value);
      if Digits(d) == [] then None else Some(Match(Digits(d), d[|Digits(d)|..]))
  }

  /** All numbers of that name, left to right, each search going on behind the last match. */
  function ScanFor(s: string, name: string): seq<int>
    decreases |s|
  {
    if s == [] then []
    else
      var m := MatchStart(s, name);
      if m.None? then ScanFor(s[1..], name) else [ParseNat(m.value.digits)] + ScanFor(m.value.rest, name)
  }

  /** The collection times the scanner finds. */
  function ScanText(s: string): seq<int> {
    ScanFor(s, COLLECTED)
  }

  // ---- what the pieces of a match are -------------------------------------------------------------

  predicate NotSpaceFirst(s: string) {
    s == [] || !IsSpace(s[0])
  }

  predicate NotDigitFirst(s: string) {
    s == [] || !IsDigit(s[0])
  }

  lemma {:induction false} SkipSpaceOf(ws: string, r: string)
    requires AllSpace(ws) && NotSpaceFirst(r)
    ensures SkipSpace(ws + r) == r
  {
    if ws == [] {
      assert ws + r == r;
    } else {
      assert (ws + r)[1..] == ws[1..] + r;
      SkipSpaceOf(ws[1..], r);
    }
  }

  lemma {:induction false} SkippedIsSpace(s: string) returns (ws: string)
    ensures s == ws + SkipSpace(s) && AllSpace(ws) && NotSpaceFirst(SkipSpace(s))
  {
    if s != [] && IsSpace(s[0]) {
      var w := SkippedIsSpace(s[1..]);
      ws := [s[0]] + w;
      HeadAndTail(s);
      Rejoin2([s[0]], w, SkipSpace(s));
    } else {
      ws := [];
    }
  }

  lemma {:induction false} DigitsOf(d: string, r: string)
    requires AllDigits(d) && NotDigitFirst(r)
    ensures Digits(d + r) == d && (d + r)[|d|..] == r
  {
    if d == [] {
      assert d + r == r;
    } else {
      assert (d + r)[1..] == d[1..] + r;
      DigitsOf(d[1..], r);
      assert [d[0]] + d[1..] == d;
    }
  }

  lemma {:induction false} DigitsAre(s: string) returns (r: string)
    ensures AllDigits(Digits(s)) && s == Digits(s) + r && NotDigitFirst(r)
  {
    if s != [] && IsDigit(s[0]) {
      r := DigitsAre(s[1..]);
      HeadAndTail(s);
      Rejoin2([s[0]], Digits(s[1..]), r);
    } else {
      r := s;
      assert s == [] + r;
    }
  }

  lemma Rejoin2(a: string, b: string, c: string)
    ensures a + (b + c) == (a + b) + c
  {
  }

  lemma Behind(a: string, b: string)
    ensures (a + b)[|a|..] == b
  {
  }

  /** The text of a quoted name with its colon. */
  function Keyed(name: string, gap: string): string {
    Quoted(name) + gap + ":"
  }

  lemma {:induction false} AfterNameOf(name: string, gap: string, r: string)
    requires AllSpace(gap)
    ensures AfterName(Keyed(name, gap) + r, name) == Some(r)
  {
    var s, colon := Keyed(name, gap) + r, ":" + r;
    assert s == Quoted(name) + (gap + colon);
    assert s[|name| + 2..] == gap + colon;
    SkipSpaceOf(gap, colon);
  }

  lemma {:induction false} KeyedRejoins(name: string, gap: string, r: string, t: string)
    requires t == gap + ([':'] + r)
    ensures Quoted(name) + t == Keyed(name, gap) + r
  {
  }

  lemma HeadAndTail(u: string)
    requires u != []
    ensures u == [u[0]] + u[1..]
  {
  }

  lemma PrefixRejoins(q: string, s: string)
    requires q <= s
    ensures s == q + s[|q|..]
  {
  }

  lemma Rejoin3(a: string, b: string, c: string, d: string)
    ensures a + (b + (c + d)) == a + b + c + d
  {
  }

  lemma {:induction false} AfterNameGives(s: string, name: string) returns (gap: string)
    requires AfterName(s, name).Some?
    ensures AllSpace(gap) && s == Keyed(name, gap) + AfterName(s, name).value
  {
    var t, r := s[|name| + 2..], AfterName(s, name).value;
    gap := SkippedIsSpace(t);
    HeadAndTail(SkipSpace(t));
    PrefixRejoins(Quoted(name), s);
    KeyedRejoins(name, gap, r, t);
  }

  lemma {:induction false} MatchOf(name: string, gap: string, gap2: string, digits: string, rest: string)
    requires AllSpace(gap) && AllSpace(gap2) && digits != [] && AllDigits(digits) && NotDigitFirst(rest)
    ensures MatchStart(Keyed(name, gap) + gap2 + digits + rest, name) == Some(Match(digits, rest))
  {
    var r := gap2 + (digits + rest);
    assert Keyed(name, gap) + gap2 + digits + rest == Keyed(name, gap) + r;
    AfterNameOf(name, gap, r);
    SkipSpaceOf(gap2, digits + rest);
    DigitsOf(digits, rest);
  }

  lemma {:induction false} MatchGives(s: string, name: string) returns (gap: string, gap2: string)
    requires MatchStart(s, name).Some?
    ensures var m := MatchStart(s, name).value;
            && AllSpace(gap) && AllSpace(gap2) && m.digits != [] && AllDigits(m.digits) && NotDigitFirst(m.rest)
            && s == Keyed(name, gap) + gap2 + m.digits + m.rest
  {
    var r, m := AfterName(s, name).value, MatchStart(s, name).value;
    gap := AfterNameGives(s, name);
    gap2 := SkippedIsSpace(r);
    var rest := DigitsAre(SkipSpace(r));
    Behind(m.digits, rest);
    assert m.rest == rest;
    Rejoin3(Keyed(name, gap), gap2, m.digits, m.rest);
  }

  // ---- text without a match -----------------------------------------------------------------------

  lemma {:induction false} ScanPastPlain(a: string, b: string, name: string)
    requires NoQuote(a)
    ensures ScanFor(a + b, name) == ScanFor(b, name)
  {
    if a == [] {
      assert a + b == b;
    } else {
      var s := a + b;
      assert s[1..] == a[1..] + b;
      assert s[0] != QUOTE && MatchStart(s, name).None?;
      ScanPastPlain(a[1..], b, name);
    }
  }

  lemma {:induction false} ScanOfPlain(a: string, name: string)
    requires NoQuote(a)
    ensures ScanFor(a, name) == []
  {
    var none: string := [];
    assert a + none == a;
    ScanPastPlain(a, none, name);
  }

  /** Names without quotes are told apart by their closing quote. */
  lemma {:induction false} QuotedUnique(a: string, b: string, rest: string)
    requires NoQuote(a) && NoQuote(b) && Quoted(a) <= Quoted(b) + rest
    ensures a == b
  {
    var q, s := Quoted(a), Quoted(b) + rest;
    assert q[|a| + 1] == QUOTE && s[|b| + 1] == QUOTE;
    assert forall i :: 0 <= i < |a| ==> q[i + 1] == a[i];
    assert forall i :: 0 <= i < |b| ==> s[i + 1] == b[i];
    assert forall i :: 0 <= i < |q| ==> q[i] == s[i];
    assert !(|a| < |b|) && !(|b| < |a|);
  }

  /** A quoted text that is no match is passed over, if what follows does not begin like the name. */
  lemma {:induction false} ScanPastQuoted(text: string, rest: string, name: string)
    requires NoQuote(text) && name != [] && (rest == [] || rest[0] != name[0])
    requires MatchStart(Quoted(text) + rest, name).None?
    ensures ScanFor(Quoted(text) + rest, name) == ScanFor(rest, name)
  {
    var s, closing := Quoted(text) + rest, [QUOTE] + rest;
    assert s[1..] == text + closing;
    ScanPastPlain(text, closing, name);
    assert closing[1..] == rest;
    assert Quoted(name)[1] == name[0] && (rest != [] ==> closing[1] == rest[0]);
    assert !(Quoted(name) <= closing);
  }

  /** Another name is no match. */
  lemma {:induction false} OtherNameIsQuiet(other: string, rest: string, name: string)
    requires NoQuote(other) && NoQuote(name) && other != name
    ensures AfterName(Quoted(other) + rest, name).None?
  {
    if Quoted(name) <= Quoted(other) + rest {
      QuotedUnique(name, other, rest);
    }
  }

  /** A quoted text followed by something that is neither whitespace nor a colon is no key. */
  lemma {:induction false} ValueIsQuiet(value: string, rest: string, name: string)
    requires NoQuote(value) && NoQuote(name) && rest != [] && !IsSpace(rest[0]) && rest[0] != ':'
    ensures AfterName(Quoted(value) + rest, name).None?
  {
    var s := Quoted(value) + rest;
    if Quoted(name) <= s {
      QuotedUnique(name, value, rest);
      Behind(Quoted(value), rest);
      assert SkipSpace(rest) == rest;
    }
  }
}
