/** How the V3 tool recognises a file that needs no repair: it looks for its own marker in the first 4000 characters. */
module RepairGuard {
  import opened Prelude
  import opened TickText
  import AnchorRepair
  import opened RepairedFile
  import opened RepairedText
  import opened RepairRun

  const HEAD: nat := 4000

  /** The characters of a file: every line with its newline. */
  function FileText(texts: seq<string>): string {
    if texts == [] then "" else FileText(Init(texts)) + (Last(texts) + "\n")
  }

  function Head(s: string): string {
    if |s| <= HEAD then s else s[..HEAD]
  }

  ghost predicate Mentions(s: string, name: string) {
    exists i: nat :: MentionsAt(s, name, i)
  }

  predicate MentionsAt(s: string, name: string, i: nat) {
    i + |name| <= |s| && s[i..i + |name|] == name
  }

  /** The file says of itself that its times are UTC. */
  ghost predicate SelfDescribing(texts: seq<string>) {
    Mentions(Head(FileText(texts)), RESTORATION) || Mentions(Head(FileText(texts)), TIMEBASE)
  }

  lemma {:induction false} FileTextLast(a: seq<string>, line: string)
    ensures FileText(a + [line]) == FileText(a) + (line + "\n")
  {
    assert Init(a + [line]) == a;
  }

  lemma Reassociate(a: string, b: string, c: string)
    ensures a + b + c == a + (b + c)
  {
  }

  lemma {:induction false} FileTextConcat(a: seq<string>, b: seq<string>)
    ensures FileText(a + b) == FileText(a) + FileText(b)
  {
    if b == [] {
      assert a + b == a;
    } else {
      var p, line := Init(b), Last(b);
      FileTextConcat(a, p);
      FileTextLast(a + p, line);
      assert a + b == a + p + [line];
      Reassociate(FileText(a), FileText(p), line + "\n");
    }
  }

  lemma MentionedInPart(s: string, part: string, name: string, i: nat)
    requires part <= s && MentionsAt(part, name, i)
    ensures MentionsAt(s, name, i)
  {
    assert s[i..i + |name|] == part[i..i + |name|];
  }

  // ---- the name in the marker ---------------------------------------------------------------------

  lemma NamesAre()
    ensures |TIMEBASE| == 22 && |RESTORATION| == 25 && TIMEBASE[0] == RESTORATION[0] == 'c'
    ensures (forall k :: 0 <= k < |TIMEBASE| ==> TIMEBASE[k] != '\n')
    ensures (forall k :: 0 <= k < |RESTORATION| ==> RESTORATION[k] != '\n')
  {
    assert TIMEBASE == "collected_msc_timebase" && RESTORATION == "collected_msc_restoration";
  }

  /** The text in front of the marker, the first marker line's indent, its quote, and its name up to the end. */
  function UpToName(front: string, indent: string): string {
    front + indent + [QUOTE] + TIMEBASE
  }

  lemma InFront(front: string, all: string, name: string, i: nat)
    requires front <= all && MentionsAt(all, name, i)
    ensures i + |name| <= |front| ==> MentionsAt(front, name, i)
  {
    if i + |name| <= |front| {
      assert front[i..i + |name|] == all[i..i + |name|];
    }
  }

  lemma LetterAt(all: string, name: string, i: nat, k: int)
    requires MentionsAt(all, name, i)
    ensures 0 <= k < |name| ==> name[k] == all[i + k]
  {
    if 0 <= k < |name| {
      assert all[i..i + |name|][k] == all[i + k];
    }
  }

  /** A name with a 'c' in front and without a newline, which `front` does not mention, is in no shorter beginning of
      this text than the one that ends with the time base's name. */
  lemma {:induction false} NameEndsText(front: string, indent: string, s: string, name: string, i: nat)
    requires AllSpace(indent) && (front == "" || Last(front) == '\n')
    requires !Mentions(front, name)
    requires name != "" && name[0] == 'c' && |name| >= 22 && forall k :: 0 <= k < |name| ==> name[k] != '\n'
    requires s <= UpToName(front, indent) && MentionsAt(s, name, i)
    ensures s == UpToName(front, indent)
  {
    var all, n := UpToName(front, indent), |front|;
    NamesAre();
    MentionedInPart(all, s, name, i);
    InFront(front, all, name, i);
    LetterAt(all, name, i, 0);
    LetterAt(all, name, i, n - 1 - i);
    assert forall k :: 0 <= k < |indent| ==> all[n + k] == indent[k] && IsSpace(indent[k]);
    assert all[n + |indent|] == QUOTE;
  }

  lemma EndsLine(texts: seq<string>)
    ensures FileText(texts) == "" || Last(FileText(texts)) == '\n'
  {
  }

  /** A file whose text mentions neither name before the marker: its beginning up to the marker's first name, cut off at
      the limit, mentions one exactly if the limit is not reached before. */
  lemma {:induction false} HeadMentionsExactly(front: string, indent: string, rest: string, all: string)
    requires AllSpace(indent) && (front == "" || Last(front) == '\n') && all == UpToName(front, indent) + rest
    requires !Mentions(front, TIMEBASE) && !Mentions(front, RESTORATION)
    ensures Mentions(Head(all), RESTORATION) || Mentions(Head(all), TIMEBASE) <==> |UpToName(front, indent)| <= HEAD
  {
    var part := UpToName(front, indent);
    NamesAre();
    if |part| <= HEAD {
      assert part <= Head(all);
      assert MentionsAt(part, TIMEBASE, |part| - |TIMEBASE|);
      MentionedInPart(Head(all), part, TIMEBASE, |part| - |TIMEBASE|);
    } else {
      assert Head(all) <= part;
      if i: nat :| MentionsAt(Head(all), RESTORATION, i) {
        NameEndsText(front, indent, Head(all), RESTORATION, i);
      }
      if i: nat :| MentionsAt(Head(all), TIMEBASE, i) {
        NameEndsText(front, indent, Head(all), TIMEBASE, i);
      }
    }
  }

  // ---- the second run -----------------------------------------------------------------------------

  datatype Skip = Described(repaired: bool) | Unfit(reason: SkipReason)

  /** `scan_file`: a file that describes itself is skipped before anything is read of its ticks. */
  ghost function ScanAny(texts: seq<string>, hours: int): Result<seq<AnchorRepair.Raw>, Skip> {
    if SelfDescribing(texts) then Err(Described(Mentions(Head(FileText(texts)), RESTORATION)))
    else
      match ScanFile(texts, hours)
      case Ok(raws) => Ok(raws)
      case Err(reason) => Err(Unfit(reason))
  }

  /** The metadata stands in front of the ticks, and up to the version line says nothing of a repair. */
  ghost predicate Unmarked(texts: seq<string>, v: nat)
    requires v < |texts|
  {
    && v == FirstVersion(ParseAll(texts))
    && (forall k :: 0 <= k < v ==> !Parse(texts[k]).Collected?)
    && !Mentions(FileText(texts[..v + 1]), TIMEBASE) && !Mentions(FileText(texts[..v + 1]), RESTORATION)
  }

  lemma {:induction false} FrontStays(texts: seq<string>, shifts: seq<int>, note: seq<string>, v: nat)
    requires v < |texts| && Outcome(ParseAll(texts), shifts, note).Ok? && Unmarked(texts, v)
    ensures var out := Texts(Outcome(ParseAll(texts), shifts, note).value);
            |out| == |texts| + |note| && out[..v + 1] == texts[..v + 1]
  {
    LineStays(texts, shifts, note, v, v);
    forall k | 0 <= k <= v ensures Texts(Outcome(ParseAll(texts), shifts, note).value)[k] == texts[k] {
      LineStays(texts, shifts, note, v, k);
    }
  }

  lemma {:induction false} LineStays(texts: seq<string>, shifts: seq<int>, note: seq<string>, v: nat, k: nat)
    requires k <= v < |texts| && Outcome(ParseAll(texts), shifts, note).Ok? && Unmarked(texts, v)
    ensures var out := Texts(Outcome(ParseAll(texts), shifts, note).value);
            |out| == |texts| + |note| && out[k] == texts[k]
  {
    RewrittenExactly(ParseAll(texts), shifts, note, k);
    if k < v {
      assert !Parse(texts[k]).Collected?;
    }
  }

  lemma {:induction false} TextAround(out: seq<string>, v: nat, indent: string, tail: string)
    requires v + 1 < |out| && out[v + 1] == indent + ([QUOTE] + TIMEBASE + tail)
    ensures FileText(out) ==
              UpToName(FileText(out[..v + 1]), indent) + (tail + "\n" + FileText(out[v + 2..]))
  {
    var front, line, back := out[..v + 1], out[v + 1], out[v + 2..];
    assert out == front + ([line] + back);
    FileTextConcat(front, [line] + back);
    FileTextConcat([line], back);
    OneLine(line);
    Regrouped(FileText(front), indent, [QUOTE] + TIMEBASE, tail, "\n", FileText(back));
    Joined(FileText(front), indent, [QUOTE], TIMEBASE);
  }

  lemma Joined(a: string, b: string, c: string, d: string)
    ensures a + b + (c + d) == a + b + c + d
  {
  }

  lemma FirstEntry(applied: string, branch: string, all: seq<int>) returns (tail: string)
    ensures MarkerNote(applied, branch, all)[0] == [QUOTE] + TIMEBASE + tail
  {
    tail := [QUOTE] + (": " + (Quoted("utc") + ","));
    assert MarkerEntry(0, applied, branch, all) == [QUOTE] + TIMEBASE + tail;
  }

  lemma {:induction false} MarkerBehindFront(texts: seq<string>, shifts: seq<int>, applied: string, branch: string,
                                             all: seq<int>, v: nat)
    returns (rest: string)
    requires v < |texts| && Unmarked(texts, v)
    requires Outcome(ParseAll(texts), shifts, MarkerNote(applied, branch, all)).Ok?
    ensures var out := Texts(Outcome(ParseAll(texts), shifts, MarkerNote(applied, branch, all)).value);
            FileText(out) == UpToName(FileText(texts[..v + 1]), ParseAll(texts)[v].indent) + rest
  {
    var note := MarkerNote(applied, branch, all);
    var out := Texts(Outcome(ParseAll(texts), shifts, note).value);
    FrontStays(texts, shifts, note, v);
    BlockExactly(ParseAll(texts), shifts, note, 0);
    var tail := FirstEntry(applied, branch, all);
    TextAround(out, v, ParseAll(texts)[v].indent, tail);
    rest := tail + "\n" + FileText(out[v + 2..]);
  }

  lemma OneLine(line: string)
    ensures FileText([line]) == line + "\n"
  {
    assert Init([line]) == [] && FileText([]) == "";
  }

  lemma Regrouped(a: string, b: string, c: string, d: string, e: string, f: string)
    ensures a + (((b + (c + d)) + e) + f) == (a + b + c) + (d + e + f)
  {
  }

  /** A second run skips the file that the first one repaired exactly when everything up to the end of the marker's
      first name lies within the first 4000 characters. */
  lemma {:induction false} SecondRunSkipsExactly(texts: seq<string>, shifts: seq<int>, applied: string, branch: string,
                                                 all: seq<int>, hours: int, v: nat)
    requires v < |texts| && Unmarked(texts, v)
    requires Outcome(ParseAll(texts), shifts, MarkerNote(applied, branch, all)).Ok?
    ensures var scan := ScanAny(Texts(Outcome(ParseAll(texts), shifts, MarkerNote(applied, branch, all)).value), hours);
            scan.Err? && scan.error.Described? <==>
              |FileText(texts[..v + 1])| + |Parse(texts[v]).indent| + 23 <= 4000
  {
    var rest := MarkerBehindFront(texts, shifts, applied, branch, all, v);
    var out := Texts(Outcome(ParseAll(texts), shifts, MarkerNote(applied, branch, all)).value);
    var indent := ParseAll(texts)[v].indent;
    VersionIndent(texts[v]);
    EndsLine(texts[..v + 1]);
    NamesAre();
    HeadMentionsExactly(FileText(texts[..v + 1]), indent, rest, FileText(out));
  }

  // ---- a repair that is not recognised --------------------------------------------------------------

  lemma NeedsFirstLetter(s: string, name: string)
    requires name != "" && forall i :: 0 <= i < |s| ==> s[i] != name[0]
    ensures !Mentions(s, name)
  {
    forall i: nat ensures !MentionsAt(s, name, i) {
      if i + |name| <= |s| {
        assert s[i..i + |name|][0] == s[i];
      }
    }
  }

  lemma {:induction false} LinesOfThree(lines: seq<Line>)
    requires |lines| == 3 && lines[0].Other? && lines[1].Version? && lines[2].Collected?
    ensures |Values(lines)| == 1 && FirstVersion(lines) == 1
  {
    var two := Init(lines);
    var one := Init(two);
    assert Init(one) == [] && Last(one) == lines[0] && Last(two) == lines[1];
    assert Values(Init(one)) == [] && Values(one) == [] && Values(two) == [];
  }

  lemma {:induction false} FrontOfTwo(a: string, b: string)
    ensures FileText([a, b]) == a + "\n" + (b + "\n")
  {
    assert [a] + [b] == [a, b];
    OneLine(a);
    FileTextLast([a], b);
  }

  /** A first line of 4000 spaces, then the version and one tick: the file is rewritten, and the next run does not see
      that it was. */
  lemma {:induction false} FarMarkerCounterexample(texts: seq<string>, applied: string, note: seq<string>)
    requires texts == [seq(4000, _ => ' '), Quoted(VERSION) + ": 1,", Quoted(COLLECTED) + ": 5"]
    requires note == MarkerNote(applied, "noop", [0])
    ensures Outcome(ParseAll(texts), [0], note).Ok?
    ensures !SelfDescribing(Texts(Outcome(ParseAll(texts), [0], note).value))
  {
    ThreeKinds(texts);
    LinesOfThree(ParseAll(texts));
    OutcomeExactly(ParseAll(texts), [0], note);
    FrontSaysNothing(texts);
    SecondRunSkipsExactly(texts, [0], applied, "noop", [0], 0, 1);
  }

  lemma {:induction false} ThreeKinds(texts: seq<string>)
    requires texts == [seq(4000, _ => ' '), Quoted(VERSION) + ": 1,", Quoted(COLLECTED) + ": 5"]
    ensures Parse(texts[0]).Other? && Parse(texts[1]).Version? && Parse(texts[2]).Collected?
  {
    PlainIsSilent(texts[0]);
    VersionLineParses(texts[1]);
    TimeLineParses(texts[2]);
  }

  lemma {:induction false} FrontSaysNothing(texts: seq<string>)
    requires texts == [seq(4000, _ => ' '), Quoted(VERSION) + ": 1,", Quoted(COLLECTED) + ": 5"]
    ensures var front := FileText(texts[..2]);
            |front| >= 4000 && !Mentions(front, TIMEBASE) && !Mentions(front, RESTORATION)
  {
    var blank, line := texts[0], texts[1];
    assert texts[..2] == [blank, line];
    FrontOfTwo(blank, line);
    NamesAre();
    assert VERSION == "data_format_version" && forall i :: 0 <= i < |VERSION| ==> VERSION[i] != 'c';
    assert forall i :: 0 <= i < |line| ==> line[i] != 'c';
    NeedsFirstLetter(FileText(texts[..2]), TIMEBASE);
    NeedsFirstLetter(FileText(texts[..2]), RESTORATION);
  }
}
