/** Stamping a constant field into the envelopes of a raw JSONL file, at the level of bytes. */
module EnvelopeStamp {
  import opened Prelude

  newtype byte = b: int | 0 <= b < 256

  type Bytes = seq<byte>

  const NEWLINE: byte := 10
  const BRACE: byte := 123

  predicate IsSpace(b: byte) {
    9 <= b <= 13 || b == 32
  }

  // ---- lines ------------------------------------------------------------------------------------

  predicate Open(ls: seq<Bytes>) {
    ls != [] && Last(ls) != [] && Last(Last(ls)) != NEWLINE
  }

  function Feed(ls: seq<Bytes>, b: byte): seq<Bytes> {
    if Open(ls) then Init(ls) + [Last(ls) + [b]] else ls + [[b]]
  }

  /** Binary file iteration: lines end after each newline byte, which they keep. */
  function Lines(bytes: Bytes): seq<Bytes> {
    if bytes == [] then [] else Feed(Lines(Init(bytes)), Last(bytes))
  }

  function Join(ls: seq<Bytes>): Bytes {
    if ls == [] then [] else Join(Init(ls)) + Last(ls)
  }

  predicate IsLine(l: Bytes) {
    l != [] && forall i :: 0 <= i < |l| - 1 ==> l[i] != NEWLINE
  }

  /** Lines as iteration yields them: only the last may lack its newline. */
  predicate WellSplit(ls: seq<Bytes>) {
    && (forall k :: 0 <= k < |ls| ==> IsLine(ls[k]))
    && (forall k :: 0 <= k < |ls| - 1 ==> Last(ls[k]) == NEWLINE)
  }

  lemma {:induction false} OpenLineGrows(l: Bytes, b: byte)
    requires IsLine(l) && Last(l) != NEWLINE
    ensures IsLine(l + [b])
  {
    var m := l + [b];
    assert forall i :: 0 <= i < |l| ==> m[i] == l[i] && (i < |l| - 1 || l[i] == Last(l));
  }

  lemma {:induction false} WellSplitAppend(ls: seq<Bytes>, l: Bytes)
    requires WellSplit(ls) && !Open(ls) && IsLine(l)
    ensures WellSplit(ls + [l])
  {
    var r := ls + [l];
    assert forall k :: 0 <= k < |ls| ==> r[k] == ls[k] && IsLine(ls[k]);
    assert ls != [] ==> Last(ls) == ls[|ls| - 1];
  }

  lemma {:induction false} FeedWellSplit(ls: seq<Bytes>, b: byte)
    requires WellSplit(ls)
    ensures WellSplit(Feed(ls, b))
  {
    if Open(ls) {
      OpenLineGrows(Last(ls), b);
      var p := Init(ls);
      assert WellSplit(p);
      assert p != [] ==> Last(p) == ls[|ls| - 2];
      WellSplitAppend(p, Last(ls) + [b]);
    } else {
      WellSplitAppend(ls, [b]);
    }
  }

  lemma JoinAppend(ls: seq<Bytes>, l: Bytes)
    ensures Join(ls + [l]) == Join(ls) + l
  {
    assert Init(ls + [l]) == ls;
  }

  lemma FeedJoins(ls: seq<Bytes>, b: byte)
    ensures Join(Feed(ls, b)) == Join(ls) + [b]
  {
    if Open(ls) {
      JoinAppend(Init(ls), Last(ls) + [b]);
      assert Join(Init(ls)) + (Last(ls) + [b]) == Join(ls) + [b];
    } else {
      JoinAppend(ls, [b]);
    }
  }

  lemma {:induction false} LinesWellSplit(bytes: Bytes)
    ensures WellSplit(Lines(bytes))
  {
    if bytes != [] {
      LinesWellSplit(Init(bytes));
      FeedWellSplit(Lines(Init(bytes)), Last(bytes));
    }
  }

  lemma {:induction false} LinesJoin(bytes: Bytes)
    ensures Join(Lines(bytes)) == bytes
  {
    if bytes != [] {
      var p, b := Init(bytes), Last(bytes);
      var ls := Lines(p);
      calc {
        Join(Lines(bytes));
        Join(Feed(ls, b));
        { FeedJoins(ls, b); }
        Join(ls) + [b];
        { LinesJoin(p); }
        p + [b];
        bytes;
      }
    }
  }

  /** Iterating a file yields its bytes, cut after each newline. */
  lemma {:induction false} LinesPartition(bytes: Bytes)
    ensures WellSplit(Lines(bytes)) && Join(Lines(bytes)) == bytes
  {
    LinesWellSplit(bytes);
    LinesJoin(bytes);
  }

  lemma {:induction false} FeedOpen(ls: seq<Bytes>, l: Bytes, b: byte)
    requires l != [] && Last(l) != NEWLINE
    ensures Feed(ls + [l], b) == ls + [l + [b]]
  {
    assert Init(ls + [l]) == ls && Last(ls + [l]) == l;
  }

  lemma {:induction false} LinesAppend(a: Bytes, l: Bytes)
    requires IsLine(l) && !Open(Lines(a))
    ensures Lines(a + l) == Lines(a) + [l]
  {
    var p, b := Init(l), Last(l);
    assert Init(a + l) == a + p && Last(a + l) == b;
    assert p + [b] == l;
    if p == [] {
      assert a + p == a;
    } else {
      assert IsLine(p) && Last(p) != NEWLINE;
      LinesAppend(a, p);
      FeedOpen(Lines(a), p, b);
    }
  }

  /** Joining and splitting again gives the lines back. */
  lemma {:induction false} LinesOfJoin(ls: seq<Bytes>)
    requires WellSplit(ls)
    ensures Lines(Join(ls)) == ls
  {
    if ls != [] {
      var p := Init(ls);
      assert WellSplit(p);
      LinesOfJoin(p);
      assert p != [] ==> Last(p) == ls[|ls| - 2];
      LinesAppend(Join(p), Last(ls));
      assert p + [Last(ls)] == ls;
    }
  }

  /** Every line but the last ends with a line feed, byte 10, and none holds one before its end. */
  lemma {:induction false} LinesEndAtFeeds(bytes: Bytes, k: nat)
    requires k < |Lines(bytes)|
    ensures var l := Lines(bytes)[k];
            && l != [] && (forall i :: 0 <= i < |l| - 1 ==> l[i] != 10)
            && (k < |Lines(bytes)| - 1 ==> Last(l) == 10)
  {
    LinesWellSplit(bytes);
  }

  // ---- one line ---------------------------------------------------------------------------------

  predicate IsBlank(l: Bytes) {
    forall i :: 0 <= i < |l| ==> IsSpace(l[i])
  }

  predicate OccursAt(l: Bytes, key: Bytes, i: nat) {
    i + |key| <= |l| && l[i..i + |key|] == key
  }

  predicate Contains(l: Bytes, key: Bytes) {
    exists i | 0 <= i <= |l| :: OccursAt(l, key, i)
  }

  /** The position of the first opening brace, or the length. */
  function FirstBrace(l: Bytes): (i: nat)
    ensures i <= |l| && (i < |l| ==> l[i] == BRACE)
    ensures forall j :: 0 <= j < i ==> l[j] != BRACE
  {
    if l == [] then 0
    else
      var i := FirstBrace(Init(l));
      if i < |l| - 1 || Last(l) == BRACE then i else |l|
  }

  datatype Kind = Blank | Kept | Stamped | NoEnvelope

  function KindOf(l: Bytes, key: Bytes): Kind {
    if IsBlank(l) then Blank
    else if Contains(l, key) then Kept
    else if FirstBrace(l) < |l| then Stamped
    else NoEnvelope
  }

  function Insert(l: Bytes, token: Bytes): Bytes
    requires FirstBrace(l) < |l|
  {
    l[..FirstBrace(l) + 1] + token + l[FirstBrace(l) + 1..]
  }

  /** Cut the token out again, right after the first brace. */
  function Remove(l: Bytes, size: nat): Bytes
    requires FirstBrace(l) + 1 + size <= |l|
  {
    l[..FirstBrace(l) + 1] + l[FirstBrace(l) + 1 + size..]
  }

  function StampLine(l: Bytes, token: Bytes, key: Bytes): Bytes {
    if KindOf(l, key) == Stamped then Insert(l, token) else l
  }

  /** A token as the tool builds it: it starts with the key and holds no newline. */
  predicate IsToken(token: Bytes, key: Bytes) {
    key <= token && NEWLINE !in token
  }

  const QUOTE: byte := 34
  const COMMA: byte := 44
  const COLON: byte := 58
  const SPACE: byte := 32

  /** The presence marker of a field: its quoted name and a colon. */
  function KeyOf(field: Bytes): Bytes {
    [QUOTE] + field + [QUOTE, COLON]
  }

  /** The complete insert for a constant string value. */
  function TokenOf(field: Bytes, value: Bytes): Bytes {
    KeyOf(field) + [SPACE, QUOTE] + value + [QUOTE, COMMA, SPACE]
  }

  /** Every field and value without a newline make a token of the kind stamping relies on, and no other do. */
  lemma TokenOfIsToken(field: Bytes, value: Bytes)
    ensures |TokenOf(field, value)| > 0
    ensures IsToken(TokenOf(field, value), KeyOf(field)) <==> NEWLINE !in field && NEWLINE !in value
  {
    var t := TokenOf(field, value);
    assert forall i :: 0 <= i < |field| ==> t[i + 1] == field[i];
    assert forall i :: 0 <= i < |value| ==> t[|field| + 5 + i] == value[i];
  }

  lemma FirstBraceIs(l: Bytes, i: nat)
    requires i < |l| && l[i] == BRACE && forall j :: 0 <= j < i ==> l[j] != BRACE
    ensures FirstBrace(l) == i
  {
  }

  lemma {:induction false} InsertedBytes(l: Bytes, token: Bytes, i: nat)
    requires FirstBrace(l) < |l| && i < |Insert(l, token)|
    ensures var b := FirstBrace(l);
            Insert(l, token)[i] ==
              if i <= b then l[i] else if i <= b + |token| then token[i - b - 1] else l[i - |token|]
  {
  }

  lemma {:induction false} InsertedIsLine(l: Bytes, token: Bytes, i: nat)
    requires IsLine(l) && FirstBrace(l) < |l| && NEWLINE !in token && i < |Insert(l, token)| - 1
    ensures Insert(l, token)[i] != NEWLINE
  {
    InsertedBytes(l, token, i);
  }

  /** Inserting a newline-free token into a line gives one line. */
  lemma {:induction false} InsertedLine(l: Bytes, token: Bytes)
    requires IsLine(l) && FirstBrace(l) < |l| && NEWLINE !in token
    ensures IsLine(Insert(l, token))
    ensures Last(l) == NEWLINE ==> Last(Insert(l, token)) == NEWLINE
  {
    var s := Insert(l, token);
    forall i | 0 <= i < |s| - 1 ensures s[i] != NEWLINE {
      InsertedIsLine(l, token, i);
    }
    InsertedBytes(l, token, |s| - 1);
  }

  lemma OccursPrefix(l: Bytes, token: Bytes, key: Bytes, i: nat)
    requires OccursAt(l, token, i) && key <= token
    ensures OccursAt(l, key, i) && Contains(l, key)
  {
    assert l[i..i + |key|] == l[i..i + |token|][..|key|];
    assert 0 <= i <= |l| && OccursAt(l, key, i);
  }

  lemma {:induction false} InsertKeepsBrace(l: Bytes, token: Bytes)
    requires FirstBrace(l) < |l|
    ensures FirstBrace(Insert(l, token)) == FirstBrace(l)
  {
    var b, s := FirstBrace(l), Insert(l, token);
    assert forall j :: 0 <= j <= b ==> s[j] == l[j];
    FirstBraceIs(s, b);
  }

  lemma CutOut(a: Bytes, token: Bytes, c: Bytes)
    ensures var s := a + token + c;
            && s[|a|..|a| + |token|] == token
            && s[..|a|] + s[|a| + |token|..] == a + c
  {
  }

  /** The stamped line carries the token behind its first brace, and cutting it out gives the line back. */
  lemma {:induction false} RemoveInserted(l: Bytes, token: Bytes)
    requires FirstBrace(l) < |l|
    ensures var s := Insert(l, token);
            && FirstBrace(s) == FirstBrace(l) && OccursAt(s, token, FirstBrace(s) + 1)
            && Remove(s, |token|) == l
  {
    var b := FirstBrace(l);
    InsertKeepsBrace(l, token);
    CutOut(l[..b + 1], token, l[b + 1..]);
    assert l[..b + 1] + l[b + 1..] == l;
  }

  lemma BraceIsNotBlank(l: Bytes)
    requires FirstBrace(l) < |l|
    ensures !IsBlank(l)
  {
    assert !IsSpace(l[FirstBrace(l)]);
  }

  /** A line that has been stamped is one the next run keeps. */
  lemma StampedIsKept(l: Bytes, token: Bytes, key: Bytes)
    requires key <= token && KindOf(l, key) == Stamped
    ensures KindOf(StampLine(l, token, key), key) == Kept
  {
    var s := Insert(l, token);
    RemoveInserted(l, token);
    OccursPrefix(s, token, key, FirstBrace(s) + 1);
    BraceIsNotBlank(s);
  }

  // ---- the whole file ---------------------------------------------------------------------------

  function StampLines(ls: seq<Bytes>, token: Bytes, key: Bytes): (r: seq<Bytes>)
    ensures |r| == |ls| && forall k :: 0 <= k < |ls| ==> r[k] == StampLine(ls[k], token, key)
  {
    if ls == [] then [] else StampLines(Init(ls), token, key) + [StampLine(Last(ls), token, key)]
  }

  function CountKind(ls: seq<Bytes>, key: Bytes, kind: Kind): nat {
    if ls == [] then 0 else CountKind(Init(ls), key, kind) + if KindOf(Last(ls), key) == kind then 1 else 0
  }

  predicate Stampable(ls: seq<Bytes>, key: Bytes) {
    forall k :: 0 <= k < |ls| ==> KindOf(ls[k], key) != NoEnvelope
  }

  /** The bytes of a stamped file. */
  function StampBytes(bytes: Bytes, token: Bytes, key: Bytes): Bytes {
    Join(StampLines(Lines(bytes), token, key))
  }

  lemma StampLinesWellSplit(ls: seq<Bytes>, token: Bytes, key: Bytes)
    requires WellSplit(ls) && NEWLINE !in token
    ensures WellSplit(StampLines(ls, token, key))
  {
    var r := StampLines(ls, token, key);
    forall k | 0 <= k < |ls| ensures IsLine(r[k]) && (Last(ls[k]) == NEWLINE ==> Last(r[k]) == NEWLINE) {
      if KindOf(ls[k], key) == Stamped {
        InsertedLine(ls[k], token);
      }
    }
  }

  /** The stamped file, read back, is the stamped lines. */
  lemma StampedFileLines(bytes: Bytes, token: Bytes, key: Bytes)
    requires NEWLINE !in token
    ensures Lines(StampBytes(bytes, token, key)) == StampLines(Lines(bytes), token, key)
  {
    LinesPartition(bytes);
    StampLinesWellSplit(Lines(bytes), token, key);
    LinesOfJoin(StampLines(Lines(bytes), token, key));
  }

  lemma StampLineTwice(l: Bytes, token: Bytes, key: Bytes)
    requires key <= token
    ensures var s := StampLine(l, token, key);
            && KindOf(s, key) == (if KindOf(l, key) == Stamped then Kept else KindOf(l, key))
            && StampLine(s, token, key) == s
  {
    if KindOf(l, key) == Stamped {
      StampedIsKept(l, token, key);
    }
  }

  lemma {:induction false} StampedCounts(ls: seq<Bytes>, token: Bytes, key: Bytes)
    requires key <= token
    ensures var r := StampLines(ls, token, key);
            && CountKind(r, key, Stamped) == 0
            && CountKind(r, key, Kept) == CountKind(ls, key, Kept) + CountKind(ls, key, Stamped)
  {
    if ls != [] {
      var p, l := Init(ls), Last(ls);
      StampedCounts(p, token, key);
      StampLineTwice(l, token, key);
      assert Init(StampLines(ls, token, key)) == StampLines(p, token, key);
    }
  }

  /** Stamping twice is stamping once: the second run changes no byte, stamps nothing, keeps every envelope. */
  lemma StampTwice(bytes: Bytes, token: Bytes, key: Bytes)
    requires IsToken(token, key)
    ensures var once := StampBytes(bytes, token, key);
            && StampBytes(once, token, key) == once
            && (Stampable(Lines(once), key) <==> Stampable(Lines(bytes), key))
            && CountKind(Lines(once), key, Stamped) == 0
            && CountKind(Lines(once), key, Kept) ==
                 CountKind(Lines(bytes), key, Kept) + CountKind(Lines(bytes), key, Stamped)
  {
    var ls := Lines(bytes);
    var r := StampLines(ls, token, key);
    StampedFileLines(bytes, token, key);
    StampedCounts(ls, token, key);
    forall k | 0 <= k < |r|
      ensures StampLine(r[k], token, key) == r[k]
      ensures KindOf(r[k], key) == NoEnvelope <==> KindOf(ls[k], key) == NoEnvelope
    {
      StampLineTwice(ls[k], token, key);
    }
    assert StampLines(r, token, key) == r;
  }

  lemma {:induction false} StampLineSize(l: Bytes, token: Bytes, key: Bytes)
    ensures |StampLine(l, token, key)| == |l| + if KindOf(l, key) == Stamped then |token| else 0
  {
  }

  lemma OneMore(n: nat, m: nat)
    ensures (n + 1) * m == n * m + m
  {
  }

  lemma {:induction false} StampLinesAppend(ls: seq<Bytes>, l: Bytes, token: Bytes, key: Bytes)
    ensures Join(StampLines(ls + [l], token, key)) == Join(StampLines(ls, token, key)) + StampLine(l, token, key)
  {
    assert Init(ls + [l]) == ls;
    JoinAppend(StampLines(ls, token, key), StampLine(l, token, key));
  }

  lemma {:induction false} CountAppend(ls: seq<Bytes>, l: Bytes, key: Bytes, kind: Kind)
    ensures CountKind(ls + [l], key, kind) == CountKind(ls, key, kind) + if KindOf(l, key) == kind then 1 else 0
  {
    assert Init(ls + [l]) == ls;
  }

  /** The bytes that stamping adds. */
  function AddedBytes(ls: seq<Bytes>, token: Bytes, key: Bytes): nat {
    if ls == [] then 0 else AddedBytes(Init(ls), token, key) + if KindOf(Last(ls), key) == Stamped then |token| else 0
  }

  /** The size of a file, line by line. */
  function SizeOf(ls: seq<Bytes>): nat {
    if ls == [] then 0 else SizeOf(Init(ls)) + |Last(ls)|
  }

  lemma {:induction false} SizeIsJoin(ls: seq<Bytes>)
    ensures |Join(ls)| == SizeOf(ls)
  {
    if ls != [] {
      SizeIsJoin(Init(ls));
    }
  }

  lemma {:induction false} StampAdds(ls: seq<Bytes>, token: Bytes, key: Bytes)
    ensures SizeOf(StampLines(ls, token, key)) == SizeOf(ls) + AddedBytes(ls, token, key)
  {
    if ls != [] {
      StampAdds(Init(ls), token, key);
      StampLineSize(Last(ls), token, key);
      assert Init(StampLines(ls, token, key)) == StampLines(Init(ls), token, key);
    }
  }

  lemma {:induction false} AddedIsCount(ls: seq<Bytes>, token: Bytes, key: Bytes)
    ensures AddedBytes(ls, token, key) == CountKind(ls, key, Stamped) * |token|
  {
    if ls != [] {
      AddedIsCount(Init(ls), token, key);
      OneMore(CountKind(Init(ls), key, Stamped), |token|);
    }
  }

  /** Only the token is added, once for each stamped envelope. */
  lemma {:induction false} StampedFileSize(bytes: Bytes, token: Bytes, key: Bytes)
    ensures |StampBytes(bytes, token, key)| == |bytes| + CountKind(Lines(bytes), key, Stamped) * |token|
  {
    LinesPartition(bytes);
    SizeIsJoin(Lines(bytes));
    SizeIsJoin(StampLines(Lines(bytes), token, key));
    StampAdds(Lines(bytes), token, key);
    AddedIsCount(Lines(bytes), token, key);
  }

  // ---- taking the stamp out again ---------------------------------------------------------------

  predicate CarriesToken(l: Bytes, token: Bytes) {
    OccursAt(l, token, FirstBrace(l) + 1)
  }

  /** Cut the token out wherever it stands behind the first brace of a line. */
  function Unstamp(ls: seq<Bytes>, token: Bytes): (r: seq<Bytes>)
    ensures |r| == |ls|
    ensures forall k :: 0 <= k < |ls| ==> r[k] == if CarriesToken(ls[k], token) then Remove(ls[k], |token|) else ls[k]
  {
    if ls == [] then []
    else
      var l := Last(ls);
      Unstamp(Init(ls), token) + [if CarriesToken(l, token) then Remove(l, |token|) else l]
  }

  /** Cut the token out of the lines a run stamped, by their positions. */
  function RemoveAt(ls: seq<Bytes>, stamped: set<nat>, size: nat): (r: seq<Bytes>)
    requires forall k :: k in stamped && k < |ls| ==> FirstBrace(ls[k]) + 1 + size <= |ls[k]|
    ensures |r| == |ls|
    ensures forall k :: 0 <= k < |ls| ==> r[k] == if k in stamped then Remove(ls[k], size) else ls[k]
  {
    seq(|ls|, k requires 0 <= k < |ls| => if k in stamped then Remove(ls[k], size) else ls[k])
  }

  function StampedAt(ls: seq<Bytes>, key: Bytes): set<nat> {
    set k | 0 <= k < |ls| && KindOf(ls[k], key) == Stamped
  }

  lemma {:induction false} RemoveStamped(l: Bytes, token: Bytes, key: Bytes)
    requires KindOf(l, key) == Stamped
    ensures var s := StampLine(l, token, key);
            CarriesToken(s, token) && Remove(s, |token|) == l
  {
    RemoveInserted(l, token);
  }

  lemma {:induction false} RemoveAtRestores(ls: seq<Bytes>, token: Bytes, key: Bytes)
    ensures var after := StampLines(ls, token, key);
            && (forall k :: k in StampedAt(ls, key) ==> k < |after| && CarriesToken(after[k], token))
            && RemoveAt(after, StampedAt(ls, key), |token|) == ls
  {
    var after := StampLines(ls, token, key);
    forall k | k in StampedAt(ls, key)
      ensures CarriesToken(after[k], token) && Remove(after[k], |token|) == ls[k]
    {
      RemoveStamped(ls[k], token, key);
    }
  }

  /** Cutting the token out of the lines a run stamped restores the file byte for byte. */
  lemma {:induction false} RemovalRestores(bytes: Bytes, token: Bytes, key: Bytes)
    requires IsToken(token, key)
    ensures var ls := Lines(bytes);
            var after := Lines(StampBytes(bytes, token, key));
            && (forall k :: k in StampedAt(ls, key) ==> k < |after| && CarriesToken(after[k], token))
            && Join(RemoveAt(after, StampedAt(ls, key), |token|)) == bytes
  {
    LinesJoin(bytes);
    StampedFileLines(bytes, token, key);
    RemoveAtRestores(Lines(bytes), token, key);
  }

  lemma {:induction false} JoinShrinks(a: seq<Bytes>, b: seq<Bytes>)
    requires |a| == |b| && forall k :: 0 <= k < |a| ==> |a[k]| <= |b[k]|
    ensures |Join(a)| <= |Join(b)|
    ensures (exists k :: 0 <= k < |a| && |a[k]| < |b[k]|) ==> |Join(a)| < |Join(b)|
  {
    if a != [] {
      JoinShrinks(Init(a), Init(b));
      assert forall k :: 0 <= k < |a| - 1 ==> a[k] == Init(a)[k] && b[k] == Init(b)[k];
    }
  }

  /** One line, stamped and then cut blindly, comes back unless it carried the token from the start. */
  lemma UnstampLine(l: Bytes, token: Bytes, key: Bytes)
    requires key <= token && |token| > 0
    ensures var s := StampLine(l, token, key);
            var u := if CarriesToken(s, token) then Remove(s, |token|) else s;
            if CarriesToken(l, token) then |u| < |l| else u == l
  {
    if CarriesToken(l, token) {
      OccursPrefix(l, token, key, FirstBrace(l) + 1);
    }
    if KindOf(l, key) == Stamped {
      RemoveInserted(l, token);
    }
  }

  lemma {:induction false} UnstampedLines(ls: seq<Bytes>, token: Bytes, key: Bytes)
    requires key <= token && |token| > 0
    ensures var u := Unstamp(StampLines(ls, token, key), token);
            forall k :: 0 <= k < |ls| ==> if CarriesToken(ls[k], token) then |u[k]| < |ls[k]| else u[k] == ls[k]
  {
    var u := Unstamp(StampLines(ls, token, key), token);
    forall k | 0 <= k < |ls| ensures if CarriesToken(ls[k], token) then |u[k]| < |ls[k]| else u[k] == ls[k] {
      UnstampLine(ls[k], token, key);
    }
  }

  lemma {:induction false} UnstampedJoin(ls: seq<Bytes>, u: seq<Bytes>, token: Bytes)
    requires |u| == |ls|
    requires forall k :: 0 <= k < |ls| ==> if CarriesToken(ls[k], token) then |u[k]| < |ls[k]| else u[k] == ls[k]
    ensures Join(u) == Join(ls) <==> forall k :: 0 <= k < |ls| ==> !CarriesToken(ls[k], token)
  {
    if k :| 0 <= k < |ls| && CarriesToken(ls[k], token) {
      JoinShrinks(u, ls);
    } else {
      assert u == ls;
    }
  }

  /** Cutting blindly, without knowing what was stamped, restores the file exactly when no line carried the token
      before. */
  lemma {:induction false} BlindRemovalRestoresExactly(bytes: Bytes, token: Bytes, key: Bytes)
    requires IsToken(token, key) && |token| > 0
    ensures Join(Unstamp(Lines(StampBytes(bytes, token, key)), token)) == bytes
            <==> forall k :: 0 <= k < |Lines(bytes)| ==> !CarriesToken(Lines(bytes)[k], token)
  {
    var ls := Lines(bytes);
    LinesPartition(bytes);
    StampedFileLines(bytes, token, key);
    UnstampedLines(ls, token, key);
    UnstampedJoin(ls, Unstamp(StampLines(ls, token, key), token), token);
  }

  // ---- the tool ---------------------------------------------------------------------------------

  datatype Counts = Counts(lines: nat, inserted: nat, kept: nat)

  datatype Failure = NoBrace | SizeMismatch

  function CountLines(ls: seq<Bytes>): nat {
    if ls == [] then 0 else CountLines(Init(ls)) + if IsBlank(Last(ls)) then 0 else 1
  }

  /** Lines seen, envelopes stamped, envelopes that already carried the key. */
  function Report(ls: seq<Bytes>, key: Bytes): Counts {
    Counts(CountLines(ls), CountKind(ls, key, Stamped), CountKind(ls, key, Kept))
  }

  /** In a file that can be stamped, every line seen was either stamped or kept. */
  lemma {:induction false} LinesAreStampedOrKept(ls: seq<Bytes>, key: Bytes)
    requires Stampable(ls, key)
    ensures var c := Report(ls, key); c.lines == c.inserted + c.kept
  {
    if ls != [] {
      var p := Init(ls);
      assert forall k :: 0 <= k < |p| ==> p[k] == ls[k];
      LinesAreStampedOrKept(p, key);
      assert KindOf(ls[|ls| - 1], key) != NoEnvelope;
    }
  }

  /** What the pass has written and counted after the lines `ls`. */
  ghost predicate Progress(ls: seq<Bytes>, token: Bytes, key: Bytes, dryRun: bool, dst: Bytes, counts: Counts) {
    && Stampable(ls, key)
    && dst == (if dryRun then [] else Join(StampLines(ls, token, key)))
    && counts == Report(ls, key)
  }

  /** What one line does to the counters. */
  function Bumped(c: Counts, kind: Kind): Counts {
    match kind
    case Blank => c
    case Kept => Counts(c.lines + 1, c.inserted, c.kept + 1)
    case Stamped => Counts(c.lines + 1, c.inserted + 1, c.kept)
    case NoEnvelope => c.(lines := c.lines + 1)
  }

  lemma {:induction false} ReportAppend(ls: seq<Bytes>, l: Bytes, key: Bytes)
    ensures Report(ls + [l], key) == Bumped(Report(ls, key), KindOf(l, key))
  {
    assert Init(ls + [l]) == ls;
    CountAppend(ls, l, key, Stamped);
    CountAppend(ls, l, key, Kept);
  }

  lemma StampableAppend(ls: seq<Bytes>, l: Bytes, key: Bytes)
    ensures Stampable(ls + [l], key) <==> Stampable(ls, key) && KindOf(l, key) != NoEnvelope
  {
    var more := ls + [l];
    assert more[|ls|] == l && forall k :: 0 <= k < |ls| ==> more[k] == ls[k];
  }

  lemma {:induction false} ProgressStep(
    p: seq<Bytes>, l: Bytes, ls: seq<Bytes>, token: Bytes, key: Bytes, dryRun: bool, dst: Bytes, c: Counts)
    requires Progress(p, token, key, dryRun, dst, c) && KindOf(l, key) != NoEnvelope && ls == p + [l]
    ensures var next := if dryRun then dst else dst + StampLine(l, token, key);
            Progress(ls, token, key, dryRun, next, Bumped(c, KindOf(l, key)))
  {
    StampLinesAppend(p, l, token, key);
    StampableAppend(p, l, key);
    ReportAppend(p, l, key);
  }

  /** One line of the pass: what to write for it and which counter it moves. */
  method StampOne(l: Bytes, token: Bytes, key: Bytes) returns (kind: Kind, written: Bytes)
    ensures kind == KindOf(l, key) && written == StampLine(l, token, key)
  {
    written := l;
    if IsBlank(l) {
      return Blank, l;
    }
    if Contains(l, key) {
      return Kept, l;
    }
    var brace := FirstBrace(l);
    if brace == |l| {
      return NoEnvelope, l;
    }
    return Stamped, l[..brace + 1] + token + l[brace + 1..];
  }

  ghost predicate PassedUpTo(ls: seq<Bytes>, i: nat, token: Bytes, key: Bytes, dryRun: bool, dst: Bytes, c: Counts) {
    i <= |ls| && Progress(ls[..i], token, key, dryRun, dst, c)
  }

  lemma {:induction false} PassStart(ls: seq<Bytes>, token: Bytes, key: Bytes, dryRun: bool)
    ensures PassedUpTo(ls, 0, token, key, dryRun, [], Counts(0, 0, 0))
  {
  }

  lemma {:induction false} PassNext(ls: seq<Bytes>, i: nat, token: Bytes, key: Bytes, dryRun: bool, dst: Bytes,
                                    c: Counts)
    requires i < |ls| && PassedUpTo(ls, i, token, key, dryRun, dst, c) && KindOf(ls[i], key) != NoEnvelope
    ensures PassedUpTo(ls, i + 1, token, key, dryRun, if dryRun then dst else dst + StampLine(ls[i], token, key),
              Bumped(c, KindOf(ls[i], key)))
  {
    assert ls[..i] + [ls[i]] == ls[..i + 1];
    ProgressStep(ls[..i], ls[i], ls[..i + 1], token, key, dryRun, dst, c);
  }

  lemma {:induction false} PassEnd(ls: seq<Bytes>, token: Bytes, key: Bytes, dryRun: bool, dst: Bytes, c: Counts)
    requires PassedUpTo(ls, |ls|, token, key, dryRun, dst, c)
    ensures Progress(ls, token, key, dryRun, dst, c)
  {
    assert ls[..|ls|] == ls;
  }

  /** The pass over the lines: what to write and the counters, unless a line has neither the key nor a brace. */
  method StampPass(ls: seq<Bytes>, token: Bytes, key: Bytes, dryRun: bool) returns (ok: bool, dst: Bytes, c: Counts)
    ensures ok <==> Stampable(ls, key)
    ensures ok ==> Progress(ls, token, key, dryRun, dst, c)
  {
    dst, c := [], Counts(0, 0, 0);
    PassStart(ls, token, key, dryRun);
    for i := 0 to |ls|
      invariant PassedUpTo(ls, i, token, key, dryRun, dst, c)
    {
      var kind, written := StampOne(ls[i], token, key);
      if kind == NoEnvelope {
        return false, dst, c;
      }
      PassNext(ls, i, token, key, dryRun, dst, c);
      c := Bumped(c, kind);
      dst := if dryRun then dst else dst + written;
    }
    PassEnd(ls, token, key, dryRun, dst, c);
    ok := true;
  }

  // ---- which lines are stamped, read off the bytes ------------------------------------------------

  /** Tabs, line feeds, form feeds, carriage returns and spaces, nothing else. */
  predicate OnlySpaces(l: Bytes) {
    forall i :: 0 <= i < |l| ==> l[i] == 32 || l[i] == 9 || l[i] == 10 || l[i] == 11 || l[i] == 12 || l[i] == 13
  }

  /** The key stands somewhere in the line. */
  ghost predicate HasKey(l: Bytes, key: Bytes) {
    exists a: Bytes, b: Bytes :: l == a + key + b
  }

  /** The line is an envelope that does not carry the key yet. */
  ghost predicate Lacks(l: Bytes, key: Bytes) {
    !OnlySpaces(l) && !HasKey(l, key)
  }

  lemma PartOf(a: Bytes, key: Bytes, b: Bytes)
    ensures OccursAt(a + key + b, key, |a|)
  {
  }

  lemma Around(l: Bytes, key: Bytes, i: nat)
    requires OccursAt(l, key, i)
    ensures l == l[..i] + key + l[i + |key|..]
  {
  }

  lemma {:induction false} ContainsExactly(l: Bytes, key: Bytes)
    ensures Contains(l, key) <==> HasKey(l, key)
  {
    if Contains(l, key) {
      var i :| 0 <= i <= |l| && OccursAt(l, key, i);
      Around(l, key, i);
    }
    if HasKey(l, key) {
      var a: Bytes, b: Bytes :| l == a + key + b;
      PartOf(a, key, b);
      assert 0 <= |a| <= |l|;
    }
  }

  lemma {:induction false} KindExactly(l: Bytes, key: Bytes)
    ensures KindOf(l, key) == Blank <==> OnlySpaces(l)
    ensures KindOf(l, key) == Kept <==> !OnlySpaces(l) && HasKey(l, key)
    ensures KindOf(l, key) == Stamped <==> Lacks(l, key) && BRACE in l
  {
    ContainsExactly(l, key);
    assert FirstBrace(l) < |l| ==> l[FirstBrace(l)] == BRACE;
  }

  /** `s` is `l` with the token behind its first opening brace, which is byte 123. */
  ghost predicate StampedBehindBrace(l: Bytes, s: Bytes, token: Bytes) {
    exists a: Bytes, b: Bytes :: 123 !in a && l == a + [123] + b && s == a + [123] + token + b
  }

  lemma {:induction false} InsertIsBehindBrace(l: Bytes, token: Bytes)
    requires FirstBrace(l) < |l|
    ensures StampedBehindBrace(l, Insert(l, token), token)
  {
    var i := FirstBrace(l);
    var a, b := l[..i], l[i + 1..];
    assert BRACE !in a;
    assert l == a + [BRACE] + b;
    assert l[..i + 1] == a + [BRACE];
    assert Insert(l, token) == a + [BRACE] + token + b;
  }

  lemma {:induction false} KeyInToken(l: Bytes, s: Bytes, token: Bytes, key: Bytes)
    requires StampedBehindBrace(l, s, token) && key <= token
    ensures HasKey(s, key)
  {
    var a: Bytes, b: Bytes :| 123 !in a && l == a + [123] + b && s == a + [123] + token + b;
    assert token == key + token[|key|..];
    assert s == (a + [123]) + key + (token[|key|..] + b);
  }

  /** A file can be stamped exactly when every line that lacks the key has a brace. */
  lemma {:induction false} StampableExactly(ls: seq<Bytes>, key: Bytes)
    ensures Stampable(ls, key) <==> forall k :: 0 <= k < |ls| && Lacks(ls[k], key) ==> 123 in ls[k]
  {
    forall k | 0 <= k < |ls| ensures KindOf(ls[k], key) != NoEnvelope <==> (Lacks(ls[k], key) ==> BRACE in ls[k]) {
      KindExactly(ls[k], key);
    }
  }

  /** Which lines a run changes: of the lines read back, those that were blank or carried the key are as before, and
      every other one carries the token, and with it the key, right behind its first brace. */
  lemma {:induction false} StampedExactly(bytes: Bytes, token: Bytes, key: Bytes, k: nat)
    requires IsToken(token, key) && Stampable(Lines(bytes), key) && k < |Lines(bytes)|
    ensures |Lines(StampBytes(bytes, token, key))| == |Lines(bytes)|
    ensures var l, s := Lines(bytes)[k], Lines(StampBytes(bytes, token, key))[k];
            && (OnlySpaces(l) || HasKey(l, key) ==> s == l)
            && (Lacks(l, key) ==> StampedBehindBrace(l, s, token) && HasKey(s, key))
            && !Lacks(s, key)
  {
    var l := Lines(bytes)[k];
    StampedFileLines(bytes, token, key);
    KindExactly(l, key);
    if Lacks(l, key) {
      InsertIsBehindBrace(l, token);
      KeyInToken(l, Insert(l, token), token, key);
    }
  }

  ghost function LackingAt(ls: seq<Bytes>, key: Bytes): set<nat> {
    set k: nat | k < |ls| && Lacks(ls[k], key)
  }

  ghost function CarryingAt(ls: seq<Bytes>, key: Bytes): set<nat> {
    set k: nat | k < |ls| && !OnlySpaces(ls[k]) && HasKey(ls[k], key)
  }

  ghost function FilledAt(ls: seq<Bytes>): set<nat> {
    set k: nat | k < |ls| && !OnlySpaces(ls[k])
  }

  function KindAt(ls: seq<Bytes>, key: Bytes, kind: Kind): set<nat> {
    set k: nat | k < |ls| && KindOf(ls[k], key) == kind
  }

  lemma {:induction false} KindAtLast(ls: seq<Bytes>, key: Bytes, kind: Kind)
    requires ls != []
    ensures var before, n := KindAt(Init(ls), key, kind), |ls| - 1;
            n !in before && KindAt(ls, key, kind) == if KindOf(Last(ls), key) == kind then before + {n} else before
  {
    var p, n := Init(ls), |ls| - 1;
    forall k: nat ensures k in KindAt(ls, key, kind) <==>
                            k in KindAt(p, key, kind) || (k == n && KindOf(Last(ls), key) == kind) {
      assert k < n ==> p[k] == ls[k];
    }
  }

  lemma {:induction false} CountIsSize(ls: seq<Bytes>, key: Bytes, kind: Kind)
    ensures CountKind(ls, key, kind) == |KindAt(ls, key, kind)|
  {
    if ls == [] {
      assert KindAt(ls, key, kind) == {};
    } else {
      CountIsSize(Init(ls), key, kind);
      KindAtLast(ls, key, kind);
    }
  }

  lemma {:induction false} KindsAt(ls: seq<Bytes>, key: Bytes)
    requires Stampable(ls, key)
    ensures KindAt(ls, key, Stamped) == LackingAt(ls, key) && KindAt(ls, key, Kept) == CarryingAt(ls, key)
    ensures LackingAt(ls, key) !! CarryingAt(ls, key) && FilledAt(ls) == LackingAt(ls, key) + CarryingAt(ls, key)
  {
    forall k: nat | k < |ls|
      ensures k in KindAt(ls, key, Stamped) <==> k in LackingAt(ls, key)
      ensures k in KindAt(ls, key, Kept) <==> k in CarryingAt(ls, key)
    {
      KindExactly(ls[k], key);
      assert KindOf(ls[k], key) != NoEnvelope;
    }
  }

  /** The counts of a run: the lines that are not blank, those of them that lacked the key, those that had it. */
  lemma {:induction false} ReportExactly(ls: seq<Bytes>, key: Bytes)
    requires Stampable(ls, key)
    ensures var c := Report(ls, key);
            c.lines == |FilledAt(ls)| && c.inserted == |LackingAt(ls, key)| && c.kept == |CarryingAt(ls, key)|
  {
    KindsAt(ls, key);
    CountIsSize(ls, key, Stamped);
    CountIsSize(ls, key, Kept);
    LinesAreStampedOrKept(ls, key);
  }

  /** What the tool inserts for field `a` and value `b`, character by character. */
  lemma TokenOfLetters(a: byte, b: byte)
    ensures TokenOf([a], [b]) == [34, a, 34, 58, 32, 34, b, 34, 44, 32] && KeyOf([a]) == [34, a, 34, 58]
  {
  }

  class JsonlFile {
    var contents: Bytes

    constructor (bytes: Bytes)
      ensures contents == bytes
    {
      contents := bytes;
    }

    /**
     * Stamp the file in one pass. A line with neither the key nor a brace raises and leaves the file as it
     * was; otherwise every envelope is counted once, and the size guard never fires.
     */
    method Stamp(token: Bytes, key: Bytes, dryRun: bool) returns (r: Result<Counts, Failure>)
      modifies this
      ensures r == if Stampable(Lines(old(contents)), key) then Ok(Report(Lines(old(contents)), key)) else Err(NoBrace)
      ensures contents == if r.Ok? && !dryRun then StampBytes(old(contents), token, key) else old(contents)
    {
      var ok, dst, c := StampPass(Lines(contents), token, key, dryRun);
      if !ok {
        return Err(NoBrace);
      }
      if dryRun {
        return Ok(c);
      }
      StampedFileSize(contents, token, key);
      if |dst| != |contents| + c.inserted * |token| {
        return Err(SizeMismatch);
      }
      contents := dst;
      return Ok(c);
    }
  }
}
