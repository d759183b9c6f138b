/** Printed frames and what the stream parser makes of them: round trips for single lines in one chunk
    and for a block cut into chunks. The printed forms are those of base/plugin/plugin.go and of the
    header pattern in base/pm/stream/input.go. */
module StreamFrames {
  import opened Wrappers
  import opened StreamParser

  // ---- printed numbers --------------------------------------------------------------------------

  function Digits(n: nat): (r: Bytes)
    ensures r != [] && forall k :: 0 <= k < |r| ==> IsDigit(r[k])
  {
    if n < 10 then [48 + n] else Digits(n / 10) + [48 + n % 10]
  }

  lemma {:induction false} ValueOfDigits(n: nat)
    ensures Value(Digits(n)) == n
  {
    if n < 10 {
      assert Digits(n)[..0] == [];
    } else {
      ValueOfDigits(n / 10);
      assert Digits(n)[..|Digits(n)| - 1] == Digits(n / 10);
    }
  }

  lemma {:induction false} DigitRunIs(b: Bytes, i: nat, n: nat)
    requires i + n <= |b| && (forall k :: i <= k < i + n ==> IsDigit(b[k]))
    requires i + n == |b| || !IsDigit(b[i + n])
    ensures DigitRun(b, i) == n
    decreases n
  {
    if n > 0 {
      DigitRunIs(b, i + 1, n - 1);
    }
  }

  // ---- headers ------------------------------------------------------------------------------------

  ghost function Colons(n: nat): Bytes {
    seq(n, _ => COLON)
  }

  ghost function Head(level: nat, colons: nat): Bytes {
    Digits(level) + Colons(colons)
  }

  /** `text` stands in `b` at `i`. */
  ghost predicate Here(b: Bytes, i: nat, text: Bytes) {
    i + |text| <= |b| && b[i..i + |text|] == text
  }

  lemma HereDigits(b: Bytes, i: nat, level: nat, colons: nat)
    requires Here(b, i, Head(level, colons)) && colons > 0
    ensures DigitRun(b, i) == |Digits(level)|
    ensures forall k :: i + |Digits(level)| <= k < i + |Head(level, colons)| ==> b[k] == COLON
  {
    var d, h := |Digits(level)|, Head(level, colons);
    forall k | i <= k < i + |h| ensures b[k] == h[k - i] {
      assert b[k] == b[i..i + |h|][k - i];
    }
    DigitRunIs(b, i, d);
  }

  /** A printed header is read back whole: two colons when no third follows, or three. */
  lemma HeaderIs(b: Bytes, i: nat, level: nat, colons: nat)
    requires Here(b, i, Head(level, colons)) && (colons == 2 || colons == 3)
    requires colons == 2 ==> i + |Head(level, 2)| == |b| || b[i + |Head(level, 2)|] != COLON
    ensures HeaderLength(b, i) == |Head(level, colons)|
    ensures IsMultiline(b, i) <==> colons == 3
  {
    HereDigits(b, i, level, colons);
  }

  lemma LevelOfHead(level: nat, colons: nat)
    requires colons > 0
    ensures LevelOf(Head(level, colons)) == if level <= 65535 then level else 65535
  {
    var h := Head(level, colons);
    assert h[0..|h|] == h;
    HereDigits(h, 0, level, colons);
    assert h[..|Digits(level)|] == Digits(level);
    ValueOfDigits(level);
  }

  // ---- lines ----------------------------------------------------------------------------------------

  /** The rune loop cannot step over a newline. */
  lemma {:induction false} RangeStopsAt(b: Bytes, i: nat, k: nat)
    requires i <= k < |b| && b[k] == NL && forall m :: i <= m < k ==> b[m] != NL
    ensures RangeStop(b, i) == k
    decreases k - i
  {
    if i < k {
      var w := RuneWidth(b, i);
      assert i + w <= k by {
        assert w > 1 ==> forall m :: i <= m < i + w ==> b[m] >= 128;
      }
      RangeStopsAt(b, i + w, k);
    }
  }

  lemma LineEndAt(b: Bytes, k: nat)
    requires k < |b| && b[k] == NL && forall m :: 0 <= m < k ==> b[m] != NL
    ensures LineEnd(b) == if k + 1 == |b| then |b| else k
  {
    RangeStopsAt(b, 0, k);
  }

  /** The end of a line that stands in a chunk, as the scan looks for it. */
  lemma LineEndHere(b: Bytes, j: nat, text: Bytes)
    requires Here(b, j, text + [NL]) && NL !in text
    ensures b[j] == (text + [NL])[0]
    ensures LineEnd(b[j..]) == if j + |text| + 1 == |b| then |text| + 1 else |text|
  {
    var line, rest := text + [NL], b[j..];
    forall m | 0 <= m < |line| ensures rest[m] == line[m] {
      assert rest[m] == b[j + m] == b[j..j + |line|][m];
    }
    LineEndAt(rest, |text|);
  }

  datatype Entry = Entry(level: nat, text: Bytes)

  /** A level that fits 16 bits and a text of one line that does not start with a colon. */
  ghost predicate Printable(e: Entry) {
    e.level <= 65535 && NL !in e.text && (e.text != [] ==> e.text[0] != COLON)
  }

  ghost function PrintLine(e: Entry): Bytes {
    Head(e.level, 2) + (e.text + [NL])
  }

  ghost function PrintLines(es: seq<Entry>): Bytes {
    if es == [] then [] else PrintLine(es[0]) + PrintLines(es[1..])
  }

  ghost function LinePieces(es: seq<Entry>): seq<Piece> {
    if es == [] then [] else [Line(Head(es[0].level, 2), es[0].text + [NL])] + LinePieces(es[1..])
  }

  /** One printed line in front of anything: the parser hands over the plain text before it, takes it off
      and goes on behind it. */
  lemma ScanOneLine(b: Bytes, i: nat, start: nat, e: Entry)
    requires start <= i && Printable(e) && Here(b, i, PrintLine(e))
    ensures var end := i + |PrintLine(e)|;
      var next := if end == |b| then end + 1 else end;
      Scan(b, i, start) ==
        Then(Flush(b, start, i) + [Line(Head(e.level, 2), e.text + [NL])], Scan(b, next, next))
  {
    hide Scan, HeaderLength, IsMultiline, LineEnd;
    var h, line := Head(e.level, 2), e.text + [NL];
    var j, end := i + |h|, i + |PrintLine(e)|;
    SplitHere(b, i, h, line);
    LineEndHere(b, j, e.text);
    HeaderIs(b, i, e.level, 2);
    ScanTurn(b, i, start);
    assert b[i..j] == h && b[j..end] == line;
  }

  lemma SplitHere(b: Bytes, i: nat, x: Bytes, y: Bytes)
    requires Here(b, i, x + y)
    ensures Here(b, i, x) && Here(b, i + |x|, y)
  {
    var t := b[i..i + |x + y|];
    assert b[i..i + |x|] == t[..|x|];
    assert b[i + |x|..i + |x| + |y|] == t[|x|..];
  }

  lemma {:induction false} ScanLines(b: Bytes, i: nat, es: seq<Entry>)
    requires (forall e :: e in es ==> Printable(e)) && i <= |b| && b[i..] == PrintLines(es)
    ensures Scan(b, i, i) == Outcome(LinePieces(es), Idle)
    decreases |es|
  {
    hide Scan;
    if es == [] {
      ScanTurn(b, i, i);
      assert Flush(b, i, |b|) == [];
    } else {
      var line := PrintLine(es[0]);
      var end := i + |line|;
      assert b[i..end] == b[i..][..|line|];
      ScanOneLine(b, i, i, es[0]);
      assert Flush(b, i, i) == [];
      assert b[end..] == b[i..][|line|..];
      ScanLines(b, end, es[1..]);
      if end == |b| {
        ScanTurn(b, end, end);
        ScanTurn(b, end + 1, end + 1);
        assert Flush(b, end, |b|) == Flush(b, end + 1, |b|);
      }
    }
  }

  ghost function LineMessages(es: seq<Entry>): (r: seq<Message>)
    ensures |r| == |es|
  {
    seq(|es|, k requires 0 <= k < |es| => Message(es[k].level, es[k].text + [NL]))
  }

  lemma {:induction false} LinePiecesAt(es: seq<Entry>, k: nat)
    requires k < |es|
    ensures |LinePieces(es)| == |es| && LinePieces(es)[k] == Line(Head(es[k].level, 2), es[k].text + [NL])
    decreases |es|
  {
    if |es| > 1 {
      LinePiecesAt(es[1..], if k == 0 then 0 else k - 1);
    }
  }

  /** Single lines printed one after the other and read as one chunk come back as exactly those
      messages, in order, each with its newline, and leave the consumer idle. */
  lemma LinesRoundTrip(level: nat, es: seq<Entry>)
    requires forall e :: e in es ==> Printable(e)
    ensures var r := Process(Idle, PrintLines(es));
      ToMessages(level, r.pieces) == LineMessages(es) && r.mode == Idle
  {
    hide Scan, LevelOf, Head;
    var b := PrintLines(es);
    assert b[0..] == b;
    ScanLines(b, 0, es);
    assert |LinePieces(es)| == |es| by {
      if es != [] {
        LinePiecesAt(es, 0);
      }
    }
    forall k | 0 <= k < |es| ensures ToMessage(level, LinePieces(es)[k]) == LineMessages(es)[k] {
      LinePiecesAt(es, k);
      assert es[k] in es;
      LevelOfHead(es[k].level, 2);
    }
  }

  // ---- blocks -----------------------------------------------------------------------------------------

  /** The terminator first occurs at the end of the frame. */
  ghost predicate NoEarlyTerm(payload: Bytes) {
    forall e: nat :: Occurs(payload + TERM, e) ==> e >= |payload|
  }

  lemma OccursShift(x: Bytes, y: Bytes, z: Bytes, e: nat)
    requires Occurs(y, e)
    ensures Occurs(x + y + z, |x| + e)
  {
    assert (x + y + z)[|x| + e..|x| + e + 5] == y[e..e + 5];
  }

  /** No piece of the payload holds a terminator, not even one that runs on to the end of the frame. */
  lemma NoTermInside(payload: Bytes, x: Bytes, y: Bytes, z: Bytes, e: nat)
    requires NoEarlyTerm(payload) && payload + TERM == x + y + z && Occurs(y, e)
    ensures |x| + e >= |payload|
  {
    OccursShift(x, y, z, e);
  }

  /** The short form behind a newline makes a terminator. */
  lemma ShortTermOccurs(text: Bytes, b: Bytes, z: Bytes)
    requires text != [] && text[|text| - 1] == NL && SHORT_TERM <= b
    ensures Occurs(text + b + z, |text| - 1)
  {
    var t := text + b + z;
    assert t[|text| - 1..|text| + 4] == [NL] + b[..4];
  }

  /** A block is not ended early by the short form. */
  lemma NoShortTerm(payload: Bytes, text: Bytes, b: Bytes, z: Bytes)
    requires NoEarlyTerm(payload) && payload + TERM == text + b + z && |text| <= |payload|
    ensures !(text != [] && text[|text| - 1] == NL && SHORT_TERM <= b)
  {
    if text != [] && text[|text| - 1] == NL && SHORT_TERM <= b {
      ShortTermOccurs(text, b, z);
    }
  }

  /** Payload read inside an open block is collected. */
  lemma Collects(head: Bytes, payload: Bytes, text: Bytes, b: Bytes, rest: Bytes)
    requires NoEarlyTerm(payload) && payload == text + b + rest
    ensures Process(Multi(head, text), b) == Outcome([], Multi(head, text + b))
  {
    hide Scan;
    assert payload + TERM == text + b + (rest + TERM);
    NoShortTerm(payload, text, b, rest + TERM);
    if FindTerm(b, 0).Some? {
      NoTermInside(payload, text, b, rest + TERM, FindTerm(b, 0).value);
    }
  }

  /** The rest of the payload with the terminator ends the block. */
  lemma Closes(head: Bytes, payload: Bytes, text: Bytes, b: Bytes)
    requires NoEarlyTerm(payload) && payload == text + b
    ensures Process(Multi(head, text), b + TERM) == Outcome([Block(head, payload, TERM)], Idle)
  {
    var chunk := b + TERM;
    assert payload + TERM == text + chunk + [];
    NoShortTerm(payload, text, chunk, []);
    TermAtEnd(payload, text, b);
    assert chunk[..|b|] == b && chunk[|b| + 5..] == [];
    assert Scan([], 0, 0) == Outcome([], Idle);
    assert [Block(head, payload, TERM)] + [] == [Block(head, payload, TERM)];
  }

  /** The first terminator is unique. */
  lemma FirstTerm(b: Bytes, j: nat, e: nat)
    requires j <= |b| && j <= e && Occurs(b, e) && forall m: nat :: j <= m < e ==> !Occurs(b, m)
    ensures FindTerm(b, j) == Some(e)
  {
    hide FindTerm, Occurs;
    var r := FindTerm(b, j);
    assert r.Some?;
  }

  lemma TermOccurs(b: Bytes)
    ensures Occurs(b + TERM, |b|)
  {
    assert (b + TERM)[|b|..|b| + 5] == TERM;
  }

  lemma TermAtEnd(payload: Bytes, text: Bytes, b: Bytes)
    requires NoEarlyTerm(payload) && payload == text + b
    ensures FindTerm(b + TERM, 0) == Some(|b|)
  {
    hide FindTerm, NoEarlyTerm, Occurs;
    var chunk := b + TERM;
    TermOccurs(b);
    assert payload + TERM == text + chunk + [];
    forall m: nat | m < |b| ensures !Occurs(chunk, m) {
      if Occurs(chunk, m) {
        NoTermInside(payload, text, chunk, [], m);
      }
    }
    FirstTerm(chunk, 0, |b|);
  }

  lemma OccursBehind(h: Bytes, b: Bytes, e: nat)
    ensures Occurs(h + b, |h| + e) <==> Occurs(b, e)
  {
    if e + 5 <= |b| {
      assert (h + b)[|h| + e..|h| + e + 5] == b[e..e + 5];
    }
  }

  /** `FindTerm` past a prefix is `FindTerm` in what is behind it. */
  lemma FindBehind(h: Bytes, b: Bytes)
    ensures FindTerm(h + b, |h|) ==
      match FindTerm(b, 0) case None => None case Some(e) => Some(|h| + e)
  {
    hide FindTerm, Occurs;
    forall e: nat ensures Occurs(h + b, |h| + e) <==> Occurs(b, e) {
      OccursBehind(h, b, e);
    }
    var whole, part := FindTerm(h + b, |h|), FindTerm(b, 0);
    if part.Some? {
      forall m: nat | |h| <= m < |h| + part.value ensures !Occurs(h + b, m) {
        OccursBehind(h, b, m - |h|);
      }
      FirstTerm(h + b, |h|, |h| + part.value);
    } else if whole.Some? {
      OccursBehind(h, b, whole.value - |h|);
    }
  }

  /** A chunk that starts with a block header. */
  lemma Opens(level: nat, b: Bytes)
    ensures var h := Head(level, 3);
      Process(Idle, h + b) ==
        match FindTerm(b, 0)
        case None => Outcome([], Multi(h, b))
        case Some(e) =>
          Then([Block(h, b[..e], TERM)], Scan(h + b, |h| + e + 6, |h| + e + 5))
  {
    hide Scan, HeaderLength, IsMultiline, FindTerm;
    var h := Head(level, 3);
    var chunk := h + b;
    assert chunk[0..|h|] == h;
    HeaderIs(chunk, 0, level, 3);
    ScanTurn(chunk, 0, 0);
    FindBehind(h, b);
    assert chunk[|h|..] == b;
    assert Flush(chunk, 0, 0) == [];
    match FindTerm(b, 0) {
      case None =>
      case Some(e) =>
        assert chunk[|h|..|h| + e] == b[..e];
        assert [] + [Block(h, b[..e], TERM)] == [Block(h, b[..e], TERM)];
    }
  }

  /** The chunks of a frame cut inside its payload: the header sticks to the first part, the terminator
      to the last. */
  ghost function TailChunks(parts: seq<Bytes>): seq<Bytes>
    requires parts != []
  {
    if |parts| == 1 then [parts[0] + TERM] else [parts[0]] + TailChunks(parts[1..])
  }

  ghost function FrameChunks(level: nat, parts: seq<Bytes>): seq<Bytes>
    requires parts != []
  {
    var tail := TailChunks(parts);
    [Head(level, 3) + tail[0]] + tail[1..]
  }

  lemma AllOf(mode: Mode, first: Bytes, rest: seq<Bytes>)
    ensures ProcessAll(mode, [first] + rest) ==
      var r := Process(mode, first); Then(r.pieces, ProcessAll(r.mode, rest))
  {
    assert ([first] + rest)[1..] == rest;
  }

  lemma {:induction false} TailRoundTrip(head: Bytes, payload: Bytes, text: Bytes, parts: seq<Bytes>)
    requires parts != [] && NoEarlyTerm(payload) && payload == text + Joined(parts)
    ensures ProcessAll(Multi(head, text), TailChunks(parts)) == Outcome([Block(head, payload, TERM)], Idle)
    decreases |parts|
  {
    hide Process;
    if |parts| == 1 {
      assert Joined(parts[1..]) == [] && parts[0] + [] == parts[0];
      Closes(head, payload, text, parts[0]);
      AllOf(Multi(head, text), parts[0] + TERM, []);
      assert [parts[0] + TERM] + [] == TailChunks(parts);
    } else {
      assert payload == text + parts[0] + Joined(parts[1..]);
      Collects(head, payload, text, parts[0], Joined(parts[1..]));
      AllOf(Multi(head, text), parts[0], TailChunks(parts[1..]));
      TailRoundTrip(head, payload, text + parts[0], parts[1..]);
    }
  }

  /** A block frame fed to an idle consumer in any split whose boundaries fall inside the payload
      yields exactly one message with that level and payload, and the consumer is idle again. */
  lemma BlockRoundTrip(consumer: nat, level: nat, parts: seq<Bytes>)
    requires parts != [] && NoEarlyTerm(Joined(parts)) && level <= 65535
    ensures var r := ProcessAll(Idle, FrameChunks(level, parts));
      r == Outcome([Block(Head(level, 3), Joined(parts), TERM)], Idle)
      && ToMessages(consumer, r.pieces) == [Message(level, Joined(parts))]
  {
    hide Process, LevelOf, Head, Scan;
    var h, payload := Head(level, 3), Joined(parts);
    LevelOfHead(level, 3);
    if |parts| == 1 {
      assert Joined(parts[1..]) == [] && parts[0] + [] == parts[0];
      WholeFrame(level, payload);
      AllOf(Idle, h + (payload + TERM), []);
      assert [h + (payload + TERM)] + [] == FrameChunks(level, parts);
    } else {
      assert payload == [] + parts[0] + Joined(parts[1..]);
      Opens(level, parts[0]);
      assert payload + TERM == [] + parts[0] + (Joined(parts[1..]) + TERM);
      if FindTerm(parts[0], 0).Some? {
        NoTermInside(payload, [], parts[0], Joined(parts[1..]) + TERM, FindTerm(parts[0], 0).value);
      }
      TailRoundTrip(h, payload, parts[0], parts[1..]);
      AllOf(Idle, h + parts[0], TailChunks(parts[1..]));
      assert FrameChunks(level, parts) == [h + parts[0]] + TailChunks(parts[1..]);
    }
  }

  lemma WholeFrame(level: nat, payload: Bytes)
    requires NoEarlyTerm(payload)
    ensures Process(Idle, Head(level, 3) + (payload + TERM)) == Outcome([Block(Head(level, 3), payload, TERM)], Idle)
  {
    hide Process, Scan, Head, NoEarlyTerm, FindTerm;
    var h := Head(level, 3);
    assert payload == [] + payload;
    TermAtEnd(payload, [], payload);
    Opens(level, payload + TERM);
    assert (payload + TERM)[..|payload|] == payload;
    var chunk := h + (payload + TERM);
    ScanTurn(chunk, |h| + |payload| + 6, |h| + |payload| + 5);
    assert Flush(chunk, |h| + |payload| + 5, |chunk|) == [];
    assert [Block(h, payload, TERM)] + [] == [Block(h, payload, TERM)];
  }
}
