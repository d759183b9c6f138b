/** Text between the frames: where a line ends, what is a header, and what the stream parser makes of
    plain lines alone and among framed ones. About base/pm/stream/input.go. */
module StreamText {
  import opened Wrappers
  import opened StreamParser
  import opened StreamFrames

  // ---- lines and headers -----------------------------------------------------------------------------

  /** Where the runes of `b` from `i` on start. */
  ghost function RuneStarts(b: Bytes, i: nat): (r: seq<nat>)
    requires i <= |b|
    ensures r == [] <==> i == |b|
    ensures forall k :: 0 <= k < |r| ==> i <= r[k] < |b|
    decreases |b| - i
  {
    if i == |b| then [] else [i] + RuneStarts(b, i + RuneWidth(b, i))
  }

  ghost function LastRune(b: Bytes): (r: nat)
    requires b != []
    ensures r < |b|
  {
    RuneStarts(b, 0)[|RuneStarts(b, 0)| - 1]
  }

  lemma {:induction false} RangeRunsOut(b: Bytes, i: nat)
    requires i < |b| && forall k :: i <= k < |b| ==> b[k] != NL
    ensures var starts := RuneStarts(b, i); RangeStop(b, i) == starts[|starts| - 1]
    ensures var s := RangeStop(b, i); s + RuneWidth(b, s) == |b|
    decreases |b| - i
  {
    if i + RuneWidth(b, i) < |b| {
      RangeRunsOut(b, i + RuneWidth(b, i));
    } else {
      assert RuneStarts(b, |b|) == [];
    }
  }

  /** Without a newline the line ends with the text, unless its last rune is wider than one byte: then it
      ends in front of that rune, all of whose bytes are outside ASCII. */
  lemma LineEndIff(b: Bytes)
    requires b != [] && NL !in b
    ensures var s := LastRune(b);
      && s + RuneWidth(b, s) == |b|
      && LineEnd(b) == (if RuneWidth(b, s) == 1 then |b| else s)
      && (LineEnd(b) == |b| <==> RuneWidth(b, s) == 1)
      && (LineEnd(b) < |b| ==> forall k :: LineEnd(b) <= k < |b| ==> b[k] >= 128)
  {
    RangeRunsOut(b, 0);
  }

  /** A header is one or more digits and two colons; a third colon belongs to it and makes it a block's. */
  lemma HeaderIff(b: Bytes, i: nat, d: nat)
    requires i <= |b|
    ensures HeaderLength(b, i) == 0 <==> forall e: nat :: !IsHeaderAt(b, i, e)
    ensures IsHeaderAt(b, i, d) ==>
      var third := i + d + 2 < |b| && b[i + d + 2] == COLON;
      HeaderLength(b, i) == d + (if third then 3 else 2) && (IsMultiline(b, i) <==> third)
  {
    if IsHeaderAt(b, i, d) {
      DigitRunIs(b, i, d);
    }
    forall e: nat | IsHeaderAt(b, i, e) ensures HeaderLength(b, i) > 0 {
      DigitRunIs(b, i, e);
    }
    if HeaderLength(b, i) > 0 {
      assert IsHeaderAt(b, i, DigitRun(b, i));
    }
  }

  /** `d` digits and two colons stand at `i`. */
  ghost predicate IsHeaderAt(b: Bytes, i: nat, d: nat) {
    && d > 0 && i + d + 1 < |b| && (forall k :: i <= k < i + d ==> IsDigit(b[k]))
    && b[i + d] == COLON && b[i + d + 1] == COLON
  }

  // ---- a chunk without headers -------------------------------------------------------------------------

  ghost predicate LineStart(b: Bytes, i: nat) {
    i < |b| && (i == 0 || b[i - 1] == NL)
  }

  /** The scan stands at the start of a line, inside the last rune, or behind the chunk. */
  ghost predicate OnTrack(b: Bytes, i: nat) {
    LineStart(b, i) || forall k :: i <= k < |b| ==> b[k] >= 128
  }

  lemma StaysOnTrack(b: Bytes, i: nat)
    requires i < |b|
    ensures OnTrack(b, i + LineEnd(b[i..]) + 1)
  {
    hide LineEnd;
    var rest := b[i..];
    if NL in rest {
      var k := FirstNewline(rest);
      LineEndAt(rest, k);
      assert rest[k] == b[i + k];
    } else {
      LineEndIff(rest);
      assert forall k :: i <= k < |b| ==> b[k] == rest[k - i];
    }
  }

  lemma {:induction false} FirstNewline(b: Bytes) returns (k: nat)
    requires NL in b
    ensures k < |b| && b[k] == NL && forall m :: 0 <= m < k ==> b[m] != NL
    decreases |b|
  {
    if b[0] == NL {
      k := 0;
    } else {
      var j := FirstNewline(b[1..]);
      k := j + 1;
      forall m | 0 <= m < k ensures b[m] != NL {
        assert m > 0 ==> b[m] == b[1..][m - 1];
      }
    }
  }

  lemma {:induction false} ScanHeaderless(b: Bytes, i: nat)
    requires OnTrack(b, i) && forall k: nat :: LineStart(b, k) ==> HeaderLength(b, k) == 0
    ensures Scan(b, i, 0) == Outcome(Flush(b, 0, |b|), Idle)
    decreases |b| - i
  {
    hide Scan, LineEnd;
    ScanTurn(b, i, 0);
    if i < |b| {
      assert HeaderLength(b, i) == 0;
      StaysOnTrack(b, i);
      ScanHeaderless(b, i + LineEnd(b[i..]) + 1);
    }
  }

  /** A chunk with no header at the start of any line is one message of the consumer's own level. */
  lemma HeaderlessChunk(level: nat, b: Bytes)
    requires b != [] && forall k: nat :: LineStart(b, k) ==> HeaderLength(b, k) == 0
    ensures var r := Process(Idle, b); ToMessages(level, r.pieces) == [Message(level, b)] && r.mode == Idle
  {
    hide Scan;
    assert LineStart(b, 0);
    ScanHeaderless(b, 0);
    assert Flush(b, 0, |b|) == [Text(b)] by {
      assert b[0..|b|] == b;
    }
  }

  // ---- plain lines among framed ones -----------------------------------------------------------------------

  /** A line of output: plain, or printed with a level. */
  datatype Item = Plain(text: Bytes) | Framed(entry: Entry)

  /** A plain line holds no newline and does not start with a header. */
  ghost predicate Proper(x: Item) {
    match x
    case Plain(text) => NL !in text && HeaderLength(text, 0) == 0
    case Framed(e) => Printable(e)
  }

  ghost function PrintItem(x: Item): Bytes {
    if x.Plain? then x.text + [NL] else PrintLine(x.entry)
  }

  ghost function PrintItems(xs: seq<Item>): Bytes {
    if xs == [] then [] else PrintItem(xs[0]) + PrintItems(xs[1..])
  }

  /** The messages of the lines: plain lines next to each other make one message of the consumer's level,
      framed ones a message each, of their own. `held` is the plain text in front of the lines. */
  ghost function MessagesOf(level: nat, held: Bytes, xs: seq<Item>): seq<Message>
    decreases |xs|
  {
    if xs == [] then PlainMessage(level, held)
    else
      match xs[0]
      case Plain(text) => MessagesOf(level, held + text + [NL], xs[1..])
      case Framed(e) => PlainMessage(level, held) + [Message(e.level, e.text + [NL])] + MessagesOf(level, [], xs[1..])
  }

  ghost function PlainMessage(level: nat, held: Bytes): seq<Message> {
    if held == [] then [] else [Message(level, held)]
  }

  /** What the scan makes of `b` from `i` on: the messages, and no open block. */
  ghost predicate Scans(level: nat, b: Bytes, i: nat, start: nat, ms: seq<Message>)
    requires start <= i
  {
    ToMessages(level, Scan(b, i, start).pieces) == ms && Scan(b, i, start).mode == Idle
  }

  /** A header of the chunk at a line is a header of the line. */
  lemma HeaderInLine(b: Bytes, i: nat, text: Bytes, d: nat)
    requires Here(b, i, text + [NL])
    ensures IsHeaderAt(b, i, d) ==> IsHeaderAt(text, 0, d)
  {
    var line := text + [NL];
    forall k | 0 <= k < |line| ensures b[i + k] == line[k] {
      assert b[i..i + |line|][k] == b[i + k];
    }
    if IsHeaderAt(b, i, d) {
      NoNewlineInHeader(b, i, d, |text|);
      assert forall k :: 0 <= k < |text| ==> text[k] == b[i + k];
    }
  }

  lemma NoNewlineInHeader(b: Bytes, i: nat, d: nat, n: nat)
    requires IsHeaderAt(b, i, d) && i + n < |b| && b[i + n] == NL
    ensures d + 2 <= n
  {
  }

  lemma PlainHasNoHeader(b: Bytes, i: nat, text: Bytes)
    requires Here(b, i, text + [NL]) && HeaderLength(text, 0) == 0
    ensures HeaderLength(b, i) == 0
  {
    hide IsHeaderAt, HeaderLength;
    forall d: nat ensures IsHeaderAt(b, i, d) ==> IsHeaderAt(text, 0, d) {
      HeaderInLine(b, i, text, d);
    }
    HeaderIff(text, 0, 0);
    HeaderIff(b, i, 0);
  }

  lemma PlainTurn(b: Bytes, i: nat, start: nat, text: Bytes)
    requires start <= i && Here(b, i, text + [NL]) && NL !in text && HeaderLength(text, 0) == 0
    ensures var end := i + |text| + 1;
      Scan(b, i, start) == Scan(b, if end == |b| then end + 1 else end, start)
  {
    hide Scan, HeaderLength, LineEnd;
    PlainHasNoHeader(b, i, text);
    LineEndHere(b, i, text);
    ScanTurn(b, i, start);
  }

  /** Behind the chunk it makes no difference where the scan stands. */
  lemma ScanBehind(b: Bytes, i: nat, start: nat)
    requires start <= |b| <= i
    ensures Scan(b, i, start) == Scan(b, |b|, start) == Outcome(Flush(b, start, |b|), Idle)
    ensures start == |b| ==> Scan(b, i + 1, i + 1) == Scan(b, |b|, |b|)
  {
  }

  /** What the pieces of a framed line and the plain text before it are as messages. */
  lemma FramedMessages(level: nat, b: Bytes, start: nat, i: nat, e: Entry, rest: seq<Piece>)
    requires start <= i <= |b| && Printable(e)
    ensures ToMessages(level, Flush(b, start, i) + [Line(Head(e.level, 2), e.text + [NL])] + rest) ==
      PlainMessage(level, b[start..i]) + [Message(e.level, e.text + [NL])] + ToMessages(level, rest)
  {
    hide LevelOf, Head;
    LevelOfHead(e.level, 2);
  }

  lemma PlainStep(level: nat, b: Bytes, i: nat, start: nat, text: Bytes, ms: seq<Message>)
    requires start <= i && Here(b, i, text + [NL]) && NL !in text && HeaderLength(text, 0) == 0
    requires Scans(level, b, i + |text| + 1, start, ms)
    ensures Scans(level, b, i, start, ms) && b[start..i + |text| + 1] == b[start..i] + text + [NL]
  {
    hide Scan, HeaderLength, ToMessages;
    var end := i + |text| + 1;
    PlainTurn(b, i, start, text);
    if end == |b| {
      ScanBehind(b, end + 1, start);
    }
    assert b[start..end] == b[start..i] + b[i..end];
    assert b[i..end] == text + [NL];
  }

  lemma FramedStep(level: nat, b: Bytes, i: nat, start: nat, e: Entry, ms: seq<Message>)
    requires start <= i && Printable(e) && Here(b, i, PrintLine(e))
    requires Scans(level, b, i + |PrintLine(e)|, i + |PrintLine(e)|, ms)
    ensures Scans(level, b, i, start, PlainMessage(level, b[start..i]) + [Message(e.level, e.text + [NL])] + ms)
  {
    hide Scan, ToMessages, PlainMessage, Flush, PrintLine, Head;
    var end := i + |PrintLine(e)|;
    ScanOneLine(b, i, start, e);
    if end == |b| {
      ScanBehind(b, end, end);
    }
    FramedMessages(level, b, start, i, e, Scan(b, end, end).pieces);
  }

  lemma FlushMessages(level: nat, b: Bytes, start: nat)
    requires start <= |b|
    ensures ToMessages(level, Flush(b, start, |b|)) == PlainMessage(level, b[start..])
  {
    assert b[start..|b|] == b[start..];
  }

  lemma NoLines(level: nat, b: Bytes, start: nat)
    requires start <= |b|
    ensures Scans(level, b, |b|, start, PlainMessage(level, b[start..]))
  {
    hide Scan, ToMessages, PlainMessage, Flush;
    ScanTurn(b, |b|, start);
    FlushMessages(level, b, start);
  }

  /** The first line of what is left, and the rest. */
  lemma FirstItem(b: Bytes, i: nat, xs: seq<Item>)
    requires i <= |b| && xs != [] && b[i..] == PrintItems(xs)
    ensures var end := i + |PrintItem(xs[0])|;
      end <= |b| && Here(b, i, PrintItem(xs[0])) && b[end..] == PrintItems(xs[1..])
  {
    hide PrintItem;
    var line := PrintItem(xs[0]);
    var end := i + |line|;
    assert b[i..] == line + PrintItems(xs[1..]);
    assert b[i..end] == b[i..][..|line|] && b[end..] == b[i..][|line|..];
  }

  /** Lines from `i` on, with the plain text since `start` held back. */
  lemma {:induction false} ScanItems(level: nat, b: Bytes, i: nat, start: nat, xs: seq<Item>)
    requires (forall x :: x in xs ==> Proper(x)) && start <= i <= |b| && b[i..] == PrintItems(xs)
    ensures Scans(level, b, i, start, MessagesOf(level, b[start..i], xs))
    decreases |xs|
  {
    hide Scans, HeaderLength, PlainMessage, Printable, PrintLine, PrintItems, Here;
    if xs == [] {
      NothingLeft(b, i);
      NoLines(level, b, start);
      assert b[start..i] == b[start..];
    } else {
      FirstItem(b, i, xs);
      var x, end := xs[0], i + |PrintItem(xs[0])|;
      assert Proper(x);
      if x.Plain? {
        ScanItems(level, b, end, start, xs[1..]);
        PlainStep(level, b, i, start, x.text, MessagesOf(level, b[start..end], xs[1..]));
      } else {
        ScanItems(level, b, end, end, xs[1..]);
        assert b[end..end] == [];
        FramedStep(level, b, i, start, x.entry, MessagesOf(level, [], xs[1..]));
      }
    }
  }

  lemma NothingLeft(b: Bytes, i: nat)
    requires i <= |b| && b[i..] == PrintItems([])
    ensures i == |b|
  {
  }

  /** Lines of output printed one after the other and read as one chunk: the framed ones come back with
      their own level, each with its newline, and every run of plain lines between them as one message of
      the consumer's level, in order. */
  lemma MixedRoundTrip(level: nat, xs: seq<Item>)
    requires forall x :: x in xs ==> Proper(x)
    ensures var r := Process(Idle, PrintItems(xs));
      ToMessages(level, r.pieces) == MessagesOf(level, [], xs) && r.mode == Idle
  {
    hide Scan;
    var b := PrintItems(xs);
    assert b[0..] == b && b[0..0] == [];
    ScanItems(level, b, 0, 0, xs);
  }
}
