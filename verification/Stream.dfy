/** The stream parser: bytes read in chunks become messages, `N::line` and `N:::block` frames with the
    level they carry, everything else as plain text. Models base/pm/stream/input.go. */
module StreamParser {
  import opened Wrappers

  type Byte = b: int | 0 <= b < 256
  type Bytes = seq<Byte>

  const NL: Byte := 10
  const COLON: Byte := 58
  const ZERO: Byte := 48
  const TERM: Bytes := [10, 58, 58, 58, 10]
  const SHORT_TERM: Bytes := [58, 58, 58, 10]

  // ---- scanning primitives --------------------------------------------------------------------

  predicate IsDigit(b: Byte) {
    48 <= b <= 57
  }

  /** Length of the run of digits at `i`. */
  function DigitRun(b: Bytes, i: nat): (n: nat)
    requires i <= |b|
    ensures i + n <= |b| && forall k :: i <= k < i + n ==> IsDigit(b[k])
    ensures i + n < |b| ==> !IsDigit(b[i + n])
    decreases |b| - i
  {
    if i < |b| && IsDigit(b[i]) then 1 + DigitRun(b, i + 1) else 0
  }

  function Value(digits: Bytes): nat
    requires forall k :: 0 <= k < |digits| ==> IsDigit(digits[k])
  {
    if digits == [] then 0
    else
      var last := digits[|digits| - 1];
      assert IsDigit(last);
      Value(digits[..|digits| - 1]) * 10 + (last as int - 48)
  }

  /** A 16-bit parse: too large a number gives the largest level. */
  function LevelOf(head: Bytes): nat {
    var value := Value(head[..DigitRun(head, 0)]);
    if value > 65535 then 65535 else value
  }

  /** Length of the header `digits` `::` or `:::` at `i`, taking the third colon when there is one;
      zero when there is no header. */
  function HeaderLength(b: Bytes, i: nat): (n: nat)
    requires i <= |b|
    ensures i + n <= |b| && (n > 0 ==> n >= 3)
  {
    var d := DigitRun(b, i);
    if d > 0 && i + d + 1 < |b| && b[i + d] == COLON && b[i + d + 1] == COLON then
      if i + d + 2 < |b| && b[i + d + 2] == COLON then d + 3 else d + 2
    else 0
  }

  predicate IsMultiline(b: Bytes, i: nat)
    requires i <= |b|
  {
    HeaderLength(b, i) == DigitRun(b, i) + 3
  }

  predicate Occurs(b: Bytes, e: nat) {
    e + 5 <= |b| && b[e..e + 5] == TERM
  }

  /** First terminator at or after `j`. */
  function FindTerm(b: Bytes, j: nat): (r: Option<nat>)
    requires j <= |b|
    ensures r.Some? ==> j <= r.value && Occurs(b, r.value) && forall e :: j <= e < r.value ==> !Occurs(b, e)
    ensures r.None? ==> forall e :: j <= e ==> !Occurs(b, e)
    decreases |b| - j
  {
    if Occurs(b, j) then Some(j)
    else if j == |b| then None
    else FindTerm(b, j + 1)
  }

  predicate Continues(b: Bytes, i: nat, lo: int, hi: int) {
    i < |b| && lo <= b[i] <= hi
  }

  /** Width of the UTF-8 sequence at `i`; one for anything that is not a well-formed sequence. */
  function RuneWidth(b: Bytes, i: nat): (w: nat)
    requires i < |b|
    ensures 1 <= w && i + w <= |b|
    ensures w > 1 ==> forall k :: i <= k < i + w ==> b[k] >= 128
  {
    var x := b[i];
    var lo := if x == 0xE0 then 0xA0 else if x == 0xF0 then 0x90 else 0x80;
    var hi := if x == 0xED then 0x9F else if x == 0xF4 then 0x8F else 0xBF;
    if !(0xC2 <= x <= 0xF4) || !Continues(b, i + 1, lo, hi) then 1
    else if x <= 0xDF then 2
    else if !Continues(b, i + 2, 0x80, 0xBF) then 1
    else if x <= 0xEF then 3
    else if !Continues(b, i + 3, 0x80, 0xBF) then 1
    else 4
  }

  /** Where a range loop over the runes stands when it breaks at a newline or runs out. */
  function RangeStop(b: Bytes, i: nat): (r: nat)
    requires i < |b|
    ensures i <= r < |b|
    decreases |b| - i
  {
    if b[i] == NL || i + RuneWidth(b, i) == |b| then i else RangeStop(b, i + RuneWidth(b, i))
  }

  /** `newLineOrEOF`: the index of the next newline, or the end; the index of the last rune when that
      is neither a newline nor one byte wide. */
  function LineEnd(b: Bytes): (r: nat)
    ensures r <= |b|
  {
    if b == [] then 0
    else
      var i := RangeStop(b, 0);
      if i + 1 == |b| then i + 1 else i
  }

  method NewLineOrEOF(b: Bytes) returns (r: nat)
    ensures r == LineEnd(b)
  {
    r := 0;
    if b != [] {
      while b[r] != NL && r + RuneWidth(b, r) < |b|
        invariant r < |b| && RangeStop(b, 0) == RangeStop(b, r)
        decreases |b| - r
      {
        r := r + RuneWidth(b, r);
      }
    }
    if r + 1 == |b| {
      r := r + 1;
    }
  }

  // ---- what a chunk does ------------------------------------------------------------------------

  /** An emitted message together with the framing bytes that were taken off around it. */
  datatype Piece =
    | Text(text: Bytes)
    | Line(head: Bytes, text: Bytes)
    | Block(head: Bytes, text: Bytes, term: Bytes)

  /** Between chunks: nothing open, or a multi-line block with what was collected so far. */
  datatype Mode = Idle | Multi(head: Bytes, text: Bytes)

  datatype Outcome = Outcome(pieces: seq<Piece>, mode: Mode)

  function Flush(b: Bytes, start: nat, i: nat): seq<Piece> {
    if start < i <= |b| then [Text(b[start..i])] else []
  }

  function Then(pieces: seq<Piece>, rest: Outcome): Outcome {
    Outcome(pieces + rest.pieces, rest.mode)
  }

  /** The scan loop from index `i`, with the plain text since `start` not emitted yet. */
  function Scan(b: Bytes, i: nat, start: nat): Outcome
    requires start <= i
    decreases |b| - i
  {
    if i >= |b| then Outcome(Flush(b, start, |b|), Idle)
    else
      var n := HeaderLength(b, i);
      if n == 0 then Scan(b, i + LineEnd(b[i..]) + 1, start)
      else
        var j := i + n;
        if !IsMultiline(b, i) then
          var e := j + LineEnd(b[j..]);
          Then(Flush(b, start, i) + [Line(b[i..j], b[j..if e == |b| then e else e + 1])], Scan(b, e + 1, e + 1))
        else
          match FindTerm(b, j)
          case Some(e) => Then(Flush(b, start, i) + [Block(b[i..j], b[j..e], TERM)], Scan(b, e + 6, e + 5))
          case None => Outcome(Flush(b, start, i), Multi(b[i..j], b[j..]))
  }

  /** One turn of the scan loop. */
  lemma ScanTurn(b: Bytes, i: nat, start: nat)
    requires start <= i
    ensures i >= |b| ==> Scan(b, i, start) == Outcome(Flush(b, start, |b|), Idle)
    ensures i < |b| && HeaderLength(b, i) == 0 ==>
      Scan(b, i, start) == Scan(b, i + LineEnd(b[i..]) + 1, start)
    ensures i < |b| && HeaderLength(b, i) > 0 && !IsMultiline(b, i) ==>
      var j := i + HeaderLength(b, i);
      var e := j + LineEnd(b[j..]);
      Scan(b, i, start) ==
        Then(Flush(b, start, i) + [Line(b[i..j], b[j..if e == |b| then e else e + 1])], Scan(b, e + 1, e + 1))
    ensures i < |b| && HeaderLength(b, i) > 0 && IsMultiline(b, i) ==>
      var j := i + HeaderLength(b, i);
      Scan(b, i, start) ==
        match FindTerm(b, j)
        case Some(e) => Then(Flush(b, start, i) + [Block(b[i..j], b[j..e], TERM)], Scan(b, e + 6, e + 5))
        case None => Outcome(Flush(b, start, i), Multi(b[i..j], b[j..]))
  {
  }

  /** What `process` does with a chunk. */
  function Process(mode: Mode, b: Bytes): Outcome {
    match mode
    case Idle => Scan(b, 0, 0)
    case Multi(head, text) =>
      if text != [] && text[|text| - 1] == NL && SHORT_TERM <= b then
        Then([Block(head, text, SHORT_TERM)], Scan(b[4..], 0, 0))
      else
        match FindTerm(b, 0)
        case Some(e) => Then([Block(head, text + b[..e], TERM)], Scan(b[e + 5..], 0, 0))
        case None => Outcome([], Multi(head, text + b))
  }

  ghost function ProcessAll(mode: Mode, chunks: seq<Bytes>): Outcome
    decreases |chunks|
  {
    if chunks == [] then Outcome([], mode)
    else
      var first := Process(mode, chunks[0]);
      Then(first.pieces, ProcessAll(first.mode, chunks[1..]))
  }

  // ---- the consumer ------------------------------------------------------------------------------

  datatype Message = Message(level: nat, text: Bytes)

  function ToMessage(level: nat, p: Piece): Message {
    match p
    case Text(text) => Message(level, text)
    case Line(head, text) => Message(LevelOf(head), text)
    case Block(head, text, _) => Message(LevelOf(head), text)
  }

  function ToMessages(level: nat, pieces: seq<Piece>): (r: seq<Message>)
    ensures |r| == |pieces|
  {
    seq(|pieces|, i requires 0 <= i < |pieces| => ToMessage(level, pieces[i]))
  }

  /** The loop has handed over `done` and stands at `i` with plain text since `start`. */
  ghost predicate Underway(level: nat, b: Bytes, i: nat, start: nat, out: seq<Message>, done: seq<Piece>)
    requires start <= i
  {
    out == ToMessages(level, done) && Scan(b, 0, 0) == Then(done, Scan(b, i, start))
  }

  /** A turn that emits the flushed text and a piece. */
  lemma TurnEmits(
    level: nat, b: Bytes, i: nat, start: nat, out: seq<Message>, done: seq<Piece>, p: Piece, i': nat, start': nat)
    requires start <= i <= |b| && start' <= i' && Underway(level, b, i, start, out, done)
    requires Scan(b, i, start) == Then(Flush(b, start, i) + [p], Scan(b, i', start'))
    ensures var flushed := out + if i > start then [Message(level, b[start..i])] else [];
      Underway(level, b, i', start', flushed + [ToMessage(level, p)], done + (Flush(b, start, i) + [p]))
  {
    hide Scan, ToMessage;
    var more, rest := Flush(b, start, i) + [p], Scan(b, i', start');
    assert done + (more + rest.pieces) == done + more + rest.pieces;
    HandedFlush(level, done, b, start, i);
    ToMessagesConcat(level, done + Flush(b, start, i), [p]);
    assert done + Flush(b, start, i) + [p] == done + more;
  }

  lemma HandedFlush(level: nat, done: seq<Piece>, b: Bytes, start: nat, i: nat)
    requires i <= |b|
    ensures ToMessages(level, done + Flush(b, start, i)) ==
      ToMessages(level, done) + if i > start then [Message(level, b[start..i])] else []
  {
  }

  lemma LoopStarts(level: nat, b: Bytes)
    ensures Underway(level, b, 0, 0, [], [])
  {
    hide Scan;
  }

  lemma TurnSkips(level: nat, b: Bytes, i: nat, start: nat, out: seq<Message>, done: seq<Piece>, i': nat)
    requires start <= i <= i' && Underway(level, b, i, start, out, done) && Scan(b, i, start) == Scan(b, i', start)
    ensures Underway(level, b, i', start, out, done)
  {
    hide Scan;
  }

  /** A turn that emits the flushed text up to `to` and ends the loop. */
  lemma LoopEnds(level: nat, b: Bytes, i: nat, start: nat, out: seq<Message>, done: seq<Piece>, to: nat)
    requires start <= i && to <= |b| && Underway(level, b, i, start, out, done)
    requires Scan(b, i, start).pieces == Flush(b, start, to)
    ensures Scan(b, 0, 0).mode == Scan(b, i, start).mode
    ensures ToMessages(level, Scan(b, 0, 0).pieces) == out + if to > start then [Message(level, b[start..to])] else []
  {
    hide Scan;
    HandedFlush(level, done, b, start, to);
  }

  lemma ToMessagesConcat(level: nat, a: seq<Piece>, b: seq<Piece>)
    ensures ToMessages(level, a + b) == ToMessages(level, a) + ToMessages(level, b)
  {
  }

  /** The consumer and its handler; `head` remembers the header of the open block for the proof. */
  class Consumer {
    const level: nat
    var multi: Option<Bytes>
    var multiLevel: nat
    var handled: seq<Message>
    ghost var head: Bytes

    ghost predicate Valid()
      reads this
    {
      multi.Some? ==> multiLevel == LevelOf(head)
    }

    ghost function Mode(): Mode
      reads this
    {
      if multi.None? then Idle else Multi(head, multi.value)
    }

    constructor (level: nat)
      ensures Valid() && Mode() == Idle && handled == [] && this.level == level
    {
      this.level := level;
      multi, multiLevel, handled, head := None, 0, [], [];
    }

    /** `process`: the open block first, then the scan loop over what is left. */
    method Feed(chunk: Bytes)
      requires Valid()
      modifies this
      ensures Valid() && Mode() == Process(old(Mode()), chunk).mode
      ensures handled == old(handled) + ToMessages(level, Process(old(Mode()), chunk).pieces)
    {
      hide Scan;
      var b := chunk;
      ghost var done: seq<Piece> := [];
      if multi.Some? {
        var text := multi.value;
        if text != [] && text[|text| - 1] == NL && SHORT_TERM <= b {
          done := [Block(head, text, SHORT_TERM)];
          b := b[4..];
        } else {
          var end := FindTerm(b, 0);
          if end.None? {
            multi := Some(text + b);
            return;
          }
          text := text + b[..end.value];
          done := [Block(head, text, TERM)];
          b := b[end.value + 5..];
        }
        handled := handled + [Message(multiLevel, text)];
        multi := None;
      }
      assert Process(old(Mode()), chunk) == Then(done, Scan(b, 0, 0));
      Loop(b);
      ToMessagesConcat(level, done, Scan(b, 0, 0).pieces);
    }

    method Loop(b: Bytes)
      requires Valid() && multi.None?
      modifies this
      ensures Valid() && Mode() == Scan(b, 0, 0).mode
      ensures handled == old(handled) + ToMessages(level, Scan(b, 0, 0).pieces)
    {
      hide Scan, HeaderLength, IsMultiline, LevelOf, ToMessages, Flush, FindTerm, LineEnd, Underway;
      var start: nat, i: nat := 0, 0;
      ghost var out: seq<Message>, done: seq<Piece> := [], [];
      LoopStarts(level, b);
      while i < |b|
        invariant start <= i && Valid() && multi.None?
        invariant handled == old(handled) + out && Underway(level, b, i, start, out, done)
        decreases |b| - i
      {
        ScanTurn(b, i, start);
        var n := HeaderLength(b, i);
        if n == 0 {
          var skip := NewLineOrEOF(b[i..]);
          TurnSkips(level, b, i, start, out, done, i + skip + 1);
          i := i + skip + 1;
          continue;
        }
        ghost var flush := if i > start then [Message(level, b[start..i])] else [];
        if i > start {
          handled := handled + [Message(level, b[start..i])];
        }
        assert handled == old(handled) + (out + flush);
        var j := i + n;
        var h := LevelOf(b[i..j]);
        if !IsMultiline(b, i) {
          var line := NewLineOrEOF(b[j..]);
          var e := j + line;
          var msg := if e == |b| then b[j..e] else b[j..e + 1];
          handled := handled + [Message(h, msg)];
          TurnEmits(level, b, i, start, out, done, Line(b[i..j], msg), e + 1, e + 1);
          out := out + flush + [Message(h, msg)];
          done := done + (Flush(b, start, i) + [Line(b[i..j], msg)]);
          start, i := e + 1, e + 1;
        } else {
          var end := FindTerm(b, j);
          if end.None? {
            LoopEnds(level, b, i, start, out, done, i);
            multi, multiLevel, head := Some(b[j..]), h, b[i..j];
            return;
          }
          var e := end.value;
          handled := handled + [Message(h, b[j..e])];
          TurnEmits(level, b, i, start, out, done, Block(b[i..j], b[j..e], TERM), e + 6, e + 5);
          out := out + flush + [Message(h, b[j..e])];
          done := done + (Flush(b, start, i) + [Block(b[i..j], b[j..e], TERM)]);
          start, i := e + 5, e + 6;
        }
      }
      ScanTurn(b, i, start);
      LoopEnds(level, b, i, start, out, done, |b|);
      if start < |b| {
        handled := handled + [Message(level, b[start..])];
        assert b[start..] == b[start..|b|];
      }
    }
  }

  // ---- losslessness ------------------------------------------------------------------------------

  /** The bytes a piece stood for, in front of the bytes behind it. */
  ghost function Put(p: Piece, tail: Bytes): Bytes {
    match p
    case Text(text) => text + tail
    case Line(head, text) => head + (text + tail)
    case Block(head, text, term) => head + (text + (term + tail))
  }

  ghost function PutAll(pieces: seq<Piece>, tail: Bytes): Bytes {
    if pieces == [] then tail else Put(pieces[0], PutAll(pieces[1..], tail))
  }

  ghost function RawMode(mode: Mode): Bytes {
    if mode.Idle? then [] else mode.head + mode.text
  }

  ghost function Raw(r: Outcome): Bytes {
    PutAll(r.pieces, RawMode(r.mode))
  }

  lemma {:induction false} PutConcat(a: seq<Piece>, b: seq<Piece>, tail: Bytes)
    ensures PutAll(a + b, tail) == PutAll(a, PutAll(b, tail))
  {
    hide Put;
    if a == [] {
      assert a + b == b;
    } else {
      PutConcat(a[1..], b, tail);
      assert (a + b)[1..] == a[1..] + b;
    }
  }

  lemma RawThen(pieces: seq<Piece>, rest: Outcome)
    ensures Raw(Then(pieces, rest)) == PutAll(pieces, Raw(rest))
  {
    PutConcat(pieces, rest.pieces, RawMode(rest.mode));
  }

  lemma PutOne(p: Piece, tail: Bytes)
    ensures PutAll([p], tail) == Put(p, tail)
  {
    assert [p][1..] == [];
  }

  ghost function Rest(b: Bytes, start: nat): Bytes {
    if start <= |b| then b[start..] else []
  }

  /** A turn that flushes the plain text, emits a piece and goes on. */
  lemma RawTurn(b: Bytes, start: nat, i: nat, p: Piece, rest: Outcome)
    requires start <= i <= |b|
    ensures Raw(Then(Flush(b, start, i) + [p], rest)) == b[start..i] + Put(p, Raw(rest))
  {
    hide Put, Raw;
    RawThen(Flush(b, start, i) + [p], rest);
    PutConcat(Flush(b, start, i), [p], Raw(rest));
    PutOne(p, Raw(rest));
    FlushPut(b, start, i, Put(p, Raw(rest)));
  }

  lemma FlushPut(b: Bytes, start: nat, i: nat, tail: Bytes)
    requires start <= i <= |b|
    ensures PutAll(Flush(b, start, i), tail) == b[start..i] + tail
  {
    if start < i {
      PutOne(Text(b[start..i]), tail);
    }
  }

  lemma Cut(b: Bytes, x: nat, y: nat)
    requires x <= y <= |b|
    ensures b[x..] == b[x..y] + b[y..]
  {
  }

  /** The scan gives back every byte it was given, in order. */
  lemma {:induction false} ScanLossless(b: Bytes, i: nat, start: nat)
    requires start <= i
    ensures Raw(Scan(b, i, start)) == Rest(b, start)
    decreases |b| - i
  {
    hide Scan, HeaderLength, IsMultiline, Raw, Then, FindTerm, LineEnd, Flush;
    ScanTurn(b, i, start);
    var n := if i < |b| then HeaderLength(b, i) else 0;
    var j := i + n;
    if i >= |b| {
      TailLossless(b, start);
    } else if n == 0 {
      ScanLossless(b, i + LineEnd(b[i..]) + 1, start);
    } else if !IsMultiline(b, i) {
      var e := j + LineEnd(b[j..]);
      ScanLossless(b, e + 1, e + 1);
      LineLossless(b, start, i, j, e, Scan(b, e + 1, e + 1));
    } else {
      match FindTerm(b, j)
      case Some(e) =>
        ScanLossless(b, e + 6, e + 5);
        BlockLossless(b, start, i, j, e, Scan(b, e + 6, e + 5));
      case None =>
        OpenLossless(b, start, i, j);
    }
  }

  lemma LineLossless(b: Bytes, start: nat, i: nat, j: nat, e: nat, rest: Outcome)
    requires start <= i <= j <= e <= |b| && Raw(rest) == Rest(b, e + 1)
    ensures Raw(Then(Flush(b, start, i) + [Line(b[i..j], b[j..if e == |b| then e else e + 1])], rest)) == b[start..]
  {
    hide Raw, Flush, Then;
    var end := if e == |b| then e else e + 1;
    RawTurn(b, start, i, Line(b[i..j], b[j..end]), rest);
    assert Raw(rest) == b[end..];
    Cut(b, j, end);
    Cut(b, i, j);
    Cut(b, start, i);
  }

  lemma BlockLossless(b: Bytes, start: nat, i: nat, j: nat, e: nat, rest: Outcome)
    requires start <= i <= j <= e && Occurs(b, e) && Raw(rest) == Rest(b, e + 5)
    ensures Raw(Then(Flush(b, start, i) + [Block(b[i..j], b[j..e], TERM)], rest)) == b[start..]
  {
    hide Raw, Flush, Then;
    RawTurn(b, start, i, Block(b[i..j], b[j..e], TERM), rest);
    Cut(b, e, e + 5);
    Cut(b, j, e);
    Cut(b, i, j);
    Cut(b, start, i);
  }

  lemma TailLossless(b: Bytes, start: nat)
    ensures Raw(Outcome(Flush(b, start, |b|), Idle)) == Rest(b, start)
  {
    if start <= |b| {
      FlushPut(b, start, |b|, []);
      assert b[start..|b|] + [] == b[start..];
    }
  }

  lemma OpenLossless(b: Bytes, start: nat, i: nat, j: nat)
    requires start <= i <= j <= |b|
    ensures Raw(Outcome(Flush(b, start, i), Multi(b[i..j], b[j..]))) == b[start..]
  {
    FlushPut(b, start, i, b[i..j] + b[j..]);
    Cut(b, i, j);
    Cut(b, start, i);
  }

  lemma ProcessLossless(mode: Mode, b: Bytes)
    ensures Raw(Process(mode, b)) == RawMode(mode) + b
  {
    hide Scan, FindTerm, Raw, Then;
    if mode.Idle? {
      ScanLossless(b, 0, 0);
      assert b[0..] == b && [] + b == b;
    } else {
      var Multi(head, text) := mode;
      if text != [] && text[|text| - 1] == NL && SHORT_TERM <= b {
        ClosedLossless(head, text, SHORT_TERM, b[4..]);
        assert SHORT_TERM + b[4..] == b;
        Assoc(head, text, b);
      } else {
        match FindTerm(b, 0)
        case Some(e) =>
          ClosedLossless(head, text + b[..e], TERM, b[e + 5..]);
          Cut(b, e, e + 5);
          Assoc(text, b[..e], b[e..]);
          assert b[..e] + b[e..] == b;
          Assoc(head, text, b);
        case None =>
          Assoc(head, text, b);
          PendingRaw(head, text + b);
      }
    }
  }

  lemma Assoc(x: Bytes, y: Bytes, z: Bytes)
    ensures x + (y + z) == x + y + z
  {
  }

  lemma PendingRaw(head: Bytes, text: Bytes)
    ensures Raw(Outcome([], Multi(head, text))) == head + text
  {
  }

  lemma ClosedLossless(head: Bytes, text: Bytes, term: Bytes, rest: Bytes)
    ensures Raw(Then([Block(head, text, term)], Scan(rest, 0, 0))) == head + (text + (term + rest))
  {
    hide Scan, Raw, Then;
    RawThen([Block(head, text, term)], Scan(rest, 0, 0));
    PutOne(Block(head, text, term), Raw(Scan(rest, 0, 0)));
    ScanLossless(rest, 0, 0);
    assert rest[0..] == rest;
  }

  ghost function Joined(chunks: seq<Bytes>): Bytes
    decreases |chunks|
  {
    if chunks == [] then [] else chunks[0] + Joined(chunks[1..])
  }

  lemma {:induction false} PutTail(pieces: seq<Piece>, tail: Bytes, more: Bytes)
    ensures PutAll(pieces, tail + more) == PutAll(pieces, tail) + more
  {
    if pieces != [] {
      PutTail(pieces[1..], tail, more);
      var rest := PutAll(pieces[1..], tail);
      match pieces[0] {
        case Text(text) => Assoc(text, rest, more);
        case Line(head, text) =>
          Assoc(text, rest, more);
          Assoc(head, text + rest, more);
        case Block(head, text, term) =>
          Assoc(term, rest, more);
          Assoc(text, term + rest, more);
          Assoc(head, text + (term + rest), more);
      }
    }
  }

  /** For every sequence of chunks the bytes fed are, in order, the emitted payloads and the pending
      block with the dropped headers and terminators put back. */
  lemma {:induction false} Lossless(mode: Mode, chunks: seq<Bytes>)
    ensures Raw(ProcessAll(mode, chunks)) == RawMode(mode) + Joined(chunks)
    decreases |chunks|
  {
    if chunks == [] {
      assert RawMode(mode) + [] == RawMode(mode);
    } else {
      hide Process, PutAll, RawMode;
      var first := Process(mode, chunks[0]);
      ProcessLossless(mode, chunks[0]);
      Lossless(first.mode, chunks[1..]);
      RawThen(first.pieces, ProcessAll(first.mode, chunks[1..]));
      PutTail(first.pieces, RawMode(first.mode), Joined(chunks[1..]));
      Assoc(RawMode(mode), chunks[0], Joined(chunks[1..]));
    }
  }

  /** What is put back is framing: plain text has none, a line one header with two colons, a block one
      with three colons and a terminator that stood there. */
  ghost predicate Framed(p: Piece) {
    match p
    case Text(text) => text != []
    case Line(head, _) => IsHead(head, 2)
    case Block(head, text, term) =>
      IsHead(head, 3) && (term == TERM || (term == SHORT_TERM && text != [] && text[|text| - 1] == NL))
  }

  ghost predicate IsHead(head: Bytes, colons: nat) {
    && |head| > colons
    && (forall k :: 0 <= k < |head| - colons ==> IsDigit(head[k]))
    && (forall k :: |head| - colons <= k < |head| ==> head[k] == COLON)
  }

  ghost predicate ModeFramed(mode: Mode) {
    mode.Multi? ==> IsHead(mode.head, 3)
  }

  ghost predicate AllFramed(pieces: seq<Piece>) {
    forall p :: p in pieces ==> Framed(p)
  }

  lemma HeadFramed(b: Bytes, i: nat)
    requires i <= |b| && HeaderLength(b, i) > 0
    ensures IsHead(b[i..i + HeaderLength(b, i)], if IsMultiline(b, i) then 3 else 2)
  {
  }

  lemma {:induction false} ScanFramed(b: Bytes, i: nat, start: nat)
    requires start <= i
    ensures AllFramed(Scan(b, i, start).pieces) && ModeFramed(Scan(b, i, start).mode)
    decreases |b| - i
  {
    hide Scan, HeaderLength, IsMultiline, IsHead, FindTerm;
    ScanTurn(b, i, start);
    if i < |b| {
      var n := HeaderLength(b, i);
      var j := i + n;
      if n == 0 {
        ScanFramed(b, i + LineEnd(b[i..]) + 1, start);
      } else {
        HeadFramed(b, i);
        if !IsMultiline(b, i) {
          ScanFramed(b, j + LineEnd(b[j..]) + 1, j + LineEnd(b[j..]) + 1);
        } else if FindTerm(b, j).Some? {
          ScanFramed(b, FindTerm(b, j).value + 6, FindTerm(b, j).value + 5);
        }
      }
    }
  }

  lemma {:induction false} FramingOnly(mode: Mode, chunks: seq<Bytes>)
    requires ModeFramed(mode)
    ensures AllFramed(ProcessAll(mode, chunks).pieces) && ModeFramed(ProcessAll(mode, chunks).mode)
    decreases |chunks|
  {
    hide Scan, IsHead, FindTerm;
    if chunks != [] {
      var b := chunks[0];
      ScanFramed(b, 0, 0);
      if mode.Multi? && SHORT_TERM <= b {
        ScanFramed(b[4..], 0, 0);
      }
      if mode.Multi? && FindTerm(b, 0).Some? {
        ScanFramed(b[FindTerm(b, 0).value + 5..], 0, 0);
      }
      FramingOnly(Process(mode, b).mode, chunks[1..]);
    }
  }
}
