/** What stands behind a block in the same chunk: the stream parser goes on one byte too far, and exactly
    when that does no harm. About base/pm/stream/input.go. */
module StreamBehind {
  import opened Wrappers
  import opened StreamParser
  import opened StreamFrames
  import opened StreamText

  // ---- a scan does not look back ---------------------------------------------------------------------

  lemma HeaderShift(x: Bytes, b: Bytes, i: nat)
    requires i <= |b|
    ensures HeaderLength(x + b, |x| + i) == HeaderLength(b, i)
    ensures IsMultiline(x + b, |x| + i) == IsMultiline(b, i)
  {
    hide DigitRun;
    var d := DigitRun(b, i);
    forall k | |x| + i <= k < |x| + i + d ensures IsDigit((x + b)[k]) {
      assert (x + b)[k] == b[k - |x|];
    }
    DigitRunIs(x + b, |x| + i, d);
  }

  lemma FindShift(x: Bytes, b: Bytes, j: nat)
    requires j <= |b|
    ensures FindTerm(x + b, |x| + j) ==
      match FindTerm(b, j) case None => None case Some(e) => Some(|x| + e)
  {
    hide FindTerm, Occurs;
    var whole, part := FindTerm(x + b, |x| + j), FindTerm(b, j);
    if part.Some? {
      OccursBehind(x, b, part.value);
      forall m: nat | |x| + j <= m < |x| + part.value ensures !Occurs(x + b, m) {
        OccursBehind(x, b, m - |x|);
      }
      FirstTerm(x + b, |x| + j, |x| + part.value);
    } else if whole.Some? {
      OccursBehind(x, b, whole.value - |x|);
    }
  }

  lemma SliceShift(x: Bytes, b: Bytes, i: nat, j: nat)
    requires i <= j <= |b|
    ensures (x + b)[|x| + i..|x| + j] == b[i..j] && (x + b)[|x| + i..] == b[i..]
  {
  }

  lemma FlushShift(x: Bytes, b: Bytes, start: nat, i: nat)
    ensures Flush(x + b, |x| + start, |x| + i) == Flush(b, start, i)
  {
    if start < i <= |b| {
      SliceShift(x, b, start, i);
    }
  }

  /** The scan behind a prefix is the scan of what is behind it. */
  lemma {:induction false} ScanShift(x: Bytes, b: Bytes, i: nat, start: nat)
    requires start <= i
    ensures Scan(x + b, |x| + i, |x| + start) == Scan(b, i, start)
    decreases |b| - i
  {
    hide Scan, HeaderLength, IsMultiline, FindTerm, LineEnd, Flush;
    ScanTurn(b, i, start);
    ScanTurn(x + b, |x| + i, |x| + start);
    if i >= |b| {
      FlushShift(x, b, start, |b|);
    } else {
      HeaderShift(x, b, i);
      FlushShift(x, b, start, i);
      var j := i + HeaderLength(b, i);
      SliceShift(x, b, i, j);
      SliceShift(x, b, j, |b|);
      if j == i {
        ScanShift(x, b, i + LineEnd(b[i..]) + 1, start);
      } else if !IsMultiline(b, i) {
        var e := j + LineEnd(b[j..]);
        SliceShift(x, b, j, if e == |b| then e else e + 1);
        ScanShift(x, b, e + 1, e + 1);
      } else {
        FindShift(x, b, j);
        if FindTerm(b, j).Some? {
          var e := FindTerm(b, j).value;
          SliceShift(x, b, j, e);
          ScanShift(x, b, e + 6, e + 5);
        }
      }
    }
  }

  // ---- behind a block --------------------------------------------------------------------------------

  lemma TermFirst(payload: Bytes, rest: Bytes)
    requires NoEarlyTerm(payload)
    ensures FindTerm(payload + TERM + rest, 0) == Some(|payload|)
  {
    hide FindTerm;
    var b := payload + TERM + rest;
    assert b[|payload|..|payload| + 5] == TERM;
    forall m: nat | m < |payload| ensures !Occurs(b, m) {
      assert b[m..m + 5] == (payload + TERM)[m..m + 5];
      assert Occurs(payload + TERM, m) == Occurs(b, m);
    }
    FirstTerm(b, 0, |payload|);
  }

  /** The block comes out, and what is behind it is scanned from its second byte on. */
  lemma BehindBlock(level: nat, payload: Bytes, rest: Bytes)
    requires NoEarlyTerm(payload)
    ensures Process(Idle, Head(level, 3) + (payload + TERM + rest)) ==
      Then([Block(Head(level, 3), payload, TERM)], Scan(rest, 1, 0))
  {
    hide Process, Scan, Head, NoEarlyTerm, FindTerm;
    var h, b := Head(level, 3), payload + TERM + rest;
    TermFirst(payload, rest);
    Opens(level, b);
    assert b[..|payload|] == payload;
    var x := h + (payload + TERM);
    assert h + b == x + rest;
    ScanShift(x, rest, 1, 0);
  }

  /** A scan that holds text back hands that text over first. */
  lemma {:induction false} FirstIsText(b: Bytes, i: nat)
    requires i > 0 && b != []
    ensures var pieces := Scan(b, i, 0).pieces;
      && pieces != [] && pieces[0].Text? && (i >= |b| ==> pieces[0].text == b) && (i < |b| ==> |pieces[0].text| >= i)
      && (i < |b| && HeaderLength(b, i) > 0 ==> |pieces[0].text| == i)
    decreases |b| - i
  {
    hide Scan, HeaderLength, IsMultiline, FindTerm, LineEnd;
    ScanTurn(b, i, 0);
    assert b[0..|b|] == b;
    if i < |b| && HeaderLength(b, i) == 0 {
      FirstIsText(b, i + LineEnd(b[i..]) + 1);
    }
  }

  /** Behind a block what follows is read as it would be alone. */
  ghost predicate ReadsOn(rest: Bytes) {
    Scan(rest, 1, 0) == Scan(rest, 0, 0)
  }

  lemma HeaderIsNotText(b: Bytes)
    requires b != [] && HeaderLength(b, 0) > 0
    ensures Scan(b, 0, 0).pieces == [] || !Scan(b, 0, 0).pieces[0].Text?
  {
    hide Scan, HeaderLength, IsMultiline, FindTerm, LineEnd;
    ScanTurn(b, 0, 0);
    assert Flush(b, 0, 0) == [];
  }

  /** The next line starts at the same place from the first byte of a line and from its second. */
  lemma SameLineEnd(b: Bytes)
    requires b != [] && b[0] != NL && NL in b[1..]
    ensures LineEnd(b) == 1 + LineEnd(b[1..])
  {
    hide LineEnd;
    var k := FirstNewline(b[1..]);
    LineEndAt(b[1..], k);
    forall m | 0 <= m < k + 1 ensures b[m] != NL {
      assert m > 0 ==> b[m] == b[1..][m - 1];
    }
    assert b[k + 1] == b[1..][k];
    LineEndAt(b, k + 1);
  }

  /** What follows a block in its chunk is read as it would be alone exactly when it neither starts with a
      header nor carries one behind a first byte that is no newline. */
  lemma ReadsOnIff(rest: Bytes)
    requires rest != []
    ensures ReadsOn(rest) <==>
      HeaderLength(rest, 0) == 0 && (rest[0] == NL || HeaderLength(rest, 1) == 0)
  {
    hide Scan, HeaderLength, LineEnd;
    FirstIsText(rest, 1);
    if HeaderLength(rest, 0) > 0 {
      HeaderIsNotText(rest);
    } else {
      ScanTurn(rest, 0, 0);
      assert rest[0..] == rest;
      NoHeaderInFront(rest);
    }
  }

  lemma NoHeaderInFront(rest: Bytes)
    requires rest != [] && HeaderLength(rest, 0) == 0
    ensures Scan(rest, 1, 0) == Scan(rest, LineEnd(rest) + 1, 0) <==> rest[0] == NL || HeaderLength(rest, 1) == 0
  {
    hide Scan, HeaderLength, LineEnd;
    if |rest| == 1 {
      ShortLine(rest);
      ScanBehind(rest, 1, 0);
      ScanBehind(rest, 2, 0);
      HeaderNeedsMore(rest);
    } else if rest[0] == NL {
      LineEndAt(rest, 0);
    } else if HeaderLength(rest, 1) == 0 {
      ScanTurn(rest, 1, 0);
      if NL in rest[1..] {
        SameLineEnd(rest);
      } else {
        assert forall k :: 0 < k < |rest| ==> rest[k] == rest[1..][k - 1];
        StaysOnTrack(rest, 0);
        StaysOnTrack(rest, 1);
        assert rest[0..] == rest;
        ScanHeaderless(rest, LineEnd(rest) + 1);
        ScanHeaderless(rest, 1 + LineEnd(rest[1..]) + 1);
      }
    } else {
      DigitBehind(rest);
      FirstIsText(rest, 1);
      FirstIsText(rest, LineEnd(rest) + 1);
    }
  }

  lemma ShortLine(b: Bytes)
    requires |b| == 1
    ensures LineEnd(b) == 1
  {
  }

  lemma HeaderNeedsMore(b: Bytes)
    requires |b| == 1
    ensures HeaderLength(b, 1) == 0
  {
  }

  lemma DigitBehind(b: Bytes)
    requires |b| > 1 && b[0] != NL && HeaderLength(b, 1) > 0
    ensures LineEnd(b) >= 1
  {
    assert IsDigit(b[1]);
    assert RuneWidth(b, 0) == 1;
  }

  /** A printed line of a level below ten right behind a block is not read as one: it comes out as plain
      text of the level of the consumer, header and all. */
  lemma LineBehindBlock(consumer: nat, level: nat, payload: Bytes, e: Entry)
    requires NoEarlyTerm(payload) && Printable(e) && e.level < 10
    ensures var r := Process(Idle, Head(level, 3) + (payload + TERM + PrintLine(e)));
      r.pieces == [Block(Head(level, 3), payload, TERM), Text(PrintLine(e))] && r.mode == Idle
  {
    hide Process, Scan, HeaderLength, LineEnd, NoEarlyTerm;
    var line := PrintLine(e);
    BehindBlock(level, payload, line);
    assert Digits(e.level) == [48 + e.level] && line[0] == 48 + e.level && line[1] == COLON && line[|line| - 1] == NL;
    ColonIsNoHeader(line);
    assert line[1..] == [COLON, COLON] + e.text + [NL];
    LineEndAt(line[1..], |line| - 2);
    ScanTurn(line, 1, 0);
    ScanBehind(line, 1 + LineEnd(line[1..]) + 1, 0);
    assert line[0..|line|] == line;
    assert [Block(Head(level, 3), payload, TERM)] + [Text(line)] == [Block(Head(level, 3), payload, TERM), Text(line)];
  }

  lemma ColonIsNoHeader(b: Bytes)
    requires |b| > 1 && b[1] == COLON
    ensures HeaderLength(b, 1) == 0
  {
  }
}
