/** A block frame that reaches the stream parser in any number of reads: exactly which cuts it survives.
    About base/pm/stream/input.go. */
module StreamCuts {
  import opened Wrappers
  import opened StreamParser
  import opened StreamFrames

  ghost function Frame(level: nat, payload: Bytes): Bytes {
    Head(level, 3) + (payload + TERM)
  }

  /** The frame comes out as its one message and the consumer is idle again. */
  ghost predicate Arrives(consumer: nat, level: nat, payload: Bytes, chunks: seq<Bytes>) {
    IsMessage(consumer, level, payload, ProcessAll(Idle, chunks))
  }

  ghost predicate IsMessage(consumer: nat, level: nat, payload: Bytes, r: Outcome) {
    ToMessages(consumer, r.pieces) == [Message(level, payload)] && r.mode == Idle
  }

  /** A boundary in the payload or at an end of the frame. */
  ghost predicate GoodCut(level: nat, payload: Bytes, c: nat) {
    c == 0 || c == |Frame(level, payload)| || |Head(level, 3)| <= c <= |Head(level, 3)| + |payload|
  }

  /** All boundaries behind the chunks, counted from `c`, are good. */
  ghost predicate GoodCuts(level: nat, payload: Bytes, c: nat, chunks: seq<Bytes>)
    decreases |chunks|
  {
    chunks == [] || (var d := c + |chunks[0]|; GoodCut(level, payload, d) && GoodCuts(level, payload, d, chunks[1..]))
  }

  // ---- where the parser stands -----------------------------------------------------------------------

  lemma NothingRead()
    ensures Process(Idle, []) == Outcome([], Idle)
  {
  }

  /** The parser behind the first `c` bytes of the frame, none of the cuts so far in its header. */
  ghost function Standing(level: nat, payload: Bytes, c: nat): Mode
    requires c <= |Frame(level, payload)|
  {
    var f, h := Frame(level, payload), Head(level, 3);
    if c < |h| || c == |f| then Idle else Multi(h, f[|h|..c])
  }

  lemma TermNotYet(payload: Bytes, x: Bytes, b: Bytes, z: Bytes)
    requires NoEarlyTerm(payload) && payload + TERM == x + b + z && z != []
    ensures FindTerm(b, 0).None?
  {
    hide FindTerm, NoEarlyTerm;
    if FindTerm(b, 0).Some? {
      NoTermInside(payload, x, b, z, FindTerm(b, 0).value);
    }
  }

  /** From the front of the frame into its block. */
  lemma OpensInto(level: nat, payload: Bytes, b: Bytes, z: Bytes)
    requires NoEarlyTerm(payload) && payload + TERM == b + z && z != []
    ensures Process(Idle, Head(level, 3) + b) == Outcome([], Multi(Head(level, 3), b))
  {
    hide Process, Head, FindTerm, NoEarlyTerm, Scan;
    assert payload + TERM == [] + b + z;
    TermNotYet(payload, [], b, z);
    Opens(level, b);
  }

  /** Further into the block, from a cut that does not lie in the terminator. */
  lemma CollectsInto(head: Bytes, payload: Bytes, x: Bytes, b: Bytes, z: Bytes)
    requires NoEarlyTerm(payload) && payload + TERM == x + b + z && z != [] && |x| <= |payload|
    ensures Process(Multi(head, x), b) == Outcome([], Multi(head, x + b))
  {
    hide FindTerm, NoEarlyTerm, Scan;
    TermNotYet(payload, x, b, z);
    NoShortTerm(payload, x, b, z);
  }

  lemma Empty(mode: Mode)
    ensures Process(mode, []) == Outcome([], mode)
  {
    hide Scan, FindTerm;
    NothingRead();
    if mode.Multi? {
      assert mode.text + [] == mode.text;
    }
  }

  /** One read from a good cut into the block or its terminator hands over nothing. */
  lemma ReadsInto(level: nat, payload: Bytes, c: nat, d: nat)
    requires NoEarlyTerm(payload) && GoodCut(level, payload, c)
    requires c <= d < |Frame(level, payload)| && |Head(level, 3)| <= d
    ensures Process(Standing(level, payload, c), Frame(level, payload)[c..d]) ==
      Outcome([], Standing(level, payload, d))
  {
    hide Process, NoEarlyTerm;
    var f, h := Frame(level, payload), Head(level, 3);
    var z := f[d..];
    if c == 0 {
      var b := f[|h|..d];
      assert payload + TERM == b + z && f[0..d] == h + b;
      OpensInto(level, payload, b, z);
    } else {
      var x, b := f[|h|..c], f[c..d];
      assert x + b == f[|h|..d];
      assert x + b + z == f[|h|..] == payload + TERM;
      CollectsInto(h, payload, x, b, z);
    }
  }

  /** One read from a good cut to the end of the frame hands over its block. */
  lemma ReadsToEnd(level: nat, payload: Bytes, c: nat)
    requires NoEarlyTerm(payload) && GoodCut(level, payload, c) && c < |Frame(level, payload)|
    ensures Process(Standing(level, payload, c), Frame(level, payload)[c..]) ==
      Outcome([Block(Head(level, 3), payload, TERM)], Idle)
  {
    hide Process, NoEarlyTerm;
    var f, h := Frame(level, payload), Head(level, 3);
    if c == 0 {
      WholeFrame(level, payload);
      assert f[0..] == f;
    } else {
      var x, b := f[|h|..c], payload[c - |h|..];
      assert payload == x + b && f[c..] == b + TERM;
      Closes(h, payload, x, b);
    }
  }

  /** One read between two good cuts. */
  lemma GoodRead(level: nat, payload: Bytes, c: nat, d: nat)
    requires NoEarlyTerm(payload) && GoodCut(level, payload, c) && GoodCut(level, payload, d)
    requires c <= d <= |Frame(level, payload)|
    ensures Process(Standing(level, payload, c), Frame(level, payload)[c..d]) ==
      Outcome(if c < |Frame(level, payload)| == d then [Block(Head(level, 3), payload, TERM)] else [],
              Standing(level, payload, d))
  {
    hide Process, NoEarlyTerm, Head;
    var f := Frame(level, payload);
    if c == d {
      Empty(Standing(level, payload, c));
    } else if d == |f| {
      ReadsToEnd(level, payload, c);
      assert f[c..d] == f[c..];
    } else {
      ReadsInto(level, payload, c, d);
    }
  }

  // ---- bad cuts ---------------------------------------------------------------------------------------

  /** Bytes read by an idle consumer that ends up idle are handed over. */
  lemma IdleHandsOver(chunks: seq<Bytes>)
    requires Joined(chunks) != [] && ProcessAll(Idle, chunks).mode == Idle
    ensures ProcessAll(Idle, chunks).pieces != []
  {
    hide ProcessAll, Joined;
    Lossless(Idle, chunks);
  }

  /** Three colons stand where a block was opened. */
  lemma OpenedAtColons(b: Bytes) returns (q: nat)
    requires Process(Idle, b).mode.Multi?
    ensures q + 2 < |b| && b[q] == b[q + 1] == b[q + 2] == COLON
  {
    hide Process, AllFramed, PutAll;
    var r := Process(Idle, b);
    ProcessFramed(b);
    ProcessLossless(Idle, b);
    var head, text := r.mode.head, r.mode.text;
    var before := PutAll(r.pieces, []);
    PutTail(r.pieces, [], head + text);
    assert [] + (head + text) == head + text && b == before + (head + text);
    q := |before| + |head| - 3;
    assert b[q] == head[|head| - 3] && b[q + 1] == head[|head| - 2] && b[q + 2] == head[|head| - 1];
  }

  lemma ProcessFramed(b: Bytes)
    ensures ModeFramed(Process(Idle, b).mode)
  {
    hide Scan;
    ScanFramed(b, 0, 0);
  }

  /** Part of a header does not open a block. */
  lemma PartOfHeader(level: nat, c: nat)
    requires c < |Head(level, 3)|
    ensures Process(Idle, Head(level, 3)[..c]).mode == Idle
  {
    hide Process;
    var b, d := Head(level, 3)[..c], |Digits(level)|;
    assert |b| < d + 3 && forall i :: 0 <= i < |b| && i < d ==> IsDigit(b[i]);
    if Process(Idle, b).mode.Multi? {
      var q := OpenedAtColons(b);
    }
  }

  /** A cut in the header yields at least two messages, or leaves a block open. */
  lemma CutInHeader(consumer: nat, level: nat, payload: Bytes, chunks: seq<Bytes>)
    requires chunks != [] && Joined(chunks) == Frame(level, payload) && 0 < |chunks[0]| < |Head(level, 3)|
    ensures !IsMessage(consumer, level, payload, ProcessAll(Idle, chunks))
  {
    hide Process, ToMessage, Head;
    var f, a, rest := Frame(level, payload), chunks[0], chunks[1..];
    assert a == f[..|a|] == Head(level, 3)[..|a|];
    PartOfHeader(level, |a|);
    OneRead(a);
    IdleHandsOver([a]);
    assert Joined(rest) == f[|a|..];
    if ProcessAll(Idle, rest).mode == Idle {
      IdleHandsOver(rest);
      assert |ToMessages(consumer, ProcessAll(Idle, chunks).pieces)| >= 2;
    }
  }

  lemma OneRead(a: Bytes)
    ensures Joined([a]) == a && ProcessAll(Idle, [a]) == Process(Idle, a)
  {
    hide Process;
    var none: seq<Bytes> := [];
    AllOf(Idle, a, none);
    assert [a] + none == [a] && [a][1..] == none && Joined(none) == [];
  }

  /** The first message out of an open block carries at least what was collected before. */
  lemma {:induction false} BlockOnlyGrows(head: Bytes, text: Bytes, chunks: seq<Bytes>)
    ensures var pieces := ProcessAll(Multi(head, text), chunks).pieces;
      pieces != [] ==> pieces[0].Block? && |pieces[0].text| >= |text|
    decreases |chunks|
  {
    hide Scan, FindTerm;
    if chunks != [] {
      BlockOnlyGrows(head, text + chunks[0], chunks[1..]);
    }
  }

  /** A cut in the terminator leaves the block open, or gives its text a newline too many. */
  lemma CutInTerminator(consumer: nat, level: nat, payload: Bytes, d: nat, chunks: seq<Bytes>)
    requires |Head(level, 3)| + |payload| < d < |Frame(level, payload)|
    ensures !IsMessage(consumer, level, payload, ProcessAll(Standing(level, payload, d), chunks))
  {
    hide ProcessAll, Head, LevelOf;
    var h, text := Head(level, 3), Frame(level, payload)[|Head(level, 3)|..d];
    BlockOnlyGrows(h, text, chunks);
    var r := ProcessAll(Multi(h, text), chunks);
    if r.pieces != [] {
      assert ToMessages(consumer, r.pieces)[0].text == r.pieces[0].text;
    }
  }

  lemma BadRead(consumer: nat, level: nat, payload: Bytes, c: nat, chunks: seq<Bytes>)
    requires NoEarlyTerm(payload) && chunks != [] && GoodCut(level, payload, c) && c <= |Frame(level, payload)|
    requires Joined(chunks) == Frame(level, payload)[c..] && !GoodCut(level, payload, c + |chunks[0]|)
    ensures !IsMessage(consumer, level, payload, ProcessAll(Standing(level, payload, c), chunks))
  {
    hide NoEarlyTerm, Process, IsMessage, Head;
    var f, d := Frame(level, payload), c + |chunks[0]|;
    assert chunks[0] == f[c..d];
    if d < |Head(level, 3)| {
      assert f[0..] == f;
      CutInHeader(consumer, level, payload, chunks);
    } else {
      ReadsInto(level, payload, c, d);
      CutInTerminator(consumer, level, payload, d, chunks[1..]);
      var rest := ProcessAll(Standing(level, payload, d), chunks[1..]);
      assert [] + rest.pieces == rest.pieces;
    }
  }

  // ---- all cuts ---------------------------------------------------------------------------------------

  lemma {:induction false} NothingLeft(chunks: seq<Bytes>)
    requires Joined(chunks) == []
    ensures ProcessAll(Idle, chunks) == Outcome([], Idle)
    ensures forall level, payload :: GoodCuts(level, payload, |Frame(level, payload)|, chunks)
    decreases |chunks|
  {
    hide Process, Head;
    if chunks != [] {
      assert chunks[0] == [] && Joined(chunks[1..]) == [];
      NothingRead();
      NothingLeft(chunks[1..]);
    }
  }

  lemma {:induction false} FromGoodCut(consumer: nat, level: nat, payload: Bytes, c: nat, chunks: seq<Bytes>)
    requires NoEarlyTerm(payload) && level <= 65535 && GoodCut(level, payload, c) && c < |Frame(level, payload)|
    requires Joined(chunks) == Frame(level, payload)[c..]
    ensures IsMessage(consumer, level, payload, ProcessAll(Standing(level, payload, c), chunks))
      <==> GoodCuts(level, payload, c, chunks)
    decreases |chunks|
  {
    hide Process, NoEarlyTerm, IsMessage, Head, Standing, GoodCut;
    var f := Frame(level, payload);
    assert chunks != [];
    var d, rest := c + |chunks[0]|, chunks[1..];
    assert chunks[0] == f[c..d] && Joined(rest) == f[d..];
    if !GoodCut(level, payload, d) {
      BadRead(consumer, level, payload, c, chunks);
    } else {
      GoodRead(level, payload, c, d);
      if d < |f| {
        FromGoodCut(consumer, level, payload, d, rest);
        var more := ProcessAll(Standing(level, payload, d), rest);
        assert [] + more.pieces == more.pieces;
      } else {
        NothingLeft(rest);
        AtTheEnd(consumer, level, payload);
        var block := [Block(Head(level, 3), payload, TERM)];
        assert block + [] == block;
      }
    }
  }

  lemma AtTheEnd(consumer: nat, level: nat, payload: Bytes)
    requires level <= 65535
    ensures IsMessage(consumer, level, payload, Outcome([Block(Head(level, 3), payload, TERM)], Idle))
    ensures Standing(level, payload, |Frame(level, payload)|) == Idle
  {
    hide Head, LevelOf;
    LevelOfHead(level, 3);
  }

  /** A frame that arrives in any number of reads comes out as its one message exactly when every
      boundary between reads falls in the payload or at an end of the frame. */
  lemma CutsIff(consumer: nat, level: nat, payload: Bytes, chunks: seq<Bytes>)
    requires NoEarlyTerm(payload) && level <= 65535 && Joined(chunks) == Frame(level, payload)
    ensures Arrives(consumer, level, payload, chunks) <==> GoodCuts(level, payload, 0, chunks)
  {
    hide IsMessage, GoodCuts, NoEarlyTerm, ProcessAll;
    var f := Frame(level, payload);
    assert f[0..] == f;
    FromGoodCut(consumer, level, payload, 0, chunks);
  }
}
