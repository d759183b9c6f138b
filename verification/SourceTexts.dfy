/** Which texts stand for the left side of a port forward, and for which one.
    About getSource in apps/core0/helper/socat/rule.go. */
module SourceTexts {
  import opened Wrappers
  import opened StreamParser
  import opened StreamFrames
  import opened Sources

  /** The pieces of a host text: an address in front of the first colon, blanks, a number, text behind the
      number that nobody reads, and protocols behind the first bar. */
  datatype Written = Written(address: Option<Bytes>, blanks: Bytes, digits: Bytes, junk: Bytes,
                             protocols: Option<seq<Protocol>>) {
    ghost function Number(): Bytes { blanks + (digits + junk) }
    ghost function Left(): Bytes {
      if address.Some? then address.value + [COLON] + Number() else Number()
    }
    ghost function Text(): Bytes {
      if protocols.Some? then Left() + [BAR] + Names(protocols.value) else Left()
    }
    ghost function Meant(): Source
      requires AllDigits(digits)
    {
      Source(if address.Some? then address.value else ANY_ADDRESS, Value(digits),
             if protocols.Some? then protocols.value else [Tcp])
    }
  }

  ghost predicate AllDigits(b: Bytes) {
    forall k :: 0 <= k < |b| ==> IsDigit(b[k])
  }

  ghost predicate AllBlank(b: Bytes)
    decreases |b|
  {
    b == [] || (BlankWidth(b) > 0 && AllBlank(b[BlankWidth(b)..]))
  }

  /** A number from 1 to 65535, at least one protocol if there is a bar, and separators where they are. */
  ghost predicate Proper(w: Written) {
    && AllBlank(w.blanks) && w.digits != [] && AllDigits(w.digits) && 1 <= Value(w.digits) <= 65535
    && (w.junk != [] ==> !IsDigit(w.junk[0]))
    && (w.protocols.Some? ==> w.protocols.value != [])
    && BAR !in w.Left()
    && (if w.address.Some? then COLON !in w.address.value else COLON !in w.Number())
  }

  // ---- numbers ---------------------------------------------------------------------------------------

  lemma BlankInFront(b: Bytes, rest: Bytes)
    requires BlankWidth(b) > 0
    ensures BlankWidth(b + rest) == BlankWidth(b)
    ensures (b + rest)[BlankWidth(b)..] == b[BlankWidth(b)..] + rest
  {
    var s := b + rest;
    assert forall k :: 0 <= k < |b| ==> s[k] == b[k];
    assert |b| >= 2 ==> s[..2] == b[..2];
    assert |b| >= 3 ==> s[..3] == b[..3];
  }

  /** One turn of the scan. */
  lemma NumberTurn(s: Bytes)
    ensures ScanNumber(s) ==
      if BlankWidth(s) > 0 then ScanNumber(s[BlankWidth(s)..])
      else if DigitRun(s, 0) == 0 then None else Some(Value(s[..DigitRun(s, 0)]))
  {
    hide DigitRun, Value, BlankWidth;
  }

  lemma DigitIsNoBlank(s: Bytes)
    requires s != [] && IsDigit(s[0])
    ensures BlankWidth(s) == 0
  {
  }

  lemma BlankTurn(b: Bytes)
    ensures AllBlank(b) <==> b == [] || (BlankWidth(b) > 0 && AllBlank(b[BlankWidth(b)..]))
  {
    hide BlankWidth;
  }

  lemma {:induction false} ScanWritten(blanks: Bytes, digits: Bytes, junk: Bytes)
    requires AllBlank(blanks) && digits != [] && AllDigits(digits) && (junk != [] ==> !IsDigit(junk[0]))
    ensures ScanNumber(blanks + (digits + junk)) == Some(Value(digits))
    decreases |blanks|
  {
    hide ScanNumber, BlankWidth, AllBlank, DigitRun, Value;
    var tail := digits + junk;
    NumberTurn(blanks + tail);
    BlankTurn(blanks);
    if blanks == [] {
      assert blanks + tail == tail && IsDigit(tail[0]);
      DigitIsNoBlank(tail);
      DigitRunIs(tail, 0, |digits|);
      assert tail[..|digits|] == digits;
    } else {
      BlankInFront(blanks, tail);
      ScanWritten(blanks[BlankWidth(blanks)..], digits, junk);
    }
  }

  /** Every number that is read is written as blanks, digits and the rest. */
  lemma {:induction false} ScanReads(s: Bytes) returns (blanks: Bytes, digits: Bytes, junk: Bytes)
    requires ScanNumber(s).Some?
    ensures AllBlank(blanks) && digits != [] && AllDigits(digits) && (junk != [] ==> !IsDigit(junk[0]))
    ensures s == blanks + (digits + junk) && ScanNumber(s).value == Value(digits)
    decreases |s|
  {
    hide ScanNumber, BlankWidth, AllBlank, DigitRun, Value;
    NumberTurn(s);
    var w := BlankWidth(s);
    if w > 0 {
      var rest;
      rest, digits, junk := ScanReads(s[w..]);
      blanks := s[..w] + rest;
      BlankAlone(s);
      BlankInFront(s[..w], rest);
      BlankTurn(blanks);
      assert s[..w][w..] + rest == rest;
      assert s == s[..w] + s[w..];
    } else {
      var d := DigitRun(s, 0);
      blanks, digits, junk := [], s[..d], s[d..];
      BlankTurn(blanks);
    }
  }

  lemma BlankAlone(s: Bytes)
    ensures BlankWidth(s) > 0 ==> BlankWidth(s[..BlankWidth(s)]) == BlankWidth(s)
  {
    var w := BlankWidth(s);
    if w == 3 {
      assert s[..3][..3] == s[..3] && s[..3][..2] == s[..2];
    }
  }

  // ---- hosts and protocols -----------------------------------------------------------------------------

  lemma HostWritten(w: Written, protocols: seq<Protocol>)
    requires Proper(w)
    ensures Host(w.Left(), protocols) == Some(w.Meant().(protocols := protocols))
  {
    hide ScanNumber, AllBlank, Value;
    ScanWritten(w.blanks, w.digits, w.junk);
    if w.address.Some? {
      IndexIs(w.address.value, COLON, w.Number());
      assert w.Left()[|w.address.value| + 1..] == w.Number() && w.Left()[..|w.address.value|] == w.address.value;
    } else {
      IndexIs(w.Number(), COLON, []);
    }
  }

  lemma TextWritten(w: Written)
    requires Proper(w)
    ensures ParsedSource(w.Text()) == Some(w.Meant())
  {
    hide Host, Split, ProtocolsOf, AllBlank, Value, Names;
    var left := w.Left();
    assert BAR !in left;
    if w.protocols.Some? {
      var ps := w.protocols.value;
      HostWritten(w, ps);
      IndexIs(left, BAR, Names(ps));
      assert w.Text()[..|left|] == left && w.Text()[|left| + 1..] == Names(ps);
      SplitNames(ps);
      NamesRead(Split(Names(ps), PLUS), ps);
    } else {
      HostWritten(w, [Tcp]);
      IndexIs(left, BAR, []);
      assert left[..|left|] == left;
    }
  }

  lemma {:induction false} NamesAre(names: seq<Bytes>)
    ensures var ps := ProtocolsOf(names);
      ps.Some? ==> |ps.value| == |names| && forall i :: 0 <= i < |names| ==> names[i] == ps.value[i].Name()
  {
    if names != [] {
      NamesAre(names[..|names| - 1]);
    }
  }

  lemma SplitTurn(s: Bytes)
    ensures var i := Index(s, PLUS);
      Split(s, PLUS) == if i == |s| then [s] else [s[..i]] + Split(s[i + 1..], PLUS)
  {
    hide Index;
  }

  lemma NamesTurn(ps: seq<Protocol>)
    requires ps != []
    ensures Names(ps) == if |ps| == 1 then ps[0].Name() else ps[0].Name() + [PLUS] + Names(ps[1..])
  {
  }

  lemma {:induction false} SplitIsNames(s: Bytes, ps: seq<Protocol>)
    requires |Split(s, PLUS)| == |ps| && forall i :: 0 <= i < |ps| ==> Split(s, PLUS)[i] == ps[i].Name()
    ensures ps != [] && s == Names(ps)
    decreases |s|
  {
    hide Split, Names, Index;
    var i, names := Index(s, PLUS), Split(s, PLUS);
    SplitTurn(s);
    NamesTurn(ps);
    assert names[0] == ps[0].Name();
    if i < |s| {
      var rest := s[i + 1..];
      forall k | 0 <= k < |ps[1..]| ensures Split(rest, PLUS)[k] == ps[1..][k].Name() {
        assert names[k + 1] == ps[k + 1].Name();
      }
      SplitIsNames(rest, ps[1..]);
      assert s == s[..i] + [PLUS] + rest;
    }
  }

  /** The pieces of a host that was read. */
  lemma HostReads(left: Bytes, protocols: seq<Protocol>) returns (w: Written)
    requires BAR !in left && Host(left, protocols).Some?
    ensures w.protocols == None && Proper(w) && w.Left() == left
    ensures Host(left, protocols).value == w.Meant().(protocols := protocols)
  {
    hide ScanNumber, AllBlank, Value, Index, IsDigit;
    var colon := Index(left, COLON);
    var number := if colon == |left| then left else left[colon + 1..];
    var blanks, digits, junk := ScanReads(number);
    if colon == |left| {
      w := Written(None, blanks, digits, junk, None);
    } else {
      w := Written(Some(left[..colon]), blanks, digits, junk, None);
      assert left == left[..colon] + [COLON] + number;
    }
  }

  lemma TextReads(text: Bytes) returns (w: Written)
    requires ParsedSource(text).Some?
    ensures Proper(w) && w.Text() == text && w.Meant() == ParsedSource(text).value
  {
    hide Host, Split, ProtocolsOf, AllBlank, Value, Names, ScanNumber;
    var bar := Index(text, BAR);
    var left := text[..bar];
    if bar == |text| {
      assert left == text;
      w := HostReads(left, [Tcp]);
    } else {
      var names := Split(text[bar + 1..], PLUS);
      var ps := ProtocolsOf(names).value;
      NamesAre(names);
      SplitIsNames(text[bar + 1..], ps);
      var host := HostReads(left, ps);
      w := host.(protocols := Some(ps));
      assert w.Left() == host.Left() && w.Number() == host.Number();
      assert text == left + [BAR] + text[bar + 1..];
    }
  }

  ghost predicate Writes(w: Written, text: Bytes, s: Source) {
    Proper(w) && w.Text() == text && w.Meant() == s
  }

  /** Exactly the texts that are written from such pieces are accepted, and they stand for what the pieces
      mean. */
  lemma AcceptedSourceIff(text: Bytes, s: Source)
    ensures ParsedSource(text) == Some(s) <==> exists w :: Writes(w, text, s)
  {
    hide ParsedSource, AllBlank, Value;
    if ParsedSource(text) == Some(s) {
      var w := TextReads(text);
      assert Writes(w, text, s);
    }
    if w :| Writes(w, text, s) {
      TextWritten(w);
    }
  }

  /** A text without a digit is refused: the empty one, `eth`, `:http`. */
  lemma DigitlessRefused(text: Bytes)
    requires forall c :: c in text ==> !IsDigit(c)
    ensures ParsedSource(text).None?
  {
    hide ParsedSource, AllBlank, Value, Names;
    if ParsedSource(text).Some? {
      var w := TextReads(text);
      DigitStands(w);
      assert false;
    }
  }

  lemma DigitStands(w: Written)
    requires Proper(w)
    ensures w.digits[0] in w.Text() && IsDigit(w.digits[0])
  {
    hide AllBlank, Value, Names;
    assert w.digits[0] in w.digits;
    assert w.digits[0] in w.digits + w.junk;
    assert w.digits[0] in w.Number() && w.digits[0] in w.Left();
  }

  /** A number alone is accepted exactly from 1 to 65535, as that port from everywhere over tcp; `0.0.0.0:`
      in front of it and `|tcp` behind it make no difference, `|udp` makes it udp. */
  lemma PortDecides(n: nat)
    ensures ParsedSource(Digits(n)) == PortAlone(n, Tcp)
    ensures ParsedSource(ANY_ADDRESS + [58] + Digits(n)) == PortAlone(n, Tcp)
    ensures ParsedSource(Digits(n) + [124] + [116, 99, 112]) == PortAlone(n, Tcp)
    ensures ParsedSource(Digits(n) + [124] + [117, 100, 112]) == PortAlone(n, Udp)
  {
    hide Digits, ScanNumber, Split, ProtocolsOf, ParsedSource;
    PlainPort(n);
    PortFromAnywhere(n);
    PortOver(n, Tcp);
    PortOver(n, Udp);
  }

  lemma PlainPort(n: nat)
    ensures ParsedSource(Digits(n)) == PortAlone(n, Tcp)
  {
    hide Digits, ScanNumber, Split, ProtocolsOf;
    var number := Digits(n);
    NumberRead(n);
    assert COLON !in number && BAR !in number;
    IndexIs(number, COLON, []);
    IndexIs(number, BAR, []);
    assert number[..|number|] == number;
  }

  lemma PortFromAnywhere(n: nat)
    ensures ParsedSource(ANY_ADDRESS + [COLON] + Digits(n)) == PortAlone(n, Tcp)
  {
    hide Digits, ScanNumber, Split, ProtocolsOf;
    var number, any := Digits(n), ANY_ADDRESS;
    NumberRead(n);
    assert BAR !in number && COLON !in any && BAR !in any;
    var full := any + [COLON] + number;
    IndexIs(any, COLON, number);
    IndexIs(full, BAR, []);
    assert full[..|full|] == full && full[..|any|] == any && full[|any| + 1..] == number;
  }

  lemma PortOver(n: nat, p: Protocol)
    ensures ParsedSource(Digits(n) + [BAR] + p.Name()) == PortAlone(n, p)
  {
    hide Digits, ScanNumber, Split, ProtocolsOf;
    var number := Digits(n);
    NumberRead(n);
    assert COLON !in number && BAR !in number;
    IndexIs(number, COLON, []);
    IndexIs(number, BAR, p.Name());
    var text := number + [BAR] + p.Name();
    assert text[..|number|] == number && text[|number| + 1..] == Names([p]);
    SplitNames([p]);
    NamesRead(Split(Names([p]), PLUS), [p]);
  }

  ghost function PortAlone(n: nat, p: Protocol): Option<Source> {
    if 1 <= n <= 65535 then Some(Source(ANY_ADDRESS, n, [p])) else None
  }
}
