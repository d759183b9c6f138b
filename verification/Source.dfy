/** The left side of a port forward, `address:port|protocols`: printing and parsing it.
    Models source in apps/core0/helper/socat/rule.go. Text is bytes, as in the stream parser. */
module Sources {
  import opened Wrappers
  import opened StreamParser
  import opened StreamFrames

  const BAR: Byte := 124
  const PLUS: Byte := 43

  /** `0.0.0.0`, the address that stands for every address. */
  const ANY_ADDRESS: Bytes := [48, 46, 48, 46, 48, 46, 48]

  datatype Protocol = Tcp | Udp {
    /** `tcp` or `udp`. */
    function Name(): Bytes {
      if Tcp? then [116, 99, 112] else [117, 100, 112]
    }
  }

  datatype Source = Source(ip: Bytes, port: nat, protocols: seq<Protocol>)

  // ---- splitting ----------------------------------------------------------------------------------

  /** Index of the first `c`, or the length when there is none. */
  function Index(s: Bytes, c: Byte): (i: nat)
    ensures i <= |s| && (i < |s| ==> s[i] == c) && forall k :: 0 <= k < i ==> s[k] != c
  {
    if s == [] || s[0] == c then 0 else 1 + Index(s[1..], c)
  }

  /** Every piece between two separators. */
  function Split(s: Bytes, sep: Byte): (r: seq<Bytes>)
    ensures r != []
    decreases |s|
  {
    var i := Index(s, sep);
    if i == |s| then [s] else [s[..i]] + Split(s[i + 1..], sep)
  }

  function Names(protocols: seq<Protocol>): Bytes {
    if protocols == [] then []
    else if |protocols| == 1 then protocols[0].Name()
    else protocols[0].Name() + [PLUS] + Names(protocols[1..])
  }

  function ProtocolOf(name: Bytes): Option<Protocol> {
    if name == Tcp.Name() then Some(Tcp) else if name == Udp.Name() then Some(Udp) else None
  }

  /** All names read, or nothing when one of them is not a protocol. */
  function ProtocolsOf(names: seq<Bytes>): (r: Option<seq<Protocol>>) {
    if names == [] then Some([])
    else
      match ProtocolOf(names[|names| - 1])
      case None => None
      case Some(p) =>
        match ProtocolsOf(names[..|names| - 1])
        case None => None
        case Some(ps) => Some(ps + [p])
  }

  // ---- printing and parsing -----------------------------------------------------------------------

  /** Bytes of the blank at the front, zero for none; the wide ones are U+0085, U+00A0, U+1680,
      U+2000..U+200A, U+2028, U+2029, U+202F, U+205F and U+3000 in UTF-8. A newline is no blank. */
  function BlankWidth(s: Bytes): (w: nat)
    ensures w <= |s|
  {
    if s == [] then 0
    else if s[0] == 9 || 11 <= s[0] <= 13 || s[0] == 32 then 1
    else if |s| >= 2 && s[0] == 0xC2 && (s[1] == 0x85 || s[1] == 0xA0) then 2
    else if |s| >= 3 && s[..3] == [0xE1, 0x9A, 0x80] then 3
    else if |s| >= 3 && s[..2] == [0xE2, 0x80]
      && (0x80 <= s[2] <= 0x8A || s[2] == 0xA8 || s[2] == 0xA9 || s[2] == 0xAF) then 3
    else if |s| >= 3 && s[..3] == [0xE2, 0x81, 0x9F] then 3
    else if |s| >= 3 && s[..3] == [0xE3, 0x80, 0x80] then 3
    else 0
  }

  /** Scanning a decimal number off the front: blanks are skipped, what follows the digits is ignored. */
  function ScanNumber(s: Bytes): Option<nat>
    decreases |s|
  {
    if BlankWidth(s) > 0 then ScanNumber(s[BlankWidth(s)..])
    else
      var d := DigitRun(s, 0);
      if d == 0 then None else Some(Value(s[..d]))
  }

  function SourceText(s: Source): Bytes {
    (if s.ip != [] && s.ip != ANY_ADDRESS then s.ip + [COLON] else [])
    + Digits(s.port)
    + (if s.protocols != [Tcp] then [BAR] + Names(s.protocols) else [])
  }

  /** The address and the port in front of the protocols. */
  function Host(left: Bytes, protocols: seq<Protocol>): Option<Source> {
    var colon := Index(left, COLON);
    var number := ScanNumber(if colon == |left| then left else left[colon + 1..]);
    if number.None? || number.value <= 0 || number.value >= 65536 then None
    else Some(Source(if colon == |left| then ANY_ADDRESS else left[..colon], number.value, protocols))
  }

  /** The source a text stands for, or nothing when it is refused. */
  function ParsedSource(text: Bytes): Option<Source> {
    var bar := Index(text, BAR);
    var protocols := if bar == |text| then Some([Tcp]) else ProtocolsOf(Split(text[bar + 1..], PLUS));
    if protocols.None? then None else Host(text[..bar], protocols.value)
  }

  lemma {:induction false} RefusedName(names: seq<Bytes>, i: nat)
    requires i < |names| && ProtocolOf(names[i]).None?
    ensures ProtocolsOf(names).None?
    decreases |names|
  {
    if i < |names| - 1 {
      RefusedName(names[..|names| - 1], i);
    }
  }

  /** `getSource`: protocols first, then the host. */
  method GetSource(text: Bytes) returns (r: Option<Source>)
    ensures r == ParsedSource(text)
  {
    var bar := Index(text, BAR);
    var protocols := [Tcp];
    if bar < |text| {
      var names := Split(text[bar + 1..], PLUS);
      protocols := [];
      for i := 0 to |names|
        invariant ProtocolsOf(names[..i]) == Some(protocols)
      {
        assert names[..i + 1][..i] == names[..i];
        var p := ProtocolOf(names[i]);
        if p.None? {
          RefusedName(names, i);
          return None;
        }
        protocols := protocols + [p.value];
      }
      assert names[..|names|] == names;
    }
    var left := text[..bar];
    var colon := Index(left, COLON);
    var number := ScanNumber(if colon == |left| then left else left[colon + 1..]);
    if number.None? || number.value <= 0 || number.value >= 65536 {
      return None;
    }
    var ip := ANY_ADDRESS;
    if colon < |left| {
      ip := left[..colon];
    }
    return Some(Source(ip, number.value, protocols));
  }

  // ---- round trip -----------------------------------------------------------------------------------

  /** A source some text can stand for. */
  ghost predicate Sane(s: Source) {
    COLON !in s.ip && BAR !in s.ip && 1 <= s.port <= 65535 && s.protocols != []
  }

  /** A missing address reads as the one that stands for all. */
  function Plain(s: Source): Source {
    if s.ip == [] then s.(ip := ANY_ADDRESS) else s
  }

  lemma {:induction false} IndexIs(x: Bytes, c: Byte, y: Bytes)
    requires c !in x
    ensures Index(x, c) == |x| && Index(x + [c] + y, c) == |x|
  {
    if x != [] {
      IndexIs(x[1..], c, y);
      assert (x + [c] + y)[1..] == x[1..] + [c] + y;
    }
  }

  lemma SplitFirst(x: Bytes, c: Byte, y: Bytes)
    requires c !in x
    ensures Split(x, c) == [x] && Split(x + [c] + y, c) == [x] + Split(y, c)
  {
    hide Index;
    IndexIs(x, c, y);
    var all := x + [c] + y;
    assert all[..|x|] == x && all[|x| + 1..] == y;
  }

  lemma {:induction false} SplitNames(ps: seq<Protocol>)
    requires ps != []
    ensures |Split(Names(ps), PLUS)| == |ps|
    ensures forall i :: 0 <= i < |ps| ==> Split(Names(ps), PLUS)[i] == ps[i].Name()
  {
    hide Split;
    var name, rest := ps[0].Name(), Names(ps[1..]);
    SplitFirst(name, PLUS, rest);
    if |ps| > 1 {
      SplitNames(ps[1..]);
      assert Names(ps) == name + [PLUS] + rest;
    }
  }

  lemma {:induction false} NamesRead(names: seq<Bytes>, ps: seq<Protocol>)
    requires |names| == |ps| && forall i :: 0 <= i < |ps| ==> names[i] == ps[i].Name()
    ensures ProtocolsOf(names) == Some(ps)
    decreases |ps|
  {
    if ps != [] {
      var n := |ps| - 1;
      NamesRead(names[..n], ps[..n]);
      assert ps[..n] + [ps[n]] == ps;
    }
  }

  lemma {:induction false} ProtocolsRead(names: seq<Bytes>)
    ensures ProtocolsOf(names).Some? ==> |ProtocolsOf(names).value| == |names|
  {
    if names != [] {
      ProtocolsRead(names[..|names| - 1]);
    }
  }

  lemma NumberRead(n: nat)
    ensures ScanNumber(Digits(n)) == Some(n)
  {
    var s := Digits(n);
    DigitRunIs(s, 0, |s|);
    assert s[..|s|] == s;
    ValueOfDigits(n);
    assert IsDigit(s[0]);
  }

  lemma HostRead(s: Source)
    requires Sane(s)
    ensures var left := (if s.ip != [] && s.ip != ANY_ADDRESS then s.ip + [COLON] else []) + Digits(s.port);
      BAR !in left && Host(left, s.protocols) == Some(Plain(s))
  {
    hide Digits, ScanNumber;
    var number := Digits(s.port);
    NumberRead(s.port);
    assert COLON !in number && BAR !in number;
    if s.ip != [] && s.ip != ANY_ADDRESS {
      var left := s.ip + [COLON] + number;
      IndexIs(s.ip, COLON, number);
      assert left[..|s.ip|] == s.ip && left[|s.ip| + 1..] == number;
    } else {
      IndexIs(number, COLON, []);
      assert [] + number == number;
    }
  }

  /** Printing a source and parsing the text gives the source back, a missing address filled in. */
  lemma PrintedIsRead(s: Source)
    requires Sane(s)
    ensures ParsedSource(SourceText(s)) == Some(Plain(s))
  {
    hide Digits, Host, Names, Split, ProtocolsOf;
    var left := (if s.ip != [] && s.ip != ANY_ADDRESS then s.ip + [COLON] else []) + Digits(s.port);
    HostRead(s);
    if s.protocols == [Tcp] {
      assert SourceText(s) == left;
      IndexIs(left, BAR, []);
      assert left[..|left|] == left;
    } else {
      var names := Names(s.protocols);
      assert SourceText(s) == left + [BAR] + names;
      IndexIs(left, BAR, names);
      assert SourceText(s)[..|left|] == left && SourceText(s)[|left| + 1..] == names;
      SplitNames(s.protocols);
      NamesRead(Split(names, PLUS), s.protocols);
    }
  }

  /** Whatever is accepted is sane. */
  lemma ParsedIsSane(text: Bytes)
    ensures ParsedSource(text).Some? ==> Sane(ParsedSource(text).value)
  {
    hide ScanNumber, ProtocolsOf;
    var bar := Index(text, BAR);
    if bar < |text| {
      ProtocolsRead(Split(text[bar + 1..], PLUS));
    }
  }

  /** The round trip is exact for the sane sources that carry an address, and for no others. */
  lemma SourceRoundTripIff(s: Source)
    ensures ParsedSource(SourceText(s)) == Some(s) <==> Sane(s) && s.ip != []
  {
    hide SourceText, ParsedSource;
    ParsedIsSane(SourceText(s));
    if Sane(s) {
      PrintedIsRead(s);
    }
  }
}
