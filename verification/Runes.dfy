/** The byte tests of the parsers against UTF-8: how wide a rune is, and what is a blank. About the range
    loop of base/pm/stream/input.go and the number scan of apps/core0/helper/socat/rule.go. */
module Runes {
  import opened StreamParser
  import opened Sources

  /** A Unicode scalar value. */
  ghost predicate Scalar(c: int) {
    0 <= c < 0xD800 || 0xE000 <= c <= 0x10FFFF
  }

  /** The UTF-8 form of a scalar value. */
  ghost function Utf8(c: int): (r: Bytes)
    requires Scalar(c)
    ensures 1 <= |r| <= 4
  {
    if c < 0x80 then [c]
    else if c < 0x800 then [0xC0 + c / 64, 0x80 + c % 64]
    else if c < 0x10000 then [0xE0 + c / 4096, 0x80 + c / 64 % 64, 0x80 + c % 64]
    else [0xF0 + c / 262144, 0x80 + c / 4096 % 64, 0x80 + c / 64 % 64, 0x80 + c % 64]
  }

  /** The form of `c` stands in `b` at `i`. */
  ghost predicate Stands(b: Bytes, i: nat, c: int) {
    Scalar(c) && i + |Utf8(c)| <= |b| && forall k :: 0 <= k < |Utf8(c)| ==> b[i + k] == Utf8(c)[k]
  }

  /** A scalar value is read as one rune of the width of its form. */
  lemma RuneOf(b: Bytes, i: nat, c: int)
    requires Stands(b, i, c)
    ensures RuneWidth(b, i) == |Utf8(c)|
  {
    var u := Utf8(c);
    assert b[i] == u[0];
    assert |u| > 1 ==> b[i + 1] == u[1];
    assert |u| > 2 ==> b[i + 2] == u[2];
    assert |u| > 3 ==> b[i + 3] == u[3];
  }

  lemma WideTwo(x: int, y: int)
    requires 0xC2 <= x <= 0xDF && 0 <= y < 64
    ensures var c := (x - 0xC0) * 64 + y; Scalar(c) && Utf8(c) == [x, 0x80 + y]
  {
  }

  lemma WideThree(x: int, y: int, z: int)
    requires 0xE0 <= x <= 0xEF && 0 <= y < 64 && 0 <= z < 64 && (x == 0xE0 ==> y >= 0x20) && (x == 0xED ==> y < 0x20)
    ensures var c := (x - 0xE0) * 4096 + y * 64 + z; Scalar(c) && Utf8(c) == [x, 0x80 + y, 0x80 + z]
  {
    var c := (x - 0xE0) * 4096 + y * 64 + z;
    assert c / 64 == (x - 0xE0) * 64 + y;
  }

  lemma WideFour(x: int, y: int, z: int, t: int)
    requires 0xF0 <= x <= 0xF4 && 0 <= y < 64 && 0 <= z < 64 && 0 <= t < 64
    requires (x == 0xF0 ==> y >= 0x10) && (x == 0xF4 ==> y < 0x10)
    ensures var c := (x - 0xF0) * 262144 + y * 4096 + z * 64 + t;
      Scalar(c) && Utf8(c) == [x, 0x80 + y, 0x80 + z, 0x80 + t]
  {
    var c := (x - 0xF0) * 262144 + y * 4096 + z * 64 + t;
    assert c / 64 == (x - 0xF0) * 4096 + y * 64 + z;
    assert c / 4096 == (x - 0xF0) * 64 + y;
  }

  /** Whatever is wider than a byte is the form of a scalar value. */
  lemma WideRune(b: Bytes, i: nat) returns (c: int)
    requires i < |b| && RuneWidth(b, i) > 1
    ensures Stands(b, i, c) && |Utf8(c)| == RuneWidth(b, i)
  {
    hide Utf8, Scalar;
    var w := RuneWidth(b, i);
    var x: int, y: int := b[i], b[i + 1] - 0x80;
    if w == 2 {
      c := (x - 0xC0) * 64 + y;
      WideTwo(x, y);
    } else {
      var z: int := b[i + 2] - 0x80;
      if w == 3 {
        c := (x - 0xE0) * 4096 + y * 64 + z;
        WideThree(x, y, z);
      } else {
        var t: int := b[i + 3] - 0x80;
        c := (x - 0xF0) * 262144 + y * 4096 + z * 64 + t;
        WideFour(x, y, z, t);
      }
    }
  }

  /** A rune is wider than one byte exactly when the form of a scalar value outside ASCII stands there, and
      then it is that wide; anything malformed is passed over byte by byte. */
  lemma RuneIff(b: Bytes, i: nat, w: nat)
    requires i < |b| && w > 1
    ensures RuneWidth(b, i) == w <==> exists c :: Stands(b, i, c) && |Utf8(c)| == w
  {
    hide RuneWidth, Utf8, Scalar;
    if RuneWidth(b, i) == w {
      var c := WideRune(b, i);
    }
    if c :| Stands(b, i, c) && |Utf8(c)| == w {
      RuneOf(b, i, c);
    }
  }

  /** The white space of Unicode but for the newline. */
  ghost predicate IsSpace(c: int) {
    || c == 9 || 11 <= c <= 13 || c == 32 || c == 0x85 || c == 0xA0 || c == 0x1680 || 0x2000 <= c <= 0x200A
    || c == 0x2028 || c == 0x2029 || c == 0x202F || c == 0x205F || c == 0x3000
  }

  lemma SpaceIsBlank(s: Bytes, c: int)
    requires IsSpace(c) && Stands(s, 0, c)
    ensures BlankWidth(s) == |Utf8(c)|
  {
    var u := Utf8(c);
    assert s[0 + 0] == u[0];
    assert |u| > 1 ==> s[0 + 1] == u[1];
    assert |u| > 2 ==> s[0 + 2] == u[2] && s[..2] == u[..2] && s[..3] == u;
  }

  lemma BlankIsSpace(s: Bytes) returns (c: int)
    requires BlankWidth(s) > 0
    ensures IsSpace(c) && Stands(s, 0, c) && |Utf8(c)| == BlankWidth(s)
  {
    var w := BlankWidth(s);
    if w == 1 {
      c := s[0];
    } else if w == 2 {
      c := s[1];
    } else {
      assert s[0] == s[..3][0] && s[1] == s[..3][1] && s[2] == s[..3][2] && s[1] == s[..2][1];
      var x: int, y: int, z: int := s[0], s[1], s[2];
      c := (x - 0xE0) * 4096 + (y - 0x80) * 64 + (z - 0x80);
    }
  }

  /** A blank of some width stands at the front exactly when the form of a white space is there. */
  lemma BlankIff(s: Bytes, w: nat)
    requires w > 0
    ensures BlankWidth(s) == w <==> exists c :: IsSpace(c) && Stands(s, 0, c) && |Utf8(c)| == w
  {
    hide BlankWidth, Utf8, Scalar, IsSpace;
    if BlankWidth(s) == w {
      var c := BlankIsSpace(s);
    }
    if c :| IsSpace(c) && Stands(s, 0, c) && |Utf8(c)| == w {
      SpaceIsBlank(s, c);
    }
  }
}
