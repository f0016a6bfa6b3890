/**
 * Base64 (RFC 4648, section 4) as Python's `base64.b64encode` writes it and
 * `base64.b64decode` reads it back: 3 bytes become 4 alphabet characters, the
 * last group is padded with '='. Like binascii, the decoder ignores the unused
 * low bits of a padded final group.
 */
module Base64 {
  import opened Common

  type sextet = v: int | 0 <= v < 64

  /** The alphabet character for a 6-bit value. */
  function Sym(v: sextet): char {
    if v < 26 then ('A' as int + v) as char
    else if v < 52 then ('a' as int + v - 26) as char
    else if v < 62 then ('0' as int + v - 52) as char
    else if v == 62 then '+'
    else '/'
  }

  /** The 6-bit value of an alphabet character; None for '=' and every character outside the alphabet. */
  function Value(c: char): (r: Option<sextet>)
    ensures r.Some? ==> Sym(r.value) == c
  {
    if 'A' <= c <= 'Z' then Some(c as int - 'A' as int)
    else if 'a' <= c <= 'z' then Some(c as int - 'a' as int + 26)
    else if '0' <= c <= '9' then Some(c as int - '0' as int + 52)
    else if c == '+' then Some(62)
    else if c == '/' then Some(63)
    else None
  }

  lemma ValueSym(v: sextet)
    ensures Value(Sym(v)) == Some(v)
  {
  }

  function Encode(bs: seq<byte>): (s: string)
    ensures |s| == 4 * ((|bs| + 2) / 3)
    decreases |bs|
  {
    if |bs| >= 3 then Quad(bs[0], bs[1], bs[2]) + Encode(bs[3..])
    else if |bs| == 2 then
      var a, b := bs[0], bs[1];
      [Sym(a / 4), Sym((a % 4) * 16 + b / 16), Sym((b % 16) * 4), '=']
    else if |bs| == 1 then
      [Sym(bs[0] / 4), Sym((bs[0] % 4) * 16), '=', '=']
    else []
  }

  /** The four characters for three bytes. */
  function Quad(a: byte, b: byte, c: byte): (g: string)
    ensures |g| == 4
  {
    [Sym(a / 4), Sym((a % 4) * 16 + b / 16), Sym((b % 16) * 4 + c / 64), Sym(c % 64)]
  }

  /** The bytes of one 4-character group; padding is accepted only when `last`. */
  function DecodeGroup(g: string, last: bool): (r: Option<seq<byte>>)
    requires |g| == 4
    ensures r.Some? ==> 1 <= |r.value| <= 3
  {
    var v0, v1, v2, v3 := Value(g[0]), Value(g[1]), Value(g[2]), Value(g[3]);
    if v0.None? || v1.None? then None
    else if v2.Some? && v3.Some? then Some(Bytes3(v0.value, v1.value, v2.value, v3.value))
    else if v2.Some? then
      if last && g[3] == '=' then Some(Bytes3(v0.value, v1.value, v2.value, 0)[..2]) else None
    else if last && g[2] == '=' && g[3] == '=' then Some(Bytes3(v0.value, v1.value, 0, 0)[..1])
    else None
  }

  /** The three bytes carried by four 6-bit values. */
  function Bytes3(v0: sextet, v1: sextet, v2: sextet, v3: sextet): (r: seq<byte>)
    ensures |r| == 3
  {
    var x0: int, x1: int, x2: int := v0 * 4 + v1 / 16, (v1 % 16) * 16 + v2 / 4, (v2 % 4) * 64 + v3;
    [x0, x1, x2]
  }

  /** None when the text is not a whole number of well-formed groups. */
  function Decode(s: string): Option<seq<byte>>
    decreases |s|
  {
    if s == [] then Some([])
    else if |s| < 4 then None
    else match DecodeGroup(s[..4], |s| == 4)
      case None => None
      case Some(head) =>
        if |s| == 4 then Some(head)
        else match Decode(s[4..])
          case None => None
          case Some(tail) => Some(head + tail)
  }

  /** Splitting three bytes into four 6-bit values and joining them again is the identity. */
  lemma Regroup(a: byte, b: byte, c: byte)
    ensures Bytes3(a / 4, (a % 4) * 16 + b / 16, (b % 16) * 4 + c / 64, c % 64) == [a, b, c]
  {
    var v1 := (a % 4) * 16 + b / 16;
    var v2 := (b % 16) * 4 + c / 64;
    Digits(a % 4, b / 16, 16);
    Digits(b / 16, b % 16, 16);
    Digits(b % 16, c / 64, 4);
    assert v1 / 16 == a % 4 && v1 % 16 == b / 16;
    assert v2 / 4 == b % 16 && v2 % 4 == c / 64;
  }

  lemma Digits(hi: nat, lo: nat, d: nat)
    requires d == 4 || d == 16
    requires lo < d
    ensures (hi * d + lo) / d == hi && (hi * d + lo) % d == lo
  {
  }

  lemma Triple(a: byte, b: byte, c: byte, last: bool)
    ensures DecodeGroup(Quad(a, b, c), last) == Some([a, b, c])
  {
    var g := Quad(a, b, c);
    ValueSym(a / 4);
    ValueSym((a % 4) * 16 + b / 16);
    ValueSym((b % 16) * 4 + c / 64);
    ValueSym(c % 64);
    assert Value(g[0]) == Some(a / 4);
    assert Value(g[1]) == Some((a % 4) * 16 + b / 16);
    assert Value(g[2]) == Some((b % 16) * 4 + c / 64);
    assert Value(g[3]) == Some(c % 64);
    Regroup(a, b, c);
  }

  /** Every byte string survives the trip through Base64. */
  lemma {:induction false} DecodeEncode(bs: seq<byte>)
    ensures Decode(Encode(bs)) == Some(bs)
    decreases |bs|
  {
    if |bs| > 3 {
      DecodeEncode(bs[3..]);
      var s := Encode(bs);
      EncodeFirst(bs);
      Triple(bs[0], bs[1], bs[2], false);
      DecodeStep(s, [bs[0], bs[1], bs[2]], bs[3..]);
      assert bs == [bs[0], bs[1], bs[2]] + bs[3..];
    } else if |bs| == 3 {
      EncodeFirst(bs);
      Triple(bs[0], bs[1], bs[2], true);
      assert bs == [bs[0], bs[1], bs[2]];
    } else if |bs| == 2 {
      LastGroupOfTwo(bs[0], bs[1]);
      assert bs == [bs[0], bs[1]];
    } else if |bs| == 1 {
      LastGroupOfOne(bs[0]);
      assert bs == [bs[0]];
    }
  }

  lemma EncodeFirst(bs: seq<byte>)
    requires |bs| >= 3
    ensures Encode(bs)[..4] == Quad(bs[0], bs[1], bs[2])
    ensures Encode(bs)[4..] == Encode(bs[3..])
    ensures |bs| == 3 ==> Encode(bs) == Quad(bs[0], bs[1], bs[2])
  {
  }

  /** Decoding a text longer than one group: its first group, then the rest. */
  lemma DecodeStep(s: string, head: seq<byte>, tail: seq<byte>)
    requires |s| > 4
    requires DecodeGroup(s[..4], false) == Some(head)
    requires Decode(s[4..]) == Some(tail)
    ensures Decode(s) == Some(head + tail)
  {
  }

  lemma LastGroupOfTwo(a: byte, b: byte)
    ensures Decode(Encode([a, b])) == Some([a, b])
  {
    var s := Encode([a, b]);
    assert s == [Sym(a / 4), Sym((a % 4) * 16 + b / 16), Sym((b % 16) * 4), '='];
    ValueSym(a / 4);
    ValueSym((a % 4) * 16 + b / 16);
    ValueSym((b % 16) * 4);
    assert Value(s[0]) == Some(a / 4);
    assert Value(s[1]) == Some((a % 4) * 16 + b / 16);
    assert Value(s[2]) == Some((b % 16) * 4);
    assert Value(s[3]) == None;
    assert s[..4] == s;
    Regroup(a, b, 0);
    assert Bytes3(a / 4, (a % 4) * 16 + b / 16, (b % 16) * 4, 0)[..2] == [a, b];
  }

  lemma LastGroupOfOne(a: byte)
    ensures Decode(Encode([a])) == Some([a])
  {
    var s := Encode([a]);
    assert s == [Sym(a / 4), Sym((a % 4) * 16), '=', '='];
    ValueSym(a / 4);
    ValueSym((a % 4) * 16);
    assert Value(s[0]) == Some(a / 4);
    assert Value(s[1]) == Some((a % 4) * 16);
    assert Value(s[2]) == None;
    assert s[..4] == s;
    Regroup(a, 0, 0);
    assert Bytes3(a / 4, (a % 4) * 16, 0, 0)[..1] == [a];
  }

  lemma EncodeInjective(bs: seq<byte>, cs: seq<byte>)
    requires Encode(bs) == Encode(cs)
    ensures bs == cs
  {
    DecodeEncode(bs);
    DecodeEncode(cs);
  }
}
