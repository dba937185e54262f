/** base64url without padding (section 5 of RFC 4648), over the UTF-8 bytes of a text, as
    cloudflare-worker/src/relay-auth.js encodes and decodes peer ids. */
module Base64Url {
  import opened Common
  import Utf8

  type Sextet = b: nat | b < 64

  function Encode(bs: seq<Byte>): seq<Sextet> {
    if bs == [] then []
    else if |bs| == 1 then [bs[0] / 4, bs[0] % 4 * 16]
    else if |bs| == 2 then [bs[0] / 4, bs[0] % 4 * 16 + bs[1] / 16, bs[1] % 16 * 4]
    else [bs[0] / 4, bs[0] % 4 * 16 + bs[1] / 16, bs[1] % 16 * 4 + bs[2] / 64, bs[2] % 64] + Encode(bs[3..])
  }

  function FirstByte(a: nat, b: nat): (r: nat)
    ensures a < 64 && b < 64 ==> r < 256
  {
    a * 4 + b / 16
  }

  function SecondByte(b: nat, c: nat): (r: nat)
    ensures b < 64 && c < 64 ==> r < 256
  {
    b % 16 * 16 + c / 4
  }

  function ThirdByte(c: nat, d: nat): (r: nat)
    ensures c < 64 && d < 64 ==> r < 256
  {
    c % 4 * 64 + d
  }

  /** A single leftover digit is an error; leftover bits are dropped. */
  function Decode(ss: seq<Sextet>): Option<seq<Byte>> {
    if ss == [] then Some([])
    else if |ss| == 1 then None
    else if |ss| == 2 then Some([FirstByte(ss[0], ss[1])])
    else if |ss| == 3 then Some([FirstByte(ss[0], ss[1]), SecondByte(ss[1], ss[2])])
    else
      var rest := Decode(ss[4..]);
      if rest.None? then None
      else Some([FirstByte(ss[0], ss[1]), SecondByte(ss[1], ss[2]), ThirdByte(ss[2], ss[3])] + rest.value)
  }

  lemma DecodeGroup(a: Sextet, b: Sextet, c: Sextet, d: Sextet, rest: seq<Sextet>)
    ensures Decode([a, b, c, d] + rest) ==
      if Decode(rest).None? then None else Some([FirstByte(a, b), SecondByte(b, c), ThirdByte(c, d)] + Decode(rest).value)
  {
    assert ([a, b, c, d] + rest)[4..] == rest;
  }

  lemma OneByte(x: Byte)
    ensures Decode(Encode([x])) == Some([x])
  {
    ThreeBytes(x, 0, 0);
    var h: Sextet, l: Sextet := x / 4, x % 4 * 16;
    assert Encode([x]) == [h, l];
    assert Decode([h, l]) == Some([FirstByte(h, l)]);
  }

  lemma TwoBytes(x: Byte, y: Byte)
    ensures Decode(Encode([x, y])) == Some([x, y])
  {
    ThreeBytes(x, y, 0);
    var h: Sextet, m: Sextet, l: Sextet := x / 4, x % 4 * 16 + y / 16, y % 16 * 4;
    assert Encode([x, y]) == [h, m, l];
    assert Decode([h, m, l]) == Some([FirstByte(h, m), SecondByte(m, l)]);
  }

  lemma {:induction false} DecodeUndoesEncode(bs: seq<Byte>)
    ensures Decode(Encode(bs)) == Some(bs)
  {
    if |bs| == 1 {
      assert bs == [bs[0]];
      OneByte(bs[0]);
    } else if |bs| == 2 {
      assert bs == [bs[0], bs[1]];
      TwoBytes(bs[0], bs[1]);
    } else if |bs| >= 3 {
      var x, y, z := bs[0], bs[1], bs[2];
      DecodeUndoesEncode(bs[3..]);
      DecodeGroup(x / 4, x % 4 * 16 + y / 16, y % 16 * 4 + z / 64, z % 64, Encode(bs[3..]));
      ThreeBytes(x, y, z);
      assert bs == [x, y, z] + bs[3..];
    }
  }

  /** Only a single leftover digit is refused. */
  lemma {:induction false} DecodeRefuses(ss: seq<Sextet>)
    ensures Decode(ss) == None <==> |ss| % 4 == 1
  {
    if |ss| >= 4 {
      DecodeRefuses(ss[4..]);
      DecodeGroup(ss[0], ss[1], ss[2], ss[3], ss[4..]);
      assert ss == [ss[0], ss[1], ss[2], ss[3]] + ss[4..];
    }
  }

  lemma ThreeBytes(a: Byte, b: Byte, c: Byte)
    ensures FirstByte(a / 4, a % 4 * 16 + b / 16) == a
    ensures SecondByte(a % 4 * 16 + b / 16, b % 16 * 4 + c / 64) == b
    ensures ThirdByte(b % 16 * 4 + c / 64, c % 64) == c
  {
  }

  predicate IsBase64Url(c: char) {
    'A' <= c <= 'Z' || 'a' <= c <= 'z' || '0' <= c <= '9' || c == '-' || c == '_'
  }

  function Letter(x: Sextet): (c: char)
    ensures IsBase64Url(c) && LetterValue(c) == x
  {
    if x < 26 then ('A' as int + x) as char
    else if x < 52 then ('a' as int + (x - 26)) as char
    else if x < 62 then ('0' as int + (x - 52)) as char
    else if x == 62 then '-' else '_'
  }

  function LetterValue(c: char): Sextet
    requires IsBase64Url(c)
  {
    if 'A' <= c <= 'Z' then c as int - 'A' as int
    else if 'a' <= c <= 'z' then c as int - 'a' as int + 26
    else if '0' <= c <= '9' then c as int - '0' as int + 52
    else if c == '-' then 62 else 63
  }

  /** The alphabet of the standard: A to Z, a to z, 0 to 9 in order, then the two signs. */
  lemma Alphabet()
    ensures Letter(0) == 'A' && Letter(26) == 'a' && Letter(52) == '0' && Letter(62) == '-' && Letter(63) == '_'
    ensures forall x, y :: 0 <= x < 62 && y == x + 1 && x != 25 && x != 51 && x != 61 ==> Letter(y) as int == Letter(x) as int + 1
  {
  }

  function Letters(ss: seq<Sextet>): (r: string)
    ensures |r| == |ss| && forall i :: 0 <= i < |ss| ==> r[i] == Letter(ss[i])
  {
    seq(|ss|, i requires 0 <= i < |ss| => Letter(ss[i]))
  }

  function Values(s: string): (r: seq<Sextet>)
    requires forall i :: 0 <= i < |s| ==> IsBase64Url(s[i])
    ensures |r| == |s| && forall i :: 0 <= i < |s| ==> r[i] == LetterValue(s[i])
  {
    seq(|s|, i requires 0 <= i < |s| => LetterValue(s[i]))
  }

  function EncodeBase64Url(s: string): (r: string)
    ensures forall i :: 0 <= i < |r| ==> IsBase64Url(r[i])
  {
    Letters(Encode(Utf8.Encode(s)))
  }

  /** None where the source catches an error or refuses the alphabet. */
  function DecodeBase64Url(s: string): Option<string> {
    if s == "" || !(forall i :: 0 <= i < |s| ==> IsBase64Url(s[i])) then None
    else
      var bs := Decode(Values(s));
      if bs.None? then None else Utf8.DecodeText(bs.value)
  }

  lemma LettersRoundTrip(ss: seq<Sextet>)
    ensures (forall i :: 0 <= i < |ss| ==> IsBase64Url(Letters(ss)[i])) && Values(Letters(ss)) == ss
  {
  }

  /** Any text is read back as it was, if and only if it is not empty and does not begin with a
      byte-order mark, which the decoder drops. */
  lemma Base64UrlRoundTrip(s: string)
    ensures DecodeBase64Url(EncodeBase64Url(s)) == Some(s) <==> s != "" && s[0] != Utf8.BOM
  {
    var bs := Utf8.Encode(s);
    DecodeUndoesEncode(bs);
    LettersRoundTrip(Encode(bs));
    Utf8.TextRoundTrip(s);
    if s != "" {
      assert |bs| > 0;
    }
  }

  /** Three of the test vectors of section 10 of RFC 4648, without padding. */
  lemma Vectors()
    ensures Encode([0x66]) == [25, 32]
    ensures Encode([0x66, 0x6F]) == [25, 38, 60]
    ensures Encode([0x66, 0x6F, 0x6F]) == [25, 38, 61, 47]
  {
    assert Encode([]) == [];
  }
}
