/** UTF-8 as `TextEncoder` writes it and a fatal `TextDecoder` reads it (RFC 3629, section 3). A `char` is
    a Unicode scalar value. */
module Utf8 {
  import opened Common

  function EncodeChar(c: char): (r: seq<Byte>)
    ensures 1 <= |r| <= 4
  {
    var n := c as int;
    if n < 0x80 then [n]
    else if n < 0x800 then [0xC0 + n / 64, 0x80 + n % 64]
    else if n < 0x10000 then [0xE0 + n / 4096, 0x80 + n / 64 % 64, 0x80 + n % 64]
    else [0xF0 + n / 262144, 0x80 + n / 4096 % 64, 0x80 + n / 64 % 64, 0x80 + n % 64]
  }

  function Encode(s: string): seq<Byte> {
    if s == [] then [] else EncodeChar(s[0]) + Encode(s[1..])
  }

  predicate IsTail(b: Byte) {
    0x80 <= b < 0xC0
  }

  predicate IsScalar(n: int) {
    0 <= n < 0xD800 || 0xE000 <= n < 0x11_0000
  }

  /** The length of the sequence a first byte announces; 0 for a byte that cannot be first. */
  function Announced(b: Byte): nat {
    if b < 0x80 then 1 else if 0xC2 <= b < 0xE0 then 2 else if 0xE0 <= b < 0xF0 then 3 else if 0xF0 <= b < 0xF5 then 4 else 0
  }

  /** The payload bits of a byte. */
  function Low(b: Byte, m: nat): nat
    requires m > 0
  {
    b as int % m
  }

  function Value(bs: seq<Byte>): nat
    requires 1 <= |bs| <= 4
  {
    match |bs|
    case 1 => bs[0]
    case 2 => Low(bs[0], 32) * 64 + Low(bs[1], 64)
    case 3 => Low(bs[0], 16) * 4096 + Low(bs[1], 64) * 64 + Low(bs[2], 64)
    case 4 => Low(bs[0], 8) * 262144 + Low(bs[1], 64) * 4096 + Low(bs[2], 64) * 64 + Low(bs[3], 64)
  }

  /** No overlong form. */
  predicate Shortest(n: nat, len: nat) {
    (len == 2 ==> n >= 0x80) && (len == 3 ==> n >= 0x800) && (len == 4 ==> n >= 0x10000)
  }

  /** The first character and the number of bytes it takes, if they are well formed. */
  function DecodeChar(bs: seq<Byte>): (r: Option<(char, nat)>)
    ensures r.Some? ==> 1 <= r.value.1 <= |bs|
  {
    if bs == [] then None
    else
      var len := Announced(bs[0]);
      if len == 0 || |bs| < len || !(forall i :: 1 <= i < len ==> IsTail(bs[i])) then None
      else
        var n := Value(bs[..len]);
        if IsScalar(n) && Shortest(n, len) then Some((n as char, len)) else None
  }

  function Decode(bs: seq<Byte>): Option<string> {
    if bs == [] then Some([])
    else
      var first := DecodeChar(bs);
      if first.None? then None
      else
        var rest := Decode(bs[first.value.1..]);
        if rest.None? then None else Some([first.value.0] + rest.value)
  }

  lemma EncodedForm(c: char)
    ensures var r := EncodeChar(c);
      && Announced(r[0]) == |r| && (forall i :: 1 <= i < |r| ==> IsTail(r[i])) && Shortest(c as int, |r|)
  {
  }

  lemma TailBits(x: nat)
    ensures x < 64 ==> Low(0x80 + x, 64) == x
    ensures x < 32 ==> Low(0xC0 + x, 32) == x
    ensures x < 16 ==> Low(0xE0 + x, 16) == x
    ensures x < 8 ==> Low(0xF0 + x, 8) == x
  {
  }

  lemma Sextets(n: nat)
    ensures n == n / 64 * 64 + n % 64 && n / 64 == n / 4096 * 64 + n / 64 % 64 && n / 4096 == n / 262144 * 64 + n / 4096 % 64
  {
    assert n / 64 / 64 == n / 4096 && n / 4096 / 64 == n / 262144;
  }

  lemma EncodedValue(c: char)
    ensures Value(EncodeChar(c)) == c as int
  {
    var n := c as int;
    Sextets(n);
    TailBits(n % 64);
    TailBits(n / 64 % 64);
    TailBits(n / 4096 % 64);
    if n < 0x80 {
    } else if n < 0x800 {
      TailBits(n / 64);
    } else if n < 0x10000 {
      TailBits(n / 4096);
    } else {
      TailBits(n / 262144);
    }
  }

  lemma FirstChar(c: char, rest: seq<Byte>)
    ensures DecodeChar(EncodeChar(c) + rest) == Some((c, |EncodeChar(c)|))
  {
    EncodedForm(c);
    EncodedValue(c);
    var bs := EncodeChar(c) + rest;
    assert bs[..|EncodeChar(c)|] == EncodeChar(c);
    assert bs[0] == EncodeChar(c)[0];
    assert forall i :: 1 <= i < |EncodeChar(c)| ==> bs[i] == EncodeChar(c)[i];
  }

  lemma {:induction false} DecodeUndoesEncode(s: string)
    ensures Decode(Encode(s)) == Some(s)
  {
    if s != [] {
      FirstChar(s[0], Encode(s[1..]));
      DecodeUndoesEncode(s[1..]);
      assert Encode(s)[|EncodeChar(s[0])|..] == Encode(s[1..]);
      assert s == [s[0]] + s[1..];
    }
  }

  lemma LeadBits(b: Byte)
    ensures 0xC0 <= b < 0xE0 ==> b == 0xC0 + Low(b, 32)
    ensures 0xE0 <= b < 0xF0 ==> b == 0xE0 + Low(b, 16)
    ensures 0xF0 <= b < 0xF8 ==> b == 0xF0 + Low(b, 8)
    ensures IsTail(b) ==> b == 0x80 + Low(b, 64)
    ensures Low(b, 64) < 64 && Low(b, 32) < 32 && Low(b, 16) < 16 && Low(b, 8) < 8
  {
  }

  lemma TwoBack(x: nat, y: nat)
    requires y < 64
    ensures var n := x * 64 + y; n / 64 == x && n % 64 == y
  {
  }

  lemma ThreeBack(x: nat, y: nat, z: nat)
    requires y < 64 && z < 64
    ensures var n := x * 4096 + y * 64 + z; n / 4096 == x && n / 64 % 64 == y && n % 64 == z
  {
    var n := x * 4096 + y * 64 + z;
    TwoBack(x * 64 + y, z);
    TwoBack(x, y);
    assert n / 4096 == n / 64 / 64;
  }

  lemma FourBack(w: nat, x: nat, y: nat, z: nat)
    requires x < 64 && y < 64 && z < 64
    ensures var n := w * 262144 + x * 4096 + y * 64 + z; n / 262144 == w && n / 4096 % 64 == x && n / 64 % 64 == y && n % 64 == z
  {
    var n := w * 262144 + x * 4096 + y * 64 + z;
    ThreeBack(w * 64 + x, y, z);
    TwoBack(w, x);
    assert n / 262144 == n / 4096 / 64;
  }

  lemma ShortBack(bs: seq<Byte>, c: char)
    requires DecodeChar(bs) == Some((c, 1)) || DecodeChar(bs) == Some((c, 2))
    ensures EncodeChar(c) == bs[..DecodeChar(bs).value.1]
  {
    LeadBits(bs[0]);
    if DecodeChar(bs).value.1 == 2 {
      LeadBits(bs[1]);
      TwoBack(Low(bs[0], 32), Low(bs[1], 64));
    }
  }

  lemma LongBack(bs: seq<Byte>, c: char)
    requires DecodeChar(bs) == Some((c, 3)) || DecodeChar(bs) == Some((c, 4))
    ensures EncodeChar(c) == bs[..DecodeChar(bs).value.1]
  {
    LeadBits(bs[0]);
    LeadBits(bs[1]);
    LeadBits(bs[2]);
    if DecodeChar(bs).value.1 == 3 {
      ThreeBack(Low(bs[0], 16), Low(bs[1], 64), Low(bs[2], 64));
    } else {
      LeadBits(bs[3]);
      FourBack(Low(bs[0], 8), Low(bs[1], 64), Low(bs[2], 64), Low(bs[3], 64));
    }
  }

  lemma CharBack(bs: seq<Byte>)
    requires DecodeChar(bs).Some?
    ensures EncodeChar(DecodeChar(bs).value.0) == bs[..DecodeChar(bs).value.1]
  {
    var (c, n) := DecodeChar(bs).value;
    if n <= 2 {
      ShortBack(bs, c);
    } else {
      LongBack(bs, c);
    }
  }

  lemma FirstOf(bs: seq<Byte>) returns (c: char, n: nat, rest: string)
    requires bs != [] && Decode(bs).Some?
    ensures 1 <= n <= |bs| && EncodeChar(c) == bs[..n] && Decode(bs[n..]) == Some(rest) && Decode(bs) == Some([c] + rest)
  {
    c, n := DecodeChar(bs).value.0, DecodeChar(bs).value.1;
    rest := Decode(bs[n..]).value;
    CharBack(bs);
  }

  lemma EncodeCons(c: char, rest: string, bs: seq<Byte>, n: nat)
    requires n <= |bs| && EncodeChar(c) == bs[..n] && Encode(rest) == bs[n..]
    ensures Encode([c] + rest) == bs
  {
    assert ([c] + rest)[1..] == rest;
    assert bs == bs[..n] + bs[n..];
  }

  /** The decoder accepts exactly the encodings: no overlong form, no surrogate, nothing cut short. */
  lemma {:induction false} DecodeIsExact(bs: seq<Byte>)
    ensures Decode(bs).Some? ==> Encode(Decode(bs).value) == bs
  {
    if bs != [] && Decode(bs).Some? {
      var c, n, rest := FirstOf(bs);
      DecodeIsExact(bs[n..]);
      EncodeCons(c, rest, bs, n);
    }
  }

  /** One character of each length. */
  lemma Vectors()
    ensures EncodeChar('A') == [0x41] && EncodeChar('\U{00E9}') == [0xC3, 0xA9]
    ensures EncodeChar('\U{20AC}') == [0xE2, 0x82, 0xAC] && EncodeChar('\U{1F600}') == [0xF0, 0x9F, 0x98, 0x80]
  {
  }

  /* ---- The byte-order mark ---- */

  const BOM: char := '\U{FEFF}'

  /** A decoder drops a byte-order mark at the start. */
  function DecodeText(bs: seq<Byte>): Option<string> {
    Decode(if [0xEF, 0xBB, 0xBF] <= bs then bs[3..] else bs)
  }

  lemma MarkAtStart(s: string)
    ensures [0xEF, 0xBB, 0xBF] <= Encode(s) <==> s != [] && s[0] == BOM
  {
    if s != [] {
      EncodedForm(s[0]);
      EncodedValue(s[0]);
      var r := EncodeChar(s[0]);
      assert Encode(s)[0] == r[0];
      if [0xEF, 0xBB, 0xBF] <= Encode(s) {
        assert |r| == 3;
        assert r == Encode(s)[..3] == [0xEF, 0xBB, 0xBF];
      }
    }
  }

  /** Text survives the round trip if and only if it does not begin with a byte-order mark. */
  lemma TextRoundTrip(s: string)
    ensures DecodeText(Encode(s)) == Some(s) <==> !(s != [] && s[0] == BOM)
  {
    MarkAtStart(s);
    DecodeUndoesEncode(s);
    if s != [] && s[0] == BOM {
      assert EncodeChar(BOM) == [0xEF, 0xBB, 0xBF];
      assert Encode(s)[3..] == Encode(s[1..]);
      DecodeUndoesEncode(s[1..]);
      assert |s[1..]| < |s|;
    }
  }
}
