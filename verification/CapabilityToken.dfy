/** Capability tokens of the relay: cloudflare-worker/src/relay-auth.js.

    The keyed hash, HMAC (section 2 of RFC 2104), is a parameter and may be any function. A result that
    rests on two messages not having the same signature names the two. */
module CapabilityToken {
  import opened Common
  import opened Text
  import opened Base64Url

  const CLOCK_SKEW_SEC: int := 30
  const MAX_SAFE_INTEGER: nat := 9_007_199_254_740_991

  type Mac = (string, string) -> string

  predicate IsLowerHex(c: char) {
    '0' <= c <= '9' || 'a' <= c <= 'f'
  }

  predicate IsSignature(s: string) {
    |s| == 64 && forall i :: 0 <= i < |s| ==> IsLowerHex(s[i])
  }

  predicate IsIdChar(c: char) {
    'A' <= c <= 'Z' || 'a' <= c <= 'z' || '0' <= c <= '9' || c in "._:@-"
  }

  predicate IsPeerId(s: string) {
    1 <= |s| <= 64 && forall i :: 0 <= i < |s| ==> IsIdChar(s[i])
  }

  predicate IsRoomId(s: string) {
    8 <= |s| <= 64 && forall i :: 0 <= i < |s| ==> IsIdChar(s[i])
  }

  predicate IsAuthClass(s: string) {
    s == "member" || s == "terminal"
  }

  predicate IsNumeral(s: string) {
    s != "" && forall i :: 0 <= i < |s| ==> IsDigit(s[i])
  }

  /* ---- Comparing signatures ---- */

  /** Bitwise exclusive or. */
  function Xor(x: nat, y: nat): nat {
    if x == 0 && y == 0 then 0 else (if x % 2 == y % 2 then 0 else 1) + 2 * Xor(x / 2, y / 2)
  }

  /** Bitwise or. */
  function Or(x: nat, y: nat): nat {
    if x == 0 && y == 0 then 0 else (if x % 2 == 0 && y % 2 == 0 then 0 else 1) + 2 * Or(x / 2, y / 2)
  }

  lemma {:induction false} XorZero(x: nat, y: nat)
    ensures Xor(x, y) == 0 <==> x == y
  {
    if x != 0 || y != 0 {
      XorZero(x / 2, y / 2);
    }
  }

  lemma {:induction false} OrZero(x: nat, y: nat)
    ensures Or(x, y) == 0 <==> x == 0 && y == 0
  {
    if x != 0 || y != 0 {
      OrZero(x / 2, y / 2);
    }
  }

  /** Compare two strings without stopping early. */
  method TimingSafeEqual(a: string, b: string) returns (equal: bool)
    ensures equal <==> a == b
  {
    if |a| != |b| {
      return false;
    }
    var diff := 0;
    for i := 0 to |a|
      invariant diff == 0 <==> a[..i] == b[..i]
    {
      XorZero(a[i] as int, b[i] as int);
      OrZero(diff, Xor(a[i] as int, b[i] as int));
      PrefixesAgree(a, b, i);
      diff := Or(diff, Xor(a[i] as int, b[i] as int));
    }
    assert a[..|a|] == a && b[..|b|] == b;
    equal := diff == 0;
  }

  lemma PrefixesAgree(a: string, b: string, i: nat)
    requires i < |a| == |b|
    ensures a[..i + 1] == b[..i + 1] <==> a[..i] == b[..i] && a[i] == b[i]
  {
    assert a[..i + 1] == a[..i] + [a[i]] && b[..i + 1] == b[..i] + [b[i]];
  }

  predicate SignedBySome(mac: Mac, message: string, sig: string, secrets: seq<string>) {
    exists i :: 0 <= i < |secrets| && mac(secrets[i], message) == sig
  }

  /** Try every key, without stopping at the first that matches. */
  method CheckKeys(mac: Mac, message: string, sig: string, secrets: seq<string>) returns (ok: bool)
    ensures ok <==> SignedBySome(mac, message, sig, secrets)
  {
    ok := false;
    for i := 0 to |secrets|
      invariant ok <==> exists j :: 0 <= j < i && mac(secrets[j], message) == sig
    {
      var same := TimingSafeEqual(sig, mac(secrets[i], message));
      if same {
        ok := true;
      }
    }
  }

  /* ---- Tokens ---- */

  datatype Verdict = NotConfigured | Missing | Malformed | Expired | BadSignature
                   | Legacy(expSec: nat) | V2(peer: string, authClass: string, expSec: nat)

  function TokenV2Canonical(room: string, expSec: nat, peer: string, authClass: string): string {
    "v2\n" + (room + "\n" + (Decimal(expSec) + "\n" + (peer + "\n" + authClass)))
  }

  function LegacyCanonical(room: string, expSec: nat): string {
    room + "." + Decimal(expSec)
  }

  /** The pieces of `s` between dots. */
  function Split(s: string): (r: seq<string>)
    ensures r != []
    decreases |s|
  {
    if FirstDot(s) == |s| then [s] else [s[..FirstDot(s)]] + Split(s[FirstDot(s) + 1..])
  }

  function FirstDot(s: string): (i: nat)
    ensures i <= |s| && (i < |s| ==> s[i] == '.') && forall k :: 0 <= k < i ==> s[k] != '.'
  {
    if s == "" || s[0] == '.' then 0 else 1 + FirstDot(s[1..])
  }

  function Active(secrets: seq<string>): seq<string> {
    if secrets == [] then []
    else Active(secrets[..|secrets| - 1]) + if secrets[|secrets| - 1] != "" then [secrets[|secrets| - 1]] else []
  }

  function SignV2(mac: Mac, room: string, expSec: nat, peer: string, authClass: string, secret: string): Option<string> {
    if !IsPeerId(peer) || !IsAuthClass(authClass) then None
    else
      Some(Assemble(expSec, EncodeBase64Url(peer), authClass, mac(secret, TokenV2Canonical(room, expSec, peer, authClass))))
  }

  function Assemble(expSec: nat, peerB64: string, authClass: string, sig: string): string {
    "v2" + "." + (Decimal(expSec) + "." + (peerB64 + "." + (authClass + "." + sig)))
  }

  function VerifyV2(mac: Mac, token: string, room: string, secrets: seq<string>, nowSec: int): Verdict {
    VerifyParts(mac, Split(token), room, secrets, nowSec)
  }

  function VerifyParts(mac: Mac, parts: seq<string>, room: string, secrets: seq<string>, nowSec: int): Verdict {
    if |parts| != 5 || !IsNumeral(parts[1]) then Malformed
    else
      var expSec := DecimalValue(parts[1]);
      var peer := DecodeBase64Url(parts[2]);
      if expSec > MAX_SAFE_INTEGER || peer.None? || !IsPeerId(peer.value) || !IsAuthClass(parts[3]) || !IsSignature(parts[4]) then Malformed
      else if expSec + CLOCK_SKEW_SEC < nowSec then Expired
      else if SignedBySome(mac, TokenV2Canonical(room, expSec, peer.value, parts[3]), parts[4], secrets) then V2(peer.value, parts[3], expSec)
      else BadSignature
  }

  function VerifyLegacy(mac: Mac, token: string, room: string, secrets: seq<string>, nowSec: int): Verdict {
    var dot := FirstDot(token);
    if dot == 0 || dot == |token| || !IsNumeral(token[..dot]) then Malformed
    else
      var expSec := DecimalValue(token[..dot]);
      var sig := token[dot + 1..];
      if expSec > MAX_SAFE_INTEGER || !IsSignature(sig) then Malformed
      else if expSec + CLOCK_SKEW_SEC < nowSec then Expired
      else if SignedBySome(mac, LegacyCanonical(room, expSec), sig, secrets) then Legacy(expSec)
      else BadSignature
  }

  function VerifyCapabilityIdentity(mac: Mac, token: string, room: string, secrets: seq<string>, nowSec: int): Verdict {
    var active := Active(secrets);
    if active == [] then NotConfigured
    else if token == "" then Missing
    else if "v2." <= token then VerifyV2(mac, token, room, active, nowSec)
    else VerifyLegacy(mac, token, room, active, nowSec)
  }

  /** `verifyV2Token`, with the loop over the keys. */
  method CheckV2(mac: Mac, token: string, room: string, secrets: seq<string>, nowSec: int) returns (v: Verdict)
    ensures v == VerifyV2(mac, token, room, secrets, nowSec)
  {
    var parts := Split(token);
    if |parts| != 5 || !IsNumeral(parts[1]) {
      return Malformed;
    }
    var expSec := DecimalValue(parts[1]);
    var peer := DecodeBase64Url(parts[2]);
    if expSec > MAX_SAFE_INTEGER || peer.None? || !IsPeerId(peer.value) || !IsAuthClass(parts[3]) || !IsSignature(parts[4]) {
      return Malformed;
    }
    if expSec + CLOCK_SKEW_SEC < nowSec {
      return Expired;
    }
    var ok := CheckKeys(mac, TokenV2Canonical(room, expSec, peer.value, parts[3]), parts[4], secrets);
    v := if ok then V2(peer.value, parts[3], expSec) else BadSignature;
  }

  /** `verifyCapabilityIdentity`: the loops compute the verdict of the function. */
  method CheckIdentity(mac: Mac, token: string, room: string, secrets: seq<string>, nowSec: int) returns (v: Verdict)
    ensures v == VerifyCapabilityIdentity(mac, token, room, secrets, nowSec)
  {
    var active := Active(secrets);
    if active == [] {
      return NotConfigured;
    }
    if token == "" {
      return Missing;
    }
    if "v2." <= token {
      v := CheckV2(mac, token, room, active, nowSec);
      return;
    }
    var dot := FirstDot(token);
    if dot == 0 || dot == |token| || !IsNumeral(token[..dot]) {
      return Malformed;
    }
    var expSec, sig := DecimalValue(token[..dot]), token[dot + 1..];
    if expSec > MAX_SAFE_INTEGER || !IsSignature(sig) {
      return Malformed;
    }
    if expSec + CLOCK_SKEW_SEC < nowSec {
      return Expired;
    }
    var ok := CheckKeys(mac, LegacyCanonical(room, expSec), sig, active);
    v := if ok then Legacy(expSec) else BadSignature;
  }

  /* ---- Round trip ---- */

  lemma FirstDotAt(x: string, rest: string)
    requires '.' !in x
    ensures FirstDot(x + "." + rest) == |x|
  {
    var s := x + "." + rest;
    assert s == x + ['.'] + rest;
    SeparatorAt(x, '.', rest);
    assert s[|x|] == '.';
  }

  /** Pieces put together again with dots between them. */
  function Join(parts: seq<string>): string
    requires parts != []
  {
    if |parts| == 1 then parts[0] else parts[0] + "." + Join(parts[1..])
  }

  /** Splitting cuts at every dot and nowhere else. */
  lemma {:induction false} SplitIsExact(s: string)
    ensures Join(Split(s)) == s && forall i :: 0 <= i < |Split(s)| ==> '.' !in Split(s)[i]
    decreases |s|
  {
    var d := FirstDot(s);
    if d < |s| {
      SplitIsExact(s[d + 1..]);
      var parts := [s[..d]] + Split(s[d + 1..]);
      assert parts[1..] == Split(s[d + 1..]);
      assert s == s[..d] + "." + s[d + 1..];
    }
  }

  lemma SplitField(x: string, rest: string)
    requires '.' !in x
    ensures Split(x + "." + rest) == [x] + Split(rest)
  {
    FirstDotAt(x, rest);
    var s := x + "." + rest;
    assert s[..|x|] == x && s[|x| + 1..] == rest;
  }

  lemma SplitLast(x: string)
    requires '.' !in x
    ensures Split(x) == [x]
  {
    assert forall k :: 0 <= k < |x| ==> x[k] != '.';
  }

  lemma SplitTail(peerB64: string, authClass: string, sig: string)
    requires '.' !in peerB64 && '.' !in authClass && '.' !in sig
    ensures Split(peerB64 + "." + (authClass + "." + sig)) == [peerB64, authClass, sig]
  {
    SplitLast(sig);
    SplitField(authClass, sig);
    SplitField(peerB64, authClass + "." + sig);
  }

  lemma SplitAssembled(expSec: nat, peerB64: string, authClass: string, sig: string)
    requires '.' !in peerB64 && '.' !in authClass && '.' !in sig
    ensures Split(Assemble(expSec, peerB64, authClass, sig)) == ["v2", Decimal(expSec), peerB64, authClass, sig]
  {
    NoDotInDecimal(expSec);
    SplitTail(peerB64, authClass, sig);
    var tail := peerB64 + "." + (authClass + "." + sig);
    SplitTwoFields("v2", Decimal(expSec), tail);
    assert ["v2", Decimal(expSec)] + Split(tail) == ["v2", Decimal(expSec), peerB64, authClass, sig];
  }

  lemma SplitTwoFields(x: string, y: string, rest: string)
    requires '.' !in x && '.' !in y
    ensures Split(x + "." + (y + "." + rest)) == [x, y] + Split(rest)
  {
    SplitField(y, rest);
    SplitField(x, y + "." + rest);
    assert [x] + ([y] + Split(rest)) == [x, y] + Split(rest);
  }

  lemma NoDotInDecimal(n: nat)
    ensures '.' !in Decimal(n) && '\n' !in Decimal(n)
  {
  }

  lemma {:induction false} ActiveHas(secrets: seq<string>, k: string)
    ensures k in Active(secrets) <==> k in secrets && k != ""
  {
    if secrets != [] {
      var n := |secrets| - 1;
      ActiveHas(secrets[..n], k);
      assert k in secrets <==> k in secrets[..n] || k == secrets[n];
    }
  }

  /** A key in use that signs the message so. */
  ghost predicate SomeKeySigns(mac: Mac, message: string, sig: string, secrets: seq<string>) {
    exists k :: k in secrets && k != "" && mac(k, message) == sig
  }

  /** What verification says about a minted token, for any keyed hash whose signature of it is 64 hex
      digits: its own peer, class and expiry when it has not expired and a key in use signs its
      message the same way, and only then. */
  lemma MintedTokenVerifies(mac: Mac, room: string, expSec: nat, peer: string, authClass: string, secret: string,
                            secrets: seq<string>, nowSec: int)
    requires IsPeerId(peer) && IsAuthClass(authClass) && expSec <= MAX_SAFE_INTEGER
    requires IsSignature(mac(secret, TokenV2Canonical(room, expSec, peer, authClass)))
    ensures var t := SignV2(mac, room, expSec, peer, authClass, secret);
      var m := TokenV2Canonical(room, expSec, peer, authClass);
      && t.Some?
      && VerifyCapabilityIdentity(mac, t.value, room, secrets, nowSec) ==
           if Active(secrets) == [] then NotConfigured
           else if expSec + 30 < nowSec then Expired
           else if SomeKeySigns(mac, m, mac(secret, m), secrets) then V2(peer, authClass, expSec)
           else BadSignature
  {
    var b64 := EncodeBase64Url(peer);
    var m := TokenV2Canonical(room, expSec, peer, authClass);
    var sig := mac(secret, m);
    SplitAssembled(expSec, b64, authClass, sig);
    V2Prefix(expSec, b64, authClass, sig);
    KeysInUse(mac, m, sig, secrets);
    PartsVerify(mac, room, expSec, peer, authClass, sig, Active(secrets), nowSec);
  }

  lemma KeysInUse(mac: Mac, message: string, sig: string, secrets: seq<string>)
    ensures SignedBySome(mac, message, sig, Active(secrets)) <==> SomeKeySigns(mac, message, sig, secrets)
  {
    var active := Active(secrets);
    if SignedBySome(mac, message, sig, active) {
      var i :| 0 <= i < |active| && mac(active[i], message) == sig;
      ActiveHas(secrets, active[i]);
    }
    if SomeKeySigns(mac, message, sig, secrets) {
      var k :| k in secrets && k != "" && mac(k, message) == sig;
      ActiveHas(secrets, k);
      var i :| 0 <= i < |active| && active[i] == k;
    }
  }

  /** An unexpired token verifies under any list of keys that holds its own, whatever the keyed hash; and
      under no other list, unless a key of that list gives its very message the same signature. */
  lemma SignerDecides(mac: Mac, room: string, expSec: nat, peer: string, authClass: string, secret: string,
                      secrets: seq<string>, nowSec: int)
    requires IsPeerId(peer) && IsAuthClass(authClass) && expSec <= MAX_SAFE_INTEGER
    requires nowSec <= expSec + 30 && Active(secrets) != []
    requires IsSignature(mac(secret, TokenV2Canonical(room, expSec, peer, authClass)))
    ensures var t := SignV2(mac, room, expSec, peer, authClass, secret);
      var m := TokenV2Canonical(room, expSec, peer, authClass);
      && t.Some?
      && var v := VerifyCapabilityIdentity(mac, t.value, room, secrets, nowSec);
      && (secret in secrets && secret != "" ==> v == V2(peer, authClass, expSec))
      && ((forall k :: k in secrets && k != secret ==> mac(k, m) != mac(secret, m)) ==>
            v == if secret in secrets && secret != "" then V2(peer, authClass, expSec) else BadSignature)
  {
    MintedTokenVerifies(mac, room, expSec, peer, authClass, secret, secrets, nowSec);
    var m := TokenV2Canonical(room, expSec, peer, authClass);
    assert mac(secret, m) == mac(secret, m);
  }

  /** The legacy counterpart: the exact verdict on an expiry and its signature over room and expiry. */
  lemma LegacyTokenVerifies(mac: Mac, room: string, expSec: nat, secret: string, secrets: seq<string>, nowSec: int)
    requires expSec <= MAX_SAFE_INTEGER && IsSignature(mac(secret, room + "." + Decimal(expSec)))
    ensures var m := room + "." + Decimal(expSec);
      VerifyCapabilityIdentity(mac, Decimal(expSec) + "." + mac(secret, m), room, secrets, nowSec) ==
        if Active(secrets) == [] then NotConfigured
        else if expSec + 30 < nowSec then Expired
        else if SomeKeySigns(mac, m, mac(secret, m), secrets) then Legacy(expSec)
        else BadSignature
  {
    var m := room + "." + Decimal(expSec);
    var sig := mac(secret, m);
    var token := Decimal(expSec) + "." + sig;
    NoDotInDecimal(expSec);
    FirstDotAt(Decimal(expSec), sig);
    DecimalRoundTrip(expSec);
    KeysInUse(mac, m, sig, secrets);
    assert token[..|Decimal(expSec)|] == Decimal(expSec) && token[|Decimal(expSec)| + 1..] == sig;
    assert IsDigit(token[0]) && !("v2." <= token);
  }

  /** A mint refuses exactly what no verifier would accept, and an empty token is missing. */
  lemma MintRefuses(mac: Mac, room: string, expSec: nat, peer: string, authClass: string, secret: string,
                    secrets: seq<string>, nowSec: int)
    ensures SignV2(mac, room, expSec, peer, authClass, secret) == None <==> !(IsPeerId(peer) && IsAuthClass(authClass))
    ensures VerifyCapabilityIdentity(mac, "", room, secrets, nowSec) ==
      if exists k :: k in secrets && k != "" then Missing else NotConfigured
  {
    if Active(secrets) != [] {
      ActiveHas(secrets, Active(secrets)[0]);
    } else if k :| k in secrets && k != "" {
      ActiveHas(secrets, k);
    }
  }

  /** The signed texts. */
  lemma CanonicalTexts()
    ensures TokenV2Canonical("room", 12, "peer", "member") == "v2\nroom\n12\npeer\nmember"
    ensures LegacyCanonical("room", 12) == "room.12"
  {
    assert Decimal(1) == "1" && Decimal(12) == Decimal(1) + "2";
  }

  lemma V2Prefix(expSec: nat, peerB64: string, authClass: string, sig: string)
    ensures "v2." <= Assemble(expSec, peerB64, authClass, sig)
  {
    assert "v2." == Assemble(expSec, peerB64, authClass, sig)[..3];
  }

  lemma PartsVerify(mac: Mac, room: string, expSec: nat, peer: string, authClass: string, sig: string,
                    secrets: seq<string>, nowSec: int)
    requires IsPeerId(peer) && IsAuthClass(authClass) && expSec <= MAX_SAFE_INTEGER && IsSignature(sig)
    ensures VerifyParts(mac, ["v2", Decimal(expSec), EncodeBase64Url(peer), authClass, sig], room, secrets, nowSec) ==
      if expSec + CLOCK_SKEW_SEC < nowSec then Expired
      else if SignedBySome(mac, TokenV2Canonical(room, expSec, peer, authClass), sig, secrets) then V2(peer, authClass, expSec)
      else BadSignature
  {
    Base64UrlRoundTrip(peer);
    assert IsIdChar(peer[0]) && !IsIdChar(Utf8.BOM);
    DecimalRoundTrip(expSec);
  }

  /* ---- Binding ---- */

  /** Over text without line breaks the signed string determines room, expiry, peer and class. */
  lemma CanonicalInjective(r: string, e: nat, p: string, c: string, r': string, e': nat, p': string, c': string)
    requires '\n' !in r && '\n' !in p && '\n' !in r' && '\n' !in p'
    requires TokenV2Canonical(r, e, p, c) == TokenV2Canonical(r', e', p', c')
    ensures r == r' && e == e' && p == p' && c == c'
  {
    var tail, tail' := Decimal(e) + "\n" + (p + "\n" + c), Decimal(e') + "\n" + (p' + "\n" + c');
    assert TokenV2Canonical(r, e, p, c)[3..] == r + "\n" + tail;
    assert TokenV2Canonical(r', e', p', c')[3..] == r' + "\n" + tail';
    FirstField(r, r', '\n', tail, tail');
    NoDotInDecimal(e);
    NoDotInDecimal(e');
    FirstField(Decimal(e), Decimal(e'), '\n', p + "\n" + c, p' + "\n" + c');
    DecimalInjective(e, e');
    FirstField(p, p', '\n', c, c');
  }

  /** No legacy string is a v2 string. */
  lemma CanonicalsDisjoint(r: string, e: nat, p: string, c: string, r': string, e': nat)
    requires '\n' !in r'
    ensures TokenV2Canonical(r, e, p, c) != LegacyCanonical(r', e')
  {
    NoDotInDecimal(e');
    assert TokenV2Canonical(r, e, p, c)[2] == '\n';
    assert '\n' !in LegacyCanonical(r', e');
  }

  lemma IdHasNoBreak(s: string)
    requires forall i :: 0 <= i < |s| ==> IsIdChar(s[i])
    ensures '\n' !in s
  {
  }

  /** A key in use gives another message the signature of `m`. */
  ghost predicate Forges(mac: Mac, secrets: seq<string>, secret: string, m: string) {
    exists k, x :: k in secrets && x != m && mac(k, x) == mac(secret, m)
  }

  /** A signature is bound to what it was minted for, whatever the keyed hash: any token carrying it,
      however rewritten, that any room accepts is accepted for that room, peer, class and expiry and
      not as a legacy token, unless a key in use gives another message the same signature. */
  lemma SignatureIsBound(mac: Mac, room: string, expSec: nat, peer: string, authClass: string, secret: string,
                         token: string, room': string, secrets: seq<string>, nowSec: int)
    requires IsRoomId(room) && IsRoomId(room') && IsPeerId(peer)
    requires Signature(token) == mac(secret, TokenV2Canonical(room, expSec, peer, authClass))
    ensures var v := VerifyCapabilityIdentity(mac, token, room', secrets, nowSec);
      v.V2? || v.Legacy? ==>
        || (room' == room && v == V2(peer, authClass, expSec))
        || Forges(mac, Active(secrets), secret, TokenV2Canonical(room, expSec, peer, authClass))
  {
    var m := TokenV2Canonical(room, expSec, peer, authClass);
    var v := VerifyCapabilityIdentity(mac, token, room', secrets, nowSec);
    IdHasNoBreak(room);
    IdHasNoBreak(room');
    IdHasNoBreak(peer);
    if v.V2? {
      var x := AcceptedV2(mac, token, room', secrets, nowSec);
      if x == m {
        CanonicalInjective(room, expSec, peer, authClass, room', v.expSec, v.peer, v.authClass);
      }
    } else if v.Legacy? {
      var x := AcceptedLegacy(mac, token, room', secrets, nowSec);
      CanonicalsDisjoint(room, expSec, peer, authClass, room', v.expSec);
    }
  }

  /** What acceptance as a v2 token means: five pieces that carry the expiry, the peer id and the class of
      the verdict, all of them allowed and not expired, and a signature by a key in use of the message
      that names them and the room. */
  lemma AcceptedV2(mac: Mac, token: string, room: string, secrets: seq<string>, nowSec: int) returns (x: string)
    requires VerifyCapabilityIdentity(mac, token, room, secrets, nowSec).V2?
    ensures var v := VerifyCapabilityIdentity(mac, token, room, secrets, nowSec);
      && x == TokenV2Canonical(room, v.expSec, v.peer, v.authClass) && '\n' !in v.peer
      && IsPeerId(v.peer) && IsAuthClass(v.authClass) && IsSignature(Signature(token)) && nowSec <= v.expSec + 30
      && |Split(token)| == 5 && Number(Split(token)[1]) == v.expSec <= MAX_SAFE_INTEGER
      && DecodeBase64Url(Split(token)[2]) == Some(v.peer) && Split(token)[3] == v.authClass
      && exists k :: k in Active(secrets) && mac(k, x) == Signature(token)
  {
    var v := VerifyCapabilityIdentity(mac, token, room, secrets, nowSec);
    var active, parts := Active(secrets), Split(token);
    x := TokenV2Canonical(room, v.expSec, v.peer, v.authClass);
    IdHasNoBreak(v.peer);
    var i :| 0 <= i < |active| && mac(active[i], x) == parts[4];
    assert active[i] in active && parts[4] == Signature(token);
  }

  lemma AcceptedLegacy(mac: Mac, token: string, room: string, secrets: seq<string>, nowSec: int) returns (x: string)
    requires VerifyCapabilityIdentity(mac, token, room, secrets, nowSec).Legacy?
    ensures var v := VerifyCapabilityIdentity(mac, token, room, secrets, nowSec);
      && x == LegacyCanonical(room, v.expSec)
      && IsSignature(Signature(token)) && nowSec <= v.expSec + 30 && Number(token[..FirstDot(token)]) == v.expSec <= MAX_SAFE_INTEGER
      && exists k :: k in Active(secrets) && mac(k, x) == Signature(token)
  {
    var v := VerifyCapabilityIdentity(mac, token, room, secrets, nowSec);
    var active, sig := Active(secrets), token[FirstDot(token) + 1..];
    x := LegacyCanonical(room, v.expSec);
    NoDotInSignature(sig);
    LegacySignature(token, sig);
    var i :| 0 <= i < |active| && mac(active[i], x) == sig;
    assert active[i] in active;
  }

  /** The part of a token after its last dot. */
  function Signature(token: string): string {
    var parts := Split(token);
    parts[|parts| - 1]
  }

  lemma NoDotInSignature(s: string)
    requires IsSignature(s)
    ensures '.' !in s
  {
  }

  lemma SignatureAfterDot(exp: string, sig: string)
    requires '.' !in exp && '.' !in sig
    ensures Signature(exp + "." + sig) == sig
  {
    SplitField(exp, sig);
    SplitLast(sig);
  }

  lemma SignatureFrom(token: string, d: nat)
    requires d < |token| && token[d] == '.' && (forall k :: 0 <= k < d ==> token[k] != '.') && '.' !in token[d + 1..]
    ensures Signature(token) == token[d + 1..]
  {
    assert token == token[..d] + "." + token[d + 1..];
    SignatureAfterDot(token[..d], token[d + 1..]);
  }

  lemma LegacySignature(token: string, sig: string)
    requires FirstDot(token) < |token| && sig == token[FirstDot(token) + 1..] && '.' !in sig
    ensures Signature(token) == sig
  {
    SignatureFrom(token, FirstDot(token));
  }
}
