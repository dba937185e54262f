/** What a `CryptoSession` guarantees over whole runs of encryptions and decryptions. */
module CryptoTheorems {
  import opened Common
  import opened Crypto

  /* ---- Nonces ---- */

  lemma NonceInjective(p: seq<nat>, c: nat, q: seq<nat>, d: nat)
    requires |p| == |q| && c <= U32_MAX && d <= U32_MAX
    requires NonceFor(p, c) == NonceFor(q, d)
    ensures p == q && c == d
  {
    assert p == NonceFor(p, c)[..|p|] == NonceFor(q, d)[..|q|] == q;
    forall i | 0 <= i < 4 ensures ByteOf(c, i) == ByteOf(d, i) {
      assert NonceFor(p, c)[|p| + i] == LittleEndian(c)[i] == ByteOf(c, i);
      assert NonceFor(q, d)[|q| + i] == LittleEndian(d)[i] == ByteOf(d, i);
    }
    BytesValue(c);
    BytesValue(d);
  }

  lemma BytesValue(c: nat)
    requires c <= U32_MAX
    ensures c == ByteOf(c, 0) + 256 * ByteOf(c, 1) + 65536 * ByteOf(c, 2) + 16777216 * ByteOf(c, 3)
  {
    LowByte(c);
    LowByte(c / 256);
    LowByte(c / 65536);
  }

  lemma LowByte(c: nat)
    ensures c == c % 256 + 256 * (c / 256) && c / 256 / 256 == c / 65536 && c / 65536 / 256 == c / 16777216
  {
  }

  lemma NoncesDiffer(p: seq<nat>, c: nat, q: seq<nat>, d: nat)
    requires |p| == |q| && c <= U32_MAX && d <= U32_MAX && (p != q || c != d)
    ensures NonceFor(p, c) != NonceFor(q, d)
  {
    if NonceFor(p, c) == NonceFor(q, d) {
      NonceInjective(p, c, q, d);
    }
  }

  /** The results of encrypting `pts` one after the other. */
  function EncryptAll(s: Session, pts: seq<Bytes>): (r: seq<Result<Frame>>)
    ensures |r| == |pts| && forall i :: 0 <= i < |r| && r[i].Ok? ==> r[i].value.Frame?
    decreases |pts|
  {
    if pts == [] then [] else [Encrypted(s, pts[0]).1] + EncryptAll(Encrypted(s, pts[0]).0, pts[1..])
  }

  /** Encryption `k` of a run is what a session whose counter is `k` further on makes of its plaintext. */
  lemma {:induction false} EncryptAt(s: Session, pts: seq<Bytes>, k: nat)
    requires WellFormed(s) && k < |pts|
    ensures EncryptAll(s, pts)[k] == Encrypted(s.(counter := s.counter + k), pts[k]).1
    decreases k
  {
    if k > 0 {
      var t := Encrypted(s, pts[0]).0;
      EncryptAt(t, pts[1..], k - 1);
      assert s.counter < U32_MAX ==> t.(counter := t.counter + (k - 1)) == s.(counter := s.counter + k);
    }
  }

  /** A session encrypts whatever the cipher takes as long as it has nonces left, `2^32 - 1` from a
      fresh one, and then refuses for ever. */
  lemma NonceSupply(s: Session, pts: seq<Bytes>, k: nat)
    requires WellFormed(s) && k < |pts|
    ensures EncryptAll(s, pts)[k].Ok? <==> k < U32_MAX - s.counter && |pts[k]| <= MAX_PLAINTEXT
  {
    EncryptAt(s, pts, k);
  }

  /** No two frames, of one session (`s` and `t` the same, `i` and `j` not) or of two with different
      prefixes, share a nonce. */
  lemma NoncesAreUnique(s: Session, pts: seq<Bytes>, i: nat, t: Session, qts: seq<Bytes>, j: nat, f: Frame, g: Frame)
    requires WellFormed(s) && WellFormed(t) && i < |pts| && j < |qts|
    requires s.prefix != t.prefix || s.counter + i != t.counter + j
    requires EncryptAll(s, pts)[i] == Ok(f) && EncryptAll(t, qts)[j] == Ok(g)
    ensures f.Frame? && g.Frame? && f.nonce != g.nonce
  {
    IssuedNonce(s, pts, i, f);
    IssuedNonce(t, qts, j, g);
    IssuedNoncesDiffer(s, i, t, j);
  }

  lemma IssuedNoncesDiffer(s: Session, i: nat, t: Session, j: nat)
    requires |s.prefix| == |t.prefix| && s.counter + i + 1 <= U32_MAX && t.counter + j + 1 <= U32_MAX
    requires s.prefix != t.prefix || s.counter + i != t.counter + j
    ensures NonceFor(s.prefix, s.counter + i + 1) != NonceFor(t.prefix, t.counter + j + 1)
  {
    NoncesDiffer(s.prefix, s.counter + i + 1, t.prefix, t.counter + j + 1);
  }

  lemma IssuedNonce(s: Session, pts: seq<Bytes>, i: nat, f: Frame)
    requires WellFormed(s) && i < |pts| && EncryptAll(s, pts)[i] == Ok(f)
    ensures s.counter + i + 1 <= U32_MAX && f.Frame? && f.nonce == NonceFor(s.prefix, s.counter + i + 1)
  {
    EncryptAt(s, pts, i);
    NonceAfter(s, i, pts[i], f);
  }

  lemma NonceAfter(s: Session, i: nat, pt: Bytes, f: Frame)
    requires Encrypted(s.(counter := s.counter + i), pt).1 == Ok(f)
    ensures s.counter + i + 1 <= U32_MAX && f.Frame? && f.nonce == NonceFor(s.prefix, s.counter + i + 1)
  {
  }

  /** Twelve bytes: the prefix, and then the counter, lowest byte first. */
  predicate LaidOut(n: Nonce, prefix: seq<nat>, c: nat) {
    && |n| == 12 && n[..8] == prefix && n[8] < 256 && n[9] < 256 && n[10] < 256 && n[11] < 256
    && n[8] + 0x100 * n[9] + 0x1_0000 * n[10] + 0x100_0000 * n[11] == c
  }

  /** Frame `k` of a run carries the session's prefix and a counter `k + 1` further on. */
  lemma NonceLayout(s: Session, pts: seq<Bytes>, k: nat, f: Frame)
    requires WellFormed(s) && k < |pts| && EncryptAll(s, pts)[k] == Ok(f)
    ensures f.Frame? && LaidOut(f.nonce, s.prefix, s.counter + k + 1)
  {
    EncryptAt(s, pts, k);
    LayoutAfter(s, k, pts[k], f);
  }

  lemma LayoutAfter(s: Session, i: nat, pt: Bytes, f: Frame)
    requires WellFormed(s) && Encrypted(s.(counter := s.counter + i), pt).1 == Ok(f)
    ensures f.Frame? && LaidOut(f.nonce, s.prefix, s.counter + i + 1)
  {
    NonceAfter(s, i, pt, f);
    LayoutOf(f.nonce, s.prefix, s.counter + i + 1);
  }

  lemma LayoutOf(n: Nonce, prefix: seq<nat>, c: nat)
    requires |prefix| == 8 && c <= U32_MAX && n == NonceFor(prefix, c)
    ensures LaidOut(n, prefix, c)
  {
    assert n[8] == LittleEndian(c)[0] && n[9] == LittleEndian(c)[1] && n[10] == LittleEndian(c)[2] && n[11] == LittleEndian(c)[3];
    assert n[8] == ByteOf(c, 0) && n[9] == ByteOf(c, 1) && n[10] == ByteOf(c, 2) && n[11] == ByteOf(c, 3);
    BytesValue(c);
  }

  /** A frame made under another key, or with its nonce or its body replaced, is refused and changes nothing. */
  lemma ForeignFrameRefused(a: Session, b: Session, pt: Bytes, nonce: Nonce, junk: Bytes)
    requires Encrypted(a, pt).1.Ok? && Encrypted(a, pt).1.value.Frame?
    ensures var f := Encrypted(a, pt).1.value;
      && (a.key != b.key ==> Decrypted(b, f) == (b, Err))
      && (nonce != f.nonce ==> Decrypted(b, f.(nonce := nonce)) == (b, Err))
      && Decrypted(b, f.(body := Forged(junk))) == (b, Err)
      && Decrypted(b, TooShort) == (b, Err)
  {
  }

  /* ---- The replay window ---- */

  lemma LastNSnoc<T>(h: seq<T>, x: T, n: nat)
    ensures LastN(LastN(h, n) + [x], n) == LastN(h + [x], n)
  {
  }

  /** The session after a run of received frames. */
  function DecryptAll(s: Session, fs: seq<Frame>): (Session, seq<Result<Bytes>>) {
    if fs == [] then (s, [])
    else
      var (mid, rs) := DecryptAll(s, fs[..|fs| - 1]);
      var (end, r) := Decrypted(mid, fs[|fs| - 1]);
      (end, rs + [r])
  }

  /** The reference: remember every accepted nonce for ever and refuse a frame when its nonce is one
      of the last 8192 of them. */
  function History(key: nat, h: seq<Nonce>, fs: seq<Frame>): (seq<Nonce>, seq<Result<Bytes>>) {
    if fs == [] then (h, [])
    else
      var (mid, rs) := History(key, h, fs[..|fs| - 1]);
      var f := fs[|fs| - 1];
      if Open(key, f).Some? && f.nonce !in LastN(mid, 8192) then (mid + [f.nonce], rs + [Ok(f.body.plaintext)])
      else (mid, rs + [Err])
  }

  /** In every run the bounded window answers like the unbounded reference, and holds the most
      recent accepted nonces in order, without duplicates. */
  lemma {:induction false} WindowRefinesHistory(s: Session, h: seq<Nonce>, fs: seq<Frame>)
    requires WellFormed(s) && s.window == LastN(h, REPLAY_WINDOW)
    ensures var (t, rs) := DecryptAll(s, fs);
      var (h', ref) := History(s.key, h, fs);
      rs == ref && WellFormed(t) && t == s.(window := LastN(h', REPLAY_WINDOW))
  {
    if fs != [] {
      var init, f := fs[..|fs| - 1], fs[|fs| - 1];
      WindowRefinesHistory(s, h, init);
      WindowKeepsForm(DecryptAll(s, init).0, f);
      if f.Frame? {
        LastNSnoc(History(s.key, h, init).0, f.nonce, REPLAY_WINDOW);
      }
    }
  }

  /* ---- Both ends ---- */

  function Delivered(rs: seq<Result<Frame>>): (fs: seq<Frame>)
    ensures |fs| == |rs| && forall i :: 0 <= i < |rs| ==> fs[i] == OnTheWire(rs[i])
  {
    seq(|rs|, i requires 0 <= i < |rs| => OnTheWire(rs[i]))
  }

  /** Everything a session encrypts, a peer with the same key that has not seen its nonces decrypts:
      every frame that was sealed returns its own plaintext. */
  lemma {:induction false} PeerReadsEverything(a: Session, b: Session, pts: seq<Bytes>)
    requires WellFormed(a) && WellFormed(b) && a.key == b.key && |pts| <= U32_MAX - a.counter
    requires forall k :: a.counter < k <= U32_MAX ==> NonceFor(a.prefix, k) !in b.window
    ensures var (b', rs) := DecryptAll(b, Delivered(EncryptAll(a, pts)));
      && WellFormed(b') && b'.key == b.key
      && |rs| == |pts| && (forall i :: 0 <= i < |pts| ==> rs[i] == if |pts[i]| <= MAX_PLAINTEXT then Ok(pts[i]) else Err)
      && (forall k :: a.counter + |pts| < k <= U32_MAX ==> NonceFor(a.prefix, k) !in b'.window)
  {
    if pts != [] {
      var init, n := pts[..|pts| - 1], |pts| - 1;
      PeerReadsEverything(a, b, init);
      FirstOnTheWire(a, pts);
      EncryptAt(a, pts, n);
      PeerReadsOne(a.(counter := a.counter + n), DecryptAll(b, Delivered(EncryptAll(a, init))).0, pts[n]);
    }
  }

  function OnTheWire(r: Result<Frame>): Frame {
    if r.Ok? then r.value else TooShort
  }

  lemma FirstOnTheWire(a: Session, pts: seq<Bytes>)
    requires WellFormed(a) && pts != []
    ensures Delivered(EncryptAll(a, pts))[..|pts| - 1] == Delivered(EncryptAll(a, pts[..|pts| - 1]))
  {
    EncryptPrefix(a, pts);
    DeliveredPrefix(EncryptAll(a, pts), |pts| - 1);
  }

  lemma DeliveredPrefix(rs: seq<Result<Frame>>, n: nat)
    requires n <= |rs|
    ensures Delivered(rs)[..n] == Delivered(rs[..n])
  {
  }

  lemma PeerReadsOne(a: Session, b: Session, pt: Bytes)
    requires WellFormed(a) && WellFormed(b) && a.key == b.key && a.counter < U32_MAX
    requires forall k :: a.counter < k <= U32_MAX ==> NonceFor(a.prefix, k) !in b.window
    ensures var (b', r) := Decrypted(b, OnTheWire(Encrypted(a, pt).1));
      && WellFormed(b') && b'.key == b.key && r == (if |pt| <= MAX_PLAINTEXT then Ok(pt) else Err)
      && (forall k :: a.counter + 1 < k <= U32_MAX ==> NonceFor(a.prefix, k) !in b'.window)
  {
    if |pt| <= MAX_PLAINTEXT {
      FreshFrame(a, b, pt);
    }
  }

  lemma EncryptPrefix(a: Session, pts: seq<Bytes>)
    requires WellFormed(a) && pts != []
    ensures EncryptAll(a, pts)[..|pts| - 1] == EncryptAll(a, pts[..|pts| - 1])
  {
    forall k | 0 <= k < |pts| - 1 ensures EncryptAll(a, pts[..|pts| - 1])[k] == EncryptAll(a, pts)[k] {
      EncryptAt(a, pts[..|pts| - 1], k);
      EncryptAt(a, pts, k);
    }
  }

  /** A frame fresh from the sender opens, and leaves the sender's later nonces unseen. */
  lemma FreshFrame(a: Session, b: Session, pt: Bytes)
    requires WellFormed(a) && WellFormed(b) && a.key == b.key && a.counter < U32_MAX && |pt| <= MAX_PLAINTEXT
    requires forall k :: a.counter < k <= U32_MAX ==> NonceFor(a.prefix, k) !in b.window
    ensures var (b', r) := Decrypted(b, Encrypted(a, pt).1.value);
      && WellFormed(b') && b'.key == b.key && r == Ok(pt)
      && (forall k :: a.counter + 1 < k <= U32_MAX ==> NonceFor(a.prefix, k) !in b'.window)
  {
    var f := Encrypted(a, pt).1.value;
    WindowKeepsForm(b, f);
    var b' := Decrypted(b, f).0;
    WindowMembers(b, f);
    forall k | a.counter + 1 < k <= U32_MAX ensures NonceFor(a.prefix, k) !in b'.window {
      NoncesDiffer(a.prefix, k, a.prefix, a.counter + 1);
    }
  }

  lemma WindowMembers(s: Session, f: Frame)
    requires Accepts(s, f)
    ensures forall x :: x in Decrypted(s, f).0.window ==> x in s.window || x == f.nonce
  {
  }
}
