/** `CryptoSession` in core/src/crypto.rs: nonce allocation and the sliding replay window.

    AES-256-GCM is modelled as an ideal AEAD: a sealed body names the key, the nonce and the
    plaintext it was made from, and opens under that key and that nonce only. */
module Crypto {
  import opened Common

  const REPLAY_WINDOW: nat := 8192
  const PREFIX_SIZE: nat := 8
  const NONCE_SIZE: nat := 12
  const TAG_SIZE: nat := 16
  /** The longest plaintext AES-GCM takes, 2^36 bytes; a longer one is an error that uses up its nonce. */
  const MAX_PLAINTEXT: nat := 0x10_0000_0000

  type Bytes = seq<bv8>
  type Nonce = seq<nat>

  datatype Body = Sealed(key: nat, nonce: Nonce, plaintext: Bytes) | Forged(junk: Bytes)

  /** What travels: nonce, ciphertext and tag, or data too short to hold them. */
  datatype Frame = TooShort | Frame(nonce: Nonce, body: Body)

  function FrameLen(f: Frame): nat
    requires f.Frame? && f.body.Sealed?
  {
    NONCE_SIZE + |f.body.plaintext| + TAG_SIZE
  }

  /** Ideal AEAD opening. */
  function Open(key: nat, f: Frame): Option<Bytes> {
    if f.Frame? && f.body.Sealed? && f.body.key == key && f.body.nonce == f.nonce then Some(f.body.plaintext) else None
  }

  /** Byte `i` of a `u32`, the lowest first. */
  function ByteOf(c: nat, i: nat): nat {
    match i
    case 0 => c % 256
    case 1 => c / 256 % 256
    case 2 => c / 65536 % 256
    case _ => c / 16777216 % 256
  }

  /** The four little-endian bytes of a `u32`. */
  function LittleEndian(c: nat): (r: seq<nat>)
    ensures |r| == 4
  {
    seq(4, i requires 0 <= i < 4 => ByteOf(c, i))
  }

  function NonceFor(prefix: seq<nat>, counter: nat): Nonce {
    prefix + LittleEndian(counter)
  }

  datatype Session = Session(key: nat, prefix: seq<nat>, counter: nat, window: seq<Nonce>)

  predicate NoDup<T(==)>(s: seq<T>) {
    forall i, j :: 0 <= i < j < |s| ==> s[i] != s[j]
  }

  predicate WellFormed(s: Session) {
    |s.prefix| == PREFIX_SIZE && s.counter <= U32_MAX && |s.window| <= REPLAY_WINDOW && NoDup(s.window)
  }

  /* ---- Specification of the two operations ---- */

  function Encrypted(s: Session, plaintext: Bytes): (Session, Result<Frame>) {
    if s.counter >= U32_MAX then (s, Err)
    else
      var nonce := NonceFor(s.prefix, s.counter + 1);
      (s.(counter := s.counter + 1),
       if |plaintext| > MAX_PLAINTEXT then Err else Ok(Frame(nonce, Sealed(s.key, nonce, plaintext))))
  }

  predicate Accepts(s: Session, f: Frame) {
    Open(s.key, f).Some? && f.nonce !in s.window
  }

  function Decrypted(s: Session, f: Frame): (Session, Result<Bytes>) {
    if Accepts(s, f) then
      (s.(window := LastN(s.window + [f.nonce], REPLAY_WINDOW)), Ok(f.body.plaintext))
    else (s, Err)
  }

  lemma WindowKeepsForm(s: Session, f: Frame)
    requires WellFormed(s)
    ensures WellFormed(Decrypted(s, f).0)
    ensures Accepts(s, f) ==> NoDup(s.window + [f.nonce])
  {
    if Accepts(s, f) {
      var longer := s.window + [f.nonce];
      assert NoDup(longer);
      var kept := LastN(longer, REPLAY_WINDOW);
      assert forall i :: 0 <= i < |kept| ==> kept[i] == longer[|longer| - |kept| + i];
    }
  }

  /* ---- The class ---- */

  class CryptoSession {
    const key: nat
    const noncePrefix: seq<nat>
    var nonceCounter: nat
    var seen: set<Nonce>
    var order: seq<Nonce>

    ghost function View(): Session
      reads this
    {
      Session(key, noncePrefix, nonceCounter, order)
    }

    ghost predicate Valid()
      reads this
    {
      WellFormed(View()) && (forall n :: n in seen <==> n in order)
    }

    constructor (key: nat, prefix: seq<nat>)
      requires |prefix| == PREFIX_SIZE
      ensures Valid() && View() == Session(key, prefix, 0, [])
    {
      this.key, noncePrefix, nonceCounter, seen, order := key, prefix, 0, {}, [];
    }

    method NextNonce() returns (r: Result<Nonce>)
      requires Valid()
      modifies this`nonceCounter
      ensures Valid()
      ensures if old(nonceCounter) == U32_MAX then r == Err && nonceCounter == U32_MAX
              else nonceCounter == old(nonceCounter) + 1 && r == Ok(NonceFor(noncePrefix, nonceCounter))
    {
      if nonceCounter == U32_MAX {
        return Err;
      }
      nonceCounter := nonceCounter + 1;
      r := Ok(NonceFor(noncePrefix, nonceCounter));
    }

    method Encrypt(plaintext: Bytes) returns (r: Result<Frame>)
      requires Valid()
      modifies this`nonceCounter
      ensures Valid()
      ensures (View(), r) == Encrypted(old(View()), plaintext)
    {
      var nonce := NextNonce();
      match nonce {
        case Err => r := Err;
        case Ok(n) => r := if |plaintext| > MAX_PLAINTEXT then Err else Ok(Frame(n, Sealed(key, n, plaintext)));
      }
    }

    method Decrypt(data: Frame) returns (r: Result<Bytes>)
      requires Valid()
      modifies this`seen, this`order
      ensures Valid()
      ensures (View(), r) == Decrypted(old(View()), data)
    {
      var plain := Open(key, data);
      if plain.None? || data.nonce in seen {
        return Err;
      }
      WindowKeepsForm(View(), data);
      seen := seen + {data.nonce};
      order := order + [data.nonce];
      ghost var longer := order;
      if |order| > REPLAY_WINDOW {
        var evicted := order[0];
        order := order[1..];
        seen := seen - {evicted};
        assert forall n :: n in longer <==> n == evicted || n in order;
      }
      r := Ok(plain.value);
    }
  }
}
