/** Key staging and fan-out of `TransportManager` in android-native/src/transport.rs. */
module Transport {
  import opened Common
  import opened Crypto
  import PQ = PacketQueue

  const MAX_PACKET_SIZE: nat := 1400
  const MAX_OUTBOUND_QUEUE_SIZE: nat := 32

  /** The two keys a manager can hold: the live one, for sending and receiving, and one staged by a
      handshake, for receiving only. */
  datatype Manager = Manager(live: Option<Session>, staged: Option<Session>)

  predicate WellKept(m: Manager) {
    (m.live.Some? ==> WellFormed(m.live.value)) && (m.staged.Some? ==> WellFormed(m.staged.value))
  }

  predicate Takes(k: Option<Session>, f: Frame) {
    k.Some? && Accepts(k.value, f)
  }

  function Received(m: Manager, f: Frame): (Manager, Result<Bytes>) {
    if Takes(m.live, f) then (m.(live := Some(Decrypted(m.live.value, f).0)), Ok(f.body.plaintext))
    else if Takes(m.staged, f) then (Manager(Some(Decrypted(m.staged.value, f).0), None), Ok(f.body.plaintext))
    else (m, Err)
  }

  function SealedBy(m: Manager, plaintext: Bytes): (Manager, Result<Frame>) {
    if m.live.None? then (m, Err)
    else
      var (s, r) := Encrypted(m.live.value, plaintext);
      (m.(live := Some(s)), r)
  }

  lemma ReceivedKept(m: Manager, f: Frame)
    requires WellKept(m)
    ensures WellKept(Received(m, f).0)
  {
    if m.live.Some? {
      WindowKeepsForm(m.live.value, f);
    }
    if m.staged.Some? {
      WindowKeepsForm(m.staged.value, f);
    }
  }

  class TransportManager {
    var crypto: CryptoSession?
    var pendingRx: CryptoSession?
    var wifiActive: bool
    var relayConnected: bool
    var relaySendAllowed: bool
    var bluetoothConnected: bool
    var bluetoothTxAllowed: bool
    const relayOutbound: PQ.PacketQueue<Frame>
    const bluetoothOutbound: PQ.PacketQueue<Frame>
    ghost var wifiAir: seq<Frame>  // what WiFi multicast has carried

    ghost predicate Valid()
      reads this, crypto, pendingRx, relayOutbound, bluetoothOutbound
    {
      && (crypto != null ==> crypto.Valid())
      && (pendingRx != null ==> pendingRx.Valid())
      && (crypto != null && pendingRx != null ==> crypto != pendingRx)
      && relayOutbound != bluetoothOutbound && relayOutbound.Valid() && bluetoothOutbound.Valid()
    }

    ghost function View(): Manager
      reads this, crypto, pendingRx
    {
      Manager(if crypto == null then None else Some(crypto.View()), if pendingRx == null then None else Some(pendingRx.View()))
    }

    constructor ()
      ensures Valid() && fresh(relayOutbound) && fresh(bluetoothOutbound)
      ensures View() == Manager(None, None) && wifiAir == []
      ensures relayOutbound.maxSize == bluetoothOutbound.maxSize == 32 && relayOutbound.maxAge == bluetoothOutbound.maxAge == 500
      ensures !wifiActive && !relayConnected && !relaySendAllowed && !bluetoothConnected && !bluetoothTxAllowed
    {
      crypto, pendingRx := null, null;
      wifiActive, relayConnected, relaySendAllowed := false, false, false;
      bluetoothConnected, bluetoothTxAllowed := false, false;
      relayOutbound := new PQ.PacketQueue(MAX_OUTBOUND_QUEUE_SIZE, 500);
      bluetoothOutbound := new PQ.PacketQueue(MAX_OUTBOUND_QUEUE_SIZE, 500);
      wifiAir := [];
    }

    method SetCrypto(session: CryptoSession)
      requires Valid() && session.Valid()
      modifies this`crypto, this`pendingRx
      ensures Valid() && View() == Manager(Some(session.View()), None)
      ensures crypto == session && pendingRx == null
    {
      crypto := session;
      pendingRx := null;
    }

    method ArmPendingRx(session: CryptoSession)
      requires Valid() && session.Valid() && session != crypto
      modifies this`pendingRx
      ensures Valid() && View() == old(View()).(staged := Some(session.View())) && pendingRx == session
    {
      pendingRx := session;
    }

    method DiscardPendingRx()
      requires Valid()
      modifies this`pendingRx
      ensures Valid() && View() == old(View()).(staged := None) && pendingRx == null
    {
      pendingRx := null;
    }

    method DecryptLiveOrPending(data: Frame) returns (r: Result<Bytes>)
      requires Valid()
      modifies this`crypto, this`pendingRx, crypto, pendingRx
      ensures Valid()
      ensures (View(), r) == Received(old(View()), data)
    {
      ghost var before := View();
      if crypto != null {
        r := crypto.Decrypt(data);
        if r.Ok? {
          return;
        }
        assert View() == before && !Takes(before.live, data);
      }
      if pendingRx != null {
        r := TryPending(data);
        return;
      }
      r := Err;
    }

    /** A frame the staged session accepts makes it live. */
    method TryPending(data: Frame) returns (r: Result<Bytes>)
      requires Valid() && pendingRx != null
      modifies this`crypto, this`pendingRx, pendingRx
      ensures Valid()
      ensures var staged := old(pendingRx.View());
        if Accepts(staged, data) then r == Ok(data.body.plaintext) && View() == Manager(Some(Decrypted(staged, data).0), None)
        else r == Err && View() == old(View())
    {
      r := pendingRx.Decrypt(data);
      if r.Ok? {
        crypto := pendingRx;
        pendingRx := null;
      }
    }

    /** One encryption, so one nonce, and that one ciphertext on every plane that takes it. `wifiOk`
        is the outcome of the multicast send; `t` and `now` are clock readings. */
    method Send(data: Bytes, wifiOk: bool, t: int, now: int) returns (r: Result<nat>, ghost payload: Result<Frame>)
      requires Valid()
      modifies this`wifiAir, crypto, relayOutbound, bluetoothOutbound
      ensures Valid()
      ensures (View(), payload) == SealedBy(old(View()), data)
      ensures wifiAir == old(wifiAir) + (if payload.Ok? && wifiActive && wifiOk then [payload.value] else [])
      ensures relayOutbound.pushed == old(relayOutbound.pushed) + (
        if payload.Ok? && old(RelayTakes(|data|)) then [PQ.Queued(payload.value, t)] else [])
      ensures bluetoothOutbound.pushed == old(bluetoothOutbound.pushed) + (
        if payload.Ok? && bluetoothConnected && bluetoothTxAllowed then [PQ.Queued(payload.value, t)] else [])
      ensures r.Ok? <==> payload.Ok? && ((wifiActive && wifiOk) || old(RelayTakes(|data|)) || (bluetoothConnected && bluetoothTxAllowed))
      ensures r.Ok? ==> r.value == NONCE_SIZE + |data| + TAG_SIZE
    {
      if crypto == null {
        return Err, Err;
      }
      var sealedFrame := crypto.Encrypt(data);
      payload := sealedFrame;
      if sealedFrame.Err? {
        return Err, payload;
      }
      var sentAny := FanOut(sealedFrame.value, wifiOk, t, now);
      r := if sentAny then Ok(FrameLen(sealedFrame.value)) else Err;
    }

    /** The same frame to every plane that takes it. */
    method FanOut(frame: Frame, wifiOk: bool, t: int, now: int) returns (sentAny: bool)
      requires relayOutbound.Valid() && bluetoothOutbound.Valid() && relayOutbound != bluetoothOutbound
      requires frame.Frame? && frame.body.Sealed?
      modifies this`wifiAir, relayOutbound, bluetoothOutbound
      ensures relayOutbound.Valid() && bluetoothOutbound.Valid()
      ensures wifiAir == old(wifiAir) + (if wifiActive && wifiOk then [frame] else [])
      ensures relayOutbound.pushed == old(relayOutbound.pushed) + (
        if old(RelayTakes(|frame.body.plaintext|)) then [PQ.Queued(frame, t)] else [])
      ensures bluetoothOutbound.pushed == old(bluetoothOutbound.pushed) + (
        if bluetoothConnected && bluetoothTxAllowed then [PQ.Queued(frame, t)] else [])
      ensures sentAny == ((wifiActive && wifiOk) || old(RelayTakes(|frame.body.plaintext|)) || (bluetoothConnected && bluetoothTxAllowed))
    {
      sentAny := wifiActive && wifiOk;
      if sentAny {
        wifiAir := wifiAir + [frame];
      }
      var onRelay := OfferRelay(frame, t, now);
      var onBluetooth := OfferBluetooth(frame, t, now);
      sentAny := sentAny || onRelay || onBluetooth;
    }

    /** The relay is skipped while its queue is congested, and refuses frames too large for a packet. */
    method OfferRelay(frame: Frame, t: int, now: int) returns (taken: bool)
      requires relayOutbound.Valid() && frame.Frame? && frame.body.Sealed?
      modifies relayOutbound
      ensures relayOutbound.Valid()
      ensures taken == old(RelayTakes(|frame.body.plaintext|))
      ensures taken <==> relayConnected && relaySendAllowed && |old(relayOutbound.inner)| <= 24 && 12 + |frame.body.plaintext| + 16 <= 1400
      ensures relayOutbound.pushed == old(relayOutbound.pushed) + (if taken then [PQ.Queued(frame, t)] else [])
    {
      taken := false;
      if relayConnected && relaySendAllowed {
        var congested := |relayOutbound.inner| > MAX_OUTBOUND_QUEUE_SIZE * 3 / 4;
        if !congested && FrameLen(frame) <= MAX_PACKET_SIZE {
          relayOutbound.Push(frame, t, now);
          taken := true;
        }
      }
    }

    method OfferBluetooth(frame: Frame, t: int, now: int) returns (taken: bool)
      requires bluetoothOutbound.Valid()
      modifies bluetoothOutbound
      ensures bluetoothOutbound.Valid()
      ensures taken == (bluetoothConnected && bluetoothTxAllowed)
      ensures bluetoothOutbound.pushed == old(bluetoothOutbound.pushed) + (if taken then [PQ.Queued(frame, t)] else [])
    {
      taken := bluetoothConnected && bluetoothTxAllowed;
      if taken {
        bluetoothOutbound.Push(frame, t, now);
      }
    }

    ghost predicate RelayTakes(size: nat)
      reads this, relayOutbound
    {
      && relayConnected && relaySendAllowed
      && |relayOutbound.inner| <= MAX_OUTBOUND_QUEUE_SIZE * 3 / 4
      && NONCE_SIZE + size + TAG_SIZE <= MAX_PACKET_SIZE
    }
  }

  /* ---- End to end ---- */

  /** What one end sends the other end reads, plaintext and all, if it holds the key, live or staged, and has
      not seen the nonce; a frame only the staged key opens makes that key live. */
  lemma SentIsReceived(a: Manager, b: Manager, pt: Bytes)
    requires a.live.Some? && SealedBy(a, pt).1.Ok? && SealedBy(a, pt).1.value.Frame?
    requires var f := SealedBy(a, pt).1.value;
      || (Has(b.live, a.live.value.key) && f.nonce !in b.live.value.window)
      || (Has(b.staged, a.live.value.key) && f.nonce !in b.staged.value.window)
    ensures var f := SealedBy(a, pt).1.value;
      && Received(b, f).1 == Ok(pt) && Has(Received(b, f).0.live, a.live.value.key)
  {
  }

  /** What is read is what some key held here opens: nothing is read under a key that is not held, and a
      frame that is refused changes nothing. */
  lemma ReadIsGenuine(m: Manager, f: Frame)
    ensures var (m', r) := Received(m, f);
      && (r.Err? ==> m' == m)
      && (forall x :: r == Ok(x) ==>
            || (m.live.Some? && Open(m.live.value.key, f) == Some(x))
            || (m.staged.Some? && Open(m.staged.value.key, f) == Some(x)))
  {
  }

  /* ---- At most once ---- */

  datatype Op = Recv(frame: Frame) | Send(plaintext: Bytes) | Arm(session: Session) | Install(session: Session) | Discard

  function Apply(m: Manager, op: Op): Manager {
    match op
    case Recv(f) => Received(m, f).0
    case Send(pt) => SealedBy(m, pt).0
    case Arm(s) => m.(staged := Some(s))
    case Install(s) => Manager(Some(s), None)
    case Discard => m.(staged := None)
  }

  function Run(m: Manager, ops: seq<Op>): Manager {
    if ops == [] then m else Apply(Run(m, ops[..|ops| - 1]), ops[|ops| - 1])
  }

  /** How many frames under `key` a run accepts. */
  function AcceptedUnder(key: nat, m: Manager, ops: seq<Op>): nat {
    if ops == [] then 0
    else
      var init, op := ops[..|ops| - 1], ops[|ops| - 1];
      AcceptedUnder(key, m, init) +
      if Counts(key, Run(m, init), op) then 1 else 0
  }

  predicate InstallsOther(key: nat, op: Op) {
    op.Arm? || op.Install? ==> op.session.key != key && WellFormed(op.session)
  }

  /** No session with `key` is armed or installed during the run. */
  predicate NoInstall(key: nat, ops: seq<Op>) {
    forall i :: 0 <= i < |ops| ==> InstallsOther(key, ops[i])
  }

  predicate Has(k: Option<Session>, key: nat) {
    k.Some? && k.value.key == key
  }

  predicate Counts(key: nat, m: Manager, op: Op) {
    op.Recv? && Open(key, op.frame).Some? && Received(m, op.frame).1.Ok?
  }

  /** `nonce` is the accepted nonce with exactly `n` newer ones, if the window reaches that far back. */
  predicate InPlace(w: seq<Nonce>, nonce: Nonce, n: nat) {
    if n < REPLAY_WINDOW then n < |w| && w[|w| - 1 - n] == nonce else nonce !in w
  }

  /** The live session, if it holds `key`, has `nonce` in that place; the staged one does not hold `key`. */
  predicate Placed(m: Manager, key: nat, nonce: Nonce, n: nat) {
    !Has(m.staged, key) && (Has(m.live, key) ==> InPlace(m.live.value.window, nonce, n))
  }

  /** The operation accepts a frame with that key and nonce. */
  predicate Repeats(key: nat, nonce: Nonce, m: Manager, op: Op) {
    Counts(key, m, op) && op.frame.nonce == nonce
  }

  /** None of the first `i` operations does. */
  predicate NotAgain(key: nat, nonce: Nonce, m: Manager, ops: seq<Op>, i: nat)
    requires i <= |ops|
  {
    forall k :: 0 <= k < i ==> !Repeats(key, nonce, Run(m, ops[..k]), ops[k])
  }

  lemma SlideNear<T>(w: seq<T>, x: T, cap: nat, n: nat)
    requires n < |w| <= cap && n + 1 < cap
    ensures var w' := LastN(w + [x], cap); n + 1 < |w'| && w'[|w'| - 2 - n] == w[|w| - 1 - n]
  {
  }

  lemma SlideOut<T>(w: seq<T>, x: T)
    requires w != [] && NoDup(w) && x != w[0]
    ensures w[0] !in LastN(w + [x], |w|)
  {
    assert LastN(w + [x], |w|) == w[1..] + [x];
  }

  lemma SlideFar<T>(w: seq<T>, x: T, cap: nat, y: T)
    requires y !in w && x != y
    ensures y !in LastN(w + [x], cap)
  {
  }

  lemma SlideMoves(w: seq<Nonce>, x: Nonce, nonce: Nonce, n: nat)
    requires NoDup(w) && |w| <= REPLAY_WINDOW && x != nonce && InPlace(w, nonce, n)
    ensures InPlace(LastN(w + [x], REPLAY_WINDOW), nonce, n + 1)
  {
    if n + 1 < REPLAY_WINDOW {
      SlideNear(w, x, REPLAY_WINDOW, n);
    } else if n + 1 == REPLAY_WINDOW {
      SlideOut(w, x);
    } else {
      SlideFar(w, x, REPLAY_WINDOW, nonce);
    }
  }

  lemma WindowMoves(s: Session, f: Frame, nonce: Nonce, n: nat)
    requires WellFormed(s) && Accepts(s, f) && f.nonce != nonce && InPlace(s.window, nonce, n)
    ensures InPlace(Decrypted(s, f).0.window, nonce, n + 1)
  {
    SlideMoves(s.window, f.nonce, nonce, n);
  }

  lemma ReceivePlaces(m: Manager, f: Frame, key: nat, nonce: Nonce, n: nat)
    requires WellKept(m) && Placed(m, key, nonce, n) && !Repeats(key, nonce, m, Recv(f))
    ensures Placed(Received(m, f).0, key, nonce, if Counts(key, m, Recv(f)) then n + 1 else n)
  {
    if Takes(m.live, f) && m.live.value.key == key {
      WindowMoves(m.live.value, f, nonce, n);
    }
  }

  lemma ApplyPlaces(m: Manager, op: Op, key: nat, nonce: Nonce, n: nat)
    requires WellKept(m) && Placed(m, key, nonce, n) && InstallsOther(key, op) && !Repeats(key, nonce, m, op)
    ensures WellKept(Apply(m, op)) && Placed(Apply(m, op), key, nonce, if Counts(key, m, op) then n + 1 else n)
  {
    if op.Recv? {
      ReceivedKept(m, op.frame);
      ReceivePlaces(m, op.frame, key, nonce, n);
    }
  }

  lemma RunSnoc(key: nat, m: Manager, ops: seq<Op>, i: nat)
    requires i < |ops|
    ensures Run(m, ops[..i + 1]) == Apply(Run(m, ops[..i]), ops[i])
    ensures AcceptedUnder(key, m, ops[..i + 1]) ==
      AcceptedUnder(key, m, ops[..i]) + if Counts(key, Run(m, ops[..i]), ops[i]) then 1 else 0
  {
    assert ops[..i + 1][..i] == ops[..i];
  }

  lemma AcceptedGrows(key: nat, m: Manager, ops: seq<Op>, i: nat)
    requires i < |ops|
    ensures AcceptedUnder(key, m, ops[..i]) <= AcceptedUnder(key, m, ops[..i + 1])
  {
    RunSnoc(key, m, ops, i);
  }

  lemma StepPlaces(m: Manager, ops: seq<Op>, key: nat, nonce: Nonce, i: nat)
    requires i < |ops| && InstallsOther(key, ops[i]) && !Repeats(key, nonce, Run(m, ops[..i]), ops[i])
    requires WellKept(Run(m, ops[..i])) && Placed(Run(m, ops[..i]), key, nonce, AcceptedUnder(key, m, ops[..i]))
    ensures WellKept(Run(m, ops[..i + 1]))
    ensures Placed(Run(m, ops[..i + 1]), key, nonce, AcceptedUnder(key, m, ops[..i + 1]))
  {
    ApplyPlaces(Run(m, ops[..i]), ops[i], key, nonce, AcceptedUnder(key, m, ops[..i]));
    RunSnoc(key, m, ops, i);
  }

  /** After the first `i` operations the nonce is as far back as frames were accepted since. */
  lemma {:induction false} RunPlaces(m: Manager, ops: seq<Op>, key: nat, nonce: Nonce, i: nat)
    requires WellKept(m) && Placed(m, key, nonce, 0) && i <= |ops|
    requires NoInstall(key, ops) && NotAgain(key, nonce, m, ops, i)
    ensures WellKept(Run(m, ops[..i])) && Placed(Run(m, ops[..i]), key, nonce, AcceptedUnder(key, m, ops[..i]))
  {
    if i > 0 {
      RunPlaces(m, ops, key, nonce, i - 1);
      StepPlaces(m, ops, key, nonce, i - 1);
    }
  }

  lemma FirstPlace(m: Manager, f: Frame)
    requires WellKept(m) && Received(m, f).1.Ok?
    requires !(Has(m.live, f.body.key) && Has(m.staged, f.body.key))
    ensures Placed(Received(m, f).0, f.body.key, f.nonce, 0)
  {
    var w := Received(m, f).0.live.value.window;
    assert w[|w| - 1] == f.nonce;
  }

  lemma PlacedIsAccepted(m: Manager, f: Frame, n: nat)
    requires f.Frame? && f.body.Sealed? && Open(f.body.key, f).Some? && Placed(m, f.body.key, f.nonce, n)
    ensures Received(m, f).1.Ok? <==> Has(m.live, f.body.key) && n >= REPLAY_WINDOW
  {
  }

  /** Exactly when a copy is accepted a second time: after a frame is accepted, across any run that
      does not install its key again and in which no copy has got through yet, the next copy gets
      through if and only if the key is still in use and 8192 further frames under it were accepted. */
  lemma AcceptedAgainIff(m: Manager, f: Frame, ops: seq<Op>)
    requires WellKept(m) && Received(m, f).1.Ok?
    requires !(Has(m.live, f.body.key) && Has(m.staged, f.body.key))
    requires NoInstall(f.body.key, ops) && NotAgain(f.body.key, f.nonce, Received(m, f).0, ops, |ops|)
    ensures var m' := Received(m, f).0;
      Received(Run(m', ops), f).1.Ok? <==>
      Has(Run(m', ops).live, f.body.key) && AcceptedUnder(f.body.key, m', ops) >= 8192
  {
    ReceivedKept(m, f);
    FirstPlace(m, f);
    AgainFrom(Received(m, f).0, f, ops);
  }

  lemma AgainFrom(m: Manager, f: Frame, ops: seq<Op>)
    requires f.Frame? && f.body.Sealed? && Open(f.body.key, f).Some? && WellKept(m) && Placed(m, f.body.key, f.nonce, 0)
    requires NoInstall(f.body.key, ops) && NotAgain(f.body.key, f.nonce, m, ops, |ops|)
    ensures Received(Run(m, ops), f).1.Ok? <==>
      Has(Run(m, ops).live, f.body.key) && AcceptedUnder(f.body.key, m, ops) >= REPLAY_WINDOW
  {
    assert ops[..|ops|] == ops;
    RunPlaces(m, ops, f.body.key, f.nonce, |ops|);
    PlacedIsAccepted(Run(m, ops), f, AcceptedUnder(f.body.key, m, ops));
  }

  lemma PlacedDoesNotRepeat(m: Manager, op: Op, key: nat, nonce: Nonce, n: nat)
    requires Placed(m, key, nonce, n) && n < REPLAY_WINDOW
    ensures !Repeats(key, nonce, m, op)
  {
  }

  /** Within the window no copy gets through. */
  lemma {:induction false} WindowLetsNoneThrough(m: Manager, ops: seq<Op>, key: nat, nonce: Nonce, i: nat)
    requires WellKept(m) && Placed(m, key, nonce, 0) && i <= |ops|
    requires NoInstall(key, ops) && AcceptedUnder(key, m, ops[..i]) < REPLAY_WINDOW
    ensures NotAgain(key, nonce, m, ops, i)
  {
    if i > 0 {
      AcceptedGrows(key, m, ops, i - 1);
      WindowLetsNoneThrough(m, ops, key, nonce, i - 1);
      RunPlaces(m, ops, key, nonce, i - 1);
      PlacedDoesNotRepeat(Run(m, ops[..i - 1]), ops[i - 1], key, nonce, AcceptedUnder(key, m, ops[..i - 1]));
    }
  }

  /** A frame yields its plaintext at most once. After it is accepted, by the live or by the staged
      session, then across any run of received copies, other frames, sends, promotions, discards and
      installs of other keys, it is refused as long as fewer than 8192 further frames under its key
      have been accepted. */
  lemma AtMostOnce(m: Manager, f: Frame, ops: seq<Op>)
    requires WellKept(m) && Received(m, f).1.Ok?
    requires !(Has(m.live, f.body.key) && Has(m.staged, f.body.key))
    requires NoInstall(f.body.key, ops)
    requires AcceptedUnder(f.body.key, Received(m, f).0, ops) < 8192
    ensures Received(Run(Received(m, f).0, ops), f).1.Err?
  {
    ReceivedKept(m, f);
    FirstPlace(m, f);
    assert ops[..|ops|] == ops;
    WindowLetsNoneThrough(Received(m, f).0, ops, f.body.key, f.nonce, |ops|);
    AgainFrom(Received(m, f).0, f, ops);
  }

  /** Installing the key of a frame again forgets it: the copy is accepted if and only if the new
      session, which starts with an empty window, has not seen it. */
  lemma ReinstallForgets(m: Manager, f: Frame, s: Session)
    requires Open(s.key, f).Some?
    ensures Received(Apply(m, Install(s)), f).1.Ok? <==> f.nonce !in s.window
  {
  }

  /** Why the two keys must differ: a frame is accepted a second time right away if and only if the
      live and the staged session both accept it. */
  lemma SecondCopyAccepted(m: Manager, f: Frame)
    requires WellKept(m) && Received(m, f).1.Ok?
    ensures Received(Received(m, f).0, f).1.Ok? <==> Takes(m.live, f) && Takes(m.staged, f)
  {
    var m' := Received(m, f).0;
    var w := m'.live.value.window;
    assert w[|w| - 1] == f.nonce;
  }
}
