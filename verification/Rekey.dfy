/** The staged rekey: the hybrid handshake steps of android-native/src/jni_bridge.rs on top of the
    key staging of `TransportManager`, between two parties over a lossy network. */
module Rekey {
  import opened Common
  import opened Crypto
  import opened Transport

  /** One party: its transport keys and the handshake state of `JniAppState`. */
  datatype Party = Party(
    tm: Manager,
    secret: Option<nat>,             // pending_hybrid_initiator
    initSession: Option<Session>,    // pending_hybrid_initiator_session
    respSession: Option<Session>)    // pending_hybrid_responder

  /* ---- The handshake entry points ---- */

  function Began(p: Party, secret: nat): Party {
    p.(secret := Some(secret))
  }

  function Responded(p: Party, session: Session): Party {
    p.(respSession := Some(session))
  }

  /** `session` is what the key agreement yields, if anything. The secret is used up either way. */
  function Completed(p: Party, session: Option<Session>): Party {
    if p.secret.None? then p
    else p.(secret := None, initSession := if session.Some? then session else p.initSession)
  }

  /** `running`: there is a state machine, and with it a transport. Without one the session is used up
      all the same. */
  function Confirmed(p: Party, running: bool): Party {
    if p.respSession.None? then p
    else p.(respSession := None, tm := if running then p.tm.(staged := p.respSession) else p.tm)
  }

  function Acknowledged(p: Party, running: bool): Party {
    if p.initSession.None? then p
    else p.(initSession := None, tm := if running then Manager(p.initSession, None) else p.tm)
  }

  function Dropped(p: Party, running: bool): Party {
    Party(if running then p.tm.(staged := None) else p.tm, None, None, None)
  }

  /** Each entry point uses up what it works on: a second call does nothing, and only confirming,
      acknowledging and discarding touch the transport keys. */
  lemma StepsAreOneShot(p: Party, x: Option<Session>, y: Option<Session>, secret: nat, session: Session, running: bool)
    ensures Completed(Completed(p, x), y) == Completed(p, x)
    ensures Confirmed(Confirmed(p, running), running) == Confirmed(p, running)
    ensures Acknowledged(Acknowledged(p, running), running) == Acknowledged(p, running)
    ensures Began(p, secret).tm == p.tm && Responded(p, session).tm == p.tm && Completed(p, x).tm == p.tm
    ensures !running ==> Confirmed(p, running).tm == p.tm && Acknowledged(p, running).tm == p.tm
  {
  }

  /** A discard ends the attempt: the live key stays, no staged key is left to receive on, and no later
      message of the attempt changes the transport keys. */
  lemma DiscardEndsAttempt(p: Party, x: Option<Session>, running: bool)
    ensures var d := Dropped(p, running);
      && d.tm.live == p.tm.live && (running ==> d.tm.staged == None)
      && Completed(d, x) == d && Confirmed(d, running) == d && Acknowledged(d, running) == d
  {
  }

  class JniAppState {
    const tm: TransportManager
    var running: bool  // the state machine exists
    var pendingHybridInitiator: Option<nat>
    var pendingHybridInitiatorSession: CryptoSession?
    var pendingHybridResponder: CryptoSession?

    ghost function Sessions(): set<CryptoSession?>
      reads this, tm
    {
      {tm.crypto, tm.pendingRx, pendingHybridInitiatorSession, pendingHybridResponder}
    }

    ghost predicate Valid()
      reads this, tm, tm.relayOutbound, tm.bluetoothOutbound, Sessions()
    {
      && tm.Valid()
      && (pendingHybridInitiatorSession != null ==>
            && pendingHybridInitiatorSession.Valid()
            && pendingHybridInitiatorSession !in {tm.crypto, tm.pendingRx, pendingHybridResponder})
      && (pendingHybridResponder != null ==>
            && pendingHybridResponder.Valid()
            && pendingHybridResponder !in {tm.crypto, tm.pendingRx})
    }

    ghost function View(): Party
      reads this, tm, Sessions()
    {
      Party(tm.View(), pendingHybridInitiator,
            if pendingHybridInitiatorSession == null then None else Some(pendingHybridInitiatorSession.View()),
            if pendingHybridResponder == null then None else Some(pendingHybridResponder.View()))
    }

    constructor (tm: TransportManager)
      requires tm.Valid()
      ensures this.tm == tm && !running && Valid() && View() == Party(tm.View(), None, None, None)
    {
      this.tm, running := tm, false;
      pendingHybridInitiator, pendingHybridInitiatorSession, pendingHybridResponder := None, null, null;
    }

    /** `hasPsk` tells whether the channel has a pre-shared key. */
    method HandshakeInit(hasPsk: bool, secret: nat) returns (ok: bool)
      requires Valid()
      modifies this`pendingHybridInitiator
      ensures Valid() && ok == hasPsk
      ensures View() == if ok then Began(old(View()), secret) else old(View())
    {
      ok := hasPsk;
      if hasPsk {
        pendingHybridInitiator := Some(secret);
      }
    }

    /** `session` is null when the initiator's message is malformed or there is no key for it. */
    method HandshakeRespond(session: CryptoSession?) returns (ok: bool)
      requires Valid() && (session != null ==> session.Valid() && session !in Sessions())
      modifies this`pendingHybridResponder
      ensures Valid() && ok == (session != null)
      ensures View() == if ok then Responded(old(View()), session.View()) else old(View())
    {
      ok := session != null;
      if session != null {
        pendingHybridResponder := session;
      }
    }

    method HandshakeComplete(session: CryptoSession?) returns (ok: bool)
      requires Valid() && (session != null ==> session.Valid() && session !in Sessions())
      modifies this`pendingHybridInitiator, this`pendingHybridInitiatorSession
      ensures Valid() && ok == (old(pendingHybridInitiator).Some? && session != null)
      ensures View() == Completed(old(View()), if session == null then None else Some(session.View()))
    {
      if pendingHybridInitiator.None? {
        return false;
      }
      pendingHybridInitiator := None;
      ok := session != null;
      if session != null {
        pendingHybridInitiatorSession := session;
      }
    }

    method HandshakeConfirm() returns (ok: bool)
      requires Valid()
      modifies this`pendingHybridResponder, tm`pendingRx
      ensures Valid() && ok == (old(pendingHybridResponder) != null)
      ensures View() == Confirmed(old(View()), running)
    {
      var session := pendingHybridResponder;
      pendingHybridResponder := null;
      ok := session != null;
      if session != null && running {
        tm.ArmPendingRx(session);
      }
    }

    method HandshakeInstallAck() returns (ok: bool)
      requires Valid()
      modifies this`pendingHybridInitiatorSession, tm`crypto, tm`pendingRx
      ensures Valid() && ok == (old(pendingHybridInitiatorSession) != null)
      ensures View() == Acknowledged(old(View()), running)
    {
      var session := pendingHybridInitiatorSession;
      pendingHybridInitiatorSession := null;
      ok := session != null;
      if session != null && running {
        tm.SetCrypto(session);
      }
    }

    method HandshakeDiscard()
      requires Valid()
      modifies this`pendingHybridInitiator, this`pendingHybridInitiatorSession, this`pendingHybridResponder, tm`pendingRx
      ensures Valid() && View() == Dropped(old(View()), running)
    {
      pendingHybridResponder := null;
      pendingHybridInitiatorSession := null;
      pendingHybridInitiator := None;
      if running {
        tm.DiscardPendingRx();
      }
    }
  }

  /* ---- One attempt between two parties ---- */

  datatype Msg = Init | Resp | Confirm | Ack | Audio(frame: Frame)

  /** `answered`: the responder has handled the INIT and knows the token a CONFIRM must carry.
      `confirming`: it has sent an ACK and is about to arm the staged key, in that order. Messages
      stay in `net` until lost, so they may be delivered late, out of order or repeatedly. */
  datatype State = State(
    initiator: Party, responder: Party,
    began: bool, answered: bool, confirming: bool,
    net: set<Msg>)

  /** The keys of the attempt, and the sessions the key agreement yields at either end. */
  datatype Attempt = Attempt(oldKey: nat, newKey: nat, atInitiator: Session, atResponder: Session)

  predicate Fit(a: Attempt) {
    && a.oldKey != a.newKey
    && a.atInitiator.key == a.newKey && WellFormed(a.atInitiator) && a.atInitiator.window == []
    && a.atResponder.key == a.newKey && WellFormed(a.atResponder) && a.atResponder.window == []
  }

  predicate Start(a: Attempt, s: State) {
    && Has(s.initiator.tm.live, a.oldKey) && Has(s.responder.tm.live, a.oldKey)
    && WellKept(s.initiator.tm) && WellKept(s.responder.tm)
    && s.initiator == Party(s.initiator.tm, None, None, None) && s.initiator.tm.staged.None?
    && s.responder == Party(s.responder.tm, None, None, None) && s.responder.tm.staged.None?
    && !s.began && !s.answered && !s.confirming
    && (forall m :: m in s.net ==> m.Audio? && Open(a.newKey, m.frame).None?)
  }

  datatype Step =
    | Begin | Respond | Complete | RetryConfirm | SendAck | ArmStaged | InstallOnAck
    | InitiatorSpeaks(pt: Bytes) | ResponderSpeaks(pt: Bytes)
    | InitiatorHears(f: Frame) | ResponderHears(f: Frame)
    | Lose(m: Msg)

  predicate Enabled(s: State, step: Step) {
    match step
    case Begin => !s.began
    case Respond => Init in s.net && !s.answered
    case Complete => Resp in s.net
    case RetryConfirm => s.initiator.initSession.Some?
    case SendAck => Confirm in s.net && s.answered
    case ArmStaged => s.confirming
    case InstallOnAck => Ack in s.net
    case InitiatorSpeaks(pt) => SealedBy(s.initiator.tm, pt).1.Ok?
    case ResponderSpeaks(pt) => SealedBy(s.responder.tm, pt).1.Ok?
    case InitiatorHears(f) => Audio(f) in s.net
    case ResponderHears(f) => Audio(f) in s.net
    case Lose(m) => m in s.net
  }

  function Next(a: Attempt, s: State, step: Step): State
    requires Enabled(s, step)
  {
    match step
    case Begin => s.(began := true, initiator := Began(s.initiator, 0), net := s.net + {Init})
    case Respond => s.(answered := true, responder := Responded(s.responder, a.atResponder), net := s.net + {Resp})
    case Complete =>
      if s.initiator.secret.None? then s
      else s.(initiator := Completed(s.initiator, Some(a.atInitiator)), net := s.net + {Confirm})
    case RetryConfirm => s.(net := s.net + {Confirm})
    case SendAck => s.(confirming := true, net := s.net + {Ack})
    case ArmStaged => s.(confirming := false, responder := Confirmed(s.responder, true))
    case InstallOnAck => s.(initiator := Acknowledged(s.initiator, true))
    case InitiatorSpeaks(pt) =>
      var (tm, r) := SealedBy(s.initiator.tm, pt);
      s.(initiator := s.initiator.(tm := tm), net := s.net + {Audio(r.value)})
    case ResponderSpeaks(pt) =>
      var (tm, r) := SealedBy(s.responder.tm, pt);
      s.(responder := s.responder.(tm := tm), net := s.net + {Audio(r.value)})
    case InitiatorHears(f) => s.(initiator := s.initiator.(tm := Received(s.initiator.tm, f).0))
    case ResponderHears(f) => s.(responder := s.responder.(tm := Received(s.responder.tm, f).0))
    case Lose(m) => s.(net := s.net - {m})
  }

  /** The state after a schedule of steps, if every one of them can be taken. */
  function After(a: Attempt, s: State, steps: seq<Step>): Option<State>
    decreases |steps|
  {
    if steps == [] then Some(s)
    else if Enabled(s, steps[0]) then After(a, Next(a, s, steps[0]), steps[1..])
    else None
  }

  /* ---- What every reachable state keeps ---- */

  /** The responder holds the new key somewhere. */
  predicate HoldsNew(a: Attempt, p: Party) {
    Has(p.tm.live, a.newKey) || Has(p.tm.staged, a.newKey) || Has(p.respSession, a.newKey)
  }

  predicate Inv(a: Attempt, s: State) {
    var i, r := s.initiator, s.responder;
    && WellKept(i.tm) && WellKept(r.tm)
    && (Has(i.tm.live, a.oldKey) || Has(i.tm.live, a.newKey)) && i.tm.staged.None? && i.respSession.None?
    && (Has(r.tm.live, a.oldKey) || Has(r.tm.live, a.newKey)) && r.initSession.None? && r.secret.None?
    && (i.initSession.Some? ==> i.initSession == Some(a.atInitiator) && s.answered)
    && (r.respSession.Some? ==> r.respSession == Some(a.atResponder))
    && (r.tm.staged.Some? ==> r.tm.staged == Some(a.atResponder) && r.respSession.None?)
    && (Resp in s.net ==> s.answered)
    && (s.answered ==> HoldsNew(a, r))
    && (!s.answered ==> r.respSession.None? && r.tm.staged.None?)
    && (s.confirming ==> s.answered)
    && ((Ack in s.net || Has(i.tm.live, a.newKey)) ==>
          s.answered && (s.confirming || Has(r.tm.staged, a.newKey) || Has(r.tm.live, a.newKey)))
    && (Has(r.tm.live, a.newKey) ==> Has(i.tm.live, a.newKey) && r.respSession.None? && r.tm.staged.None?)
    && (!Has(i.tm.live, a.newKey) ==> forall m :: m in s.net && m.Audio? ==> Open(a.newKey, m.frame).None?)
  }

  lemma StartInv(a: Attempt, s: State)
    requires Fit(a) && Start(a, s)
    ensures Inv(a, s)
  {
  }

  predicate SameKeys(m: Manager, m': Manager) {
    && m'.staged == m.staged && m'.live.Some? == m.live.Some?
    && (m.live.Some? ==> m'.live.value.key == m.live.value.key)
  }

  predicate Promoted(m: Manager, m': Manager) {
    m.staged.Some? && m'.staged.None? && Has(m'.live, m.staged.value.key)
  }

  /** Receiving changes the keys a manager holds in one way only: a frame under the staged key
      makes that key live. */
  lemma ReceivedKeys(m: Manager, f: Frame)
    requires WellKept(m)
    ensures var m' := Received(m, f).0;
      WellKept(m') && (SameKeys(m, m') || (Promoted(m, m') && Open(m.staged.value.key, f).Some?))
  {
    ReceivedKept(m, f);
  }

  lemma TmKeepsInv(a: Attempt, s: State, i: Manager, r: Manager)
    requires Fit(a) && Inv(a, s) && WellKept(i) && WellKept(r) && SameKeys(s.initiator.tm, i)
    requires SameKeys(s.responder.tm, r) || (Promoted(s.responder.tm, r) && Has(s.initiator.tm.live, a.newKey))
    ensures Inv(a, s.(initiator := s.initiator.(tm := i), responder := s.responder.(tm := r)))
  {
  }

  lemma HearKeepsInv(a: Attempt, s: State, step: Step)
    requires Fit(a) && Inv(a, s) && Enabled(s, step) && (step.InitiatorHears? || step.ResponderHears?)
    ensures Inv(a, Next(a, s, step))
  {
    var i, r := s.initiator.tm, s.responder.tm;
    if step.InitiatorHears? {
      ReceivedKeys(i, step.f);
      TmKeepsInv(a, s, Received(i, step.f).0, r);
    } else {
      ReceivedKeys(r, step.f);
      assert Audio(step.f) in s.net;
      TmKeepsInv(a, s, i, Received(r, step.f).0);
    }
  }

  lemma SpeakKeepsInv(a: Attempt, s: State, step: Step)
    requires Fit(a) && Inv(a, s) && Enabled(s, step) && (step.InitiatorSpeaks? || step.ResponderSpeaks?)
    ensures Inv(a, Next(a, s, step))
  {
  }

  lemma StepKeepsInv(a: Attempt, s: State, step: Step)
    requires Fit(a) && Inv(a, s) && Enabled(s, step)
    ensures Inv(a, Next(a, s, step))
  {
    if step.InitiatorHears? || step.ResponderHears? {
      HearKeepsInv(a, s, step);
    } else if step.InitiatorSpeaks? || step.ResponderSpeaks? {
      SpeakKeepsInv(a, s, step);
    }
  }

  lemma {:induction false} RunKeepsInv(a: Attempt, s: State, steps: seq<Step>)
    requires Fit(a) && Inv(a, s) && After(a, s, steps).Some?
    ensures Inv(a, After(a, s, steps).value)
    decreases |steps|
  {
    if steps != [] {
      StepKeepsInv(a, s, steps[0]);
      RunKeepsInv(a, Next(a, s, steps[0]), steps[1..]);
    }
  }

  lemma ReachableInv(a: Attempt, s: State, steps: seq<Step>)
    requires Fit(a) && Start(a, s) && After(a, s, steps).Some?
    ensures Inv(a, After(a, s, steps).value)
  {
    StartInv(a, s);
    RunKeepsInv(a, s, steps);
  }

  /** Whatever is lost, delayed, reordered or duplicated: the key the initiator transmits on is one
      the responder holds, live, armed or staged; outside the moment between sending an ACK and
      arming, it is one the responder already receives on; and the responder never transmits on
      the new key before the initiator does. */
  lemma RekeyNeverLosesInitiator(a: Attempt, s: State, steps: seq<Step>)
    requires Fit(a) && Start(a, s) && After(a, s, steps).Some?
    ensures var t := After(a, s, steps).value;
      && t.initiator.tm.live.Some? && t.responder.tm.live.Some?
      && var key := t.initiator.tm.live.value.key;
      && (Has(t.responder.tm.live, key) || Has(t.responder.tm.staged, key) || Has(t.responder.respSession, key))
      && (!t.confirming ==> Has(t.responder.tm.live, key) || Has(t.responder.tm.staged, key))
      && (Has(t.responder.tm.live, a.newKey) ==> key == a.newKey)
  {
    ReachableInv(a, s, steps);
  }

  /** The responder can open what the initiator transmits. */
  predicate Receivable(s: State) {
    s.initiator.tm.live.Some? &&
    var key := s.initiator.tm.live.value.key;
    Has(s.responder.tm.live, key) || Has(s.responder.tm.staged, key)
  }

  /** When exactly that is so: in every reachable state but those in which the initiator has installed
      the new key on an ACK while the responder, which sent it, has yet to arm the session it holds. */
  lemma ReceivableIff(a: Attempt, s: State, steps: seq<Step>)
    requires Fit(a) && Start(a, s) && After(a, s, steps).Some?
    ensures var t := After(a, s, steps).value;
      Receivable(t) <==> !(Has(t.initiator.tm.live, a.newKey) && t.responder.respSession.Some?)
  {
    ReachableInv(a, s, steps);
  }

  /** Such a state is reachable from every start, because the ACK leaves before the key is armed. */
  lemma AckBeforeArm(a: Attempt, s: State)
    requires Fit(a) && Start(a, s)
    ensures var steps := [Begin, Respond] + ([Complete, SendAck] + [InstallOnAck]);
      && After(a, s, steps).Some?
      && var v := After(a, s, steps).value;
      !Receivable(v) && Enabled(v, ArmStaged) && Receivable(Next(a, v, ArmStaged))
  {
    var t := Next(a, Next(a, s, Begin), Respond);
    var u := Next(a, Next(a, t, Complete), SendAck);
    TwoSteps(a, s, Begin, Respond, [Complete, SendAck] + [InstallOnAck]);
    TwoSteps(a, t, Complete, SendAck, [InstallOnAck]);
    var v := Next(a, u, InstallOnAck);
    assert After(a, u, [InstallOnAck]) == Some(v);
    assert v.initiator.tm == Manager(Some(a.atInitiator), None) && v.responder.respSession == Some(a.atResponder);
  }

  /** One new-key frame accepted by the responder puts both parties on the new key. */
  lemma AcceptedFrameAgrees(a: Attempt, s: State, steps: seq<Step>, f: Frame)
    requires Fit(a) && Start(a, s) && After(a, s, steps).Some?
    requires var t := After(a, s, steps).value;
      Audio(f) in t.net && Open(a.newKey, f).Some? && Received(t.responder.tm, f).1.Ok?
    ensures var u := Next(a, After(a, s, steps).value, ResponderHears(f));
      Has(u.initiator.tm.live, a.newKey) && Has(u.responder.tm.live, a.newKey)
  {
    ReachableInv(a, s, steps);
  }

  /** Once the initiator is on the new key and the responder has armed it, the very next frame the
      initiator speaks is accepted, so it brings agreement: no further handshake message is needed. */
  lemma NextFrameAgrees(a: Attempt, s: State, steps: seq<Step>, pt: Bytes)
    requires Fit(a) && Start(a, s) && After(a, s, steps).Some?
    requires var t := After(a, s, steps).value;
      Has(t.initiator.tm.live, a.newKey) && Has(t.responder.tm.staged, a.newKey) && Enabled(t, InitiatorSpeaks(pt))
    ensures var t := After(a, s, steps).value;
      var u := Next(a, t, InitiatorSpeaks(pt));
      var f := SealedBy(t.initiator.tm, pt).1.value;
      && Received(u.responder.tm, f).1 == Ok(pt)
      && Has(u.initiator.tm.live, a.newKey) && Has(Received(u.responder.tm, f).0.live, a.newKey)
  {
    ReachableInv(a, s, steps);
  }

  /** What the staging does not give: between the initiator's install and the responder's promotion
      the initiator cannot read the responder. It can, for a frame it has not seen, if and only if
      both transmit on the same key. */
  lemma InitiatorHearsOnlySameKey(a: Attempt, s: State, steps: seq<Step>, pt: Bytes)
    requires Fit(a) && Start(a, s) && After(a, s, steps).Some?
    requires Enabled(After(a, s, steps).value, ResponderSpeaks(pt))
    requires var t := After(a, s, steps).value;
      t.initiator.tm.live.Some? ==> SealedBy(t.responder.tm, pt).1.value.nonce !in t.initiator.tm.live.value.window
    ensures var t := After(a, s, steps).value;
      Received(t.initiator.tm, SealedBy(t.responder.tm, pt).1.value).1.Ok? <==>
      Has(t.initiator.tm.live, t.responder.tm.live.value.key)
  {
    ReachableInv(a, s, steps);
  }

  /** A retry always completes: from every reachable state in which the initiator has staged the new
      session, whatever was lost before, one CONFIRM retry that gets through, its ACK and one spoken
      frame put both parties on the new key. */
  lemma RetryCompletes(a: Attempt, s: State, steps: seq<Step>, pt: Bytes)
    requires Fit(a) && Start(a, s) && After(a, s, steps).Some?
    requires After(a, s, steps).value.initiator.initSession.Some? && a.atInitiator.counter < U32_MAX && |pt| <= MAX_PLAINTEXT
    ensures var f := Encrypted(a.atInitiator, pt).1.value;
      var more := [RetryConfirm, SendAck, ArmStaged, InstallOnAck, InitiatorSpeaks(pt), ResponderHears(f)];
      && After(a, After(a, s, steps).value, more).Some?
      && var u := After(a, After(a, s, steps).value, more).value;
      Has(u.initiator.tm.live, a.newKey) && Has(u.responder.tm.live, a.newKey)
  {
    ReachableInv(a, s, steps);
    var t := After(a, s, steps).value;
    var f := Encrypted(a.atInitiator, pt).1.value;
    var last2 := [InitiatorSpeaks(pt), ResponderHears(f)];
    var u := Next(a, Next(a, Next(a, Next(a, t, RetryConfirm), SendAck), ArmStaged), InstallOnAck);
    assert u.initiator.tm == Manager(Some(a.atInitiator), None);
    assert Has(u.responder.tm.live, a.newKey) || u.responder.tm.staged == Some(a.atResponder);
    SpokenFrameAgrees(a, u, pt);
    TwoSteps(a, Next(a, Next(a, t, RetryConfirm), SendAck), ArmStaged, InstallOnAck, last2);
    TwoSteps(a, t, RetryConfirm, SendAck, [ArmStaged, InstallOnAck] + last2);
    assert [RetryConfirm, SendAck] + ([ArmStaged, InstallOnAck] + last2)
        == [RetryConfirm, SendAck, ArmStaged, InstallOnAck, InitiatorSpeaks(pt), ResponderHears(f)];
  }

  lemma TwoSteps(a: Attempt, s: State, x: Step, y: Step, rest: seq<Step>)
    requires Enabled(s, x) && Enabled(Next(a, s, x), y)
    ensures After(a, s, [x, y] + rest) == After(a, Next(a, Next(a, s, x), y), rest)
  {
    assert ([x, y] + rest)[1..] == [y] + rest && ([y] + rest)[1..] == rest;
  }

  lemma SpokenFrameAgrees(a: Attempt, s: State, pt: Bytes)
    requires Fit(a) && s.initiator.tm == Manager(Some(a.atInitiator), None) && a.atInitiator.counter < U32_MAX && |pt| <= MAX_PLAINTEXT
    requires WellKept(s.responder.tm)
    requires || (Has(s.responder.tm.live, a.newKey) && s.responder.tm.staged.None?)
             || (Has(s.responder.tm.live, a.oldKey) && s.responder.tm.staged == Some(a.atResponder))
    ensures var f := Encrypted(a.atInitiator, pt).1.value;
      && After(a, s, [InitiatorSpeaks(pt), ResponderHears(f)]).Some?
      && var u := After(a, s, [InitiatorSpeaks(pt), ResponderHears(f)]).value;
      Has(u.initiator.tm.live, a.newKey) && Has(u.responder.tm.live, a.newKey)
  {
    var f := Encrypted(a.atInitiator, pt).1.value;
    TwoSteps(a, s, InitiatorSpeaks(pt), ResponderHears(f), []);
    assert [InitiatorSpeaks(pt), ResponderHears(f)] + [] == [InitiatorSpeaks(pt), ResponderHears(f)];
    NewFrameSettles(a, s.responder.tm, f);
  }

  /** A frame under the new key leaves a responder that holds that key live or staged on it. */
  lemma NewFrameSettles(a: Attempt, m: Manager, f: Frame)
    requires Fit(a) && Open(a.newKey, f).Some?
    requires || (Has(m.live, a.newKey) && m.staged.None?)
             || (Has(m.live, a.oldKey) && m.staged == Some(a.atResponder))
    ensures Has(Received(m, f).0.live, a.newKey)
  {
  }
}
