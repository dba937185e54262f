/** The per-sender reorder buffer of the receive path: `SenderDecodeState` in
    android-native/src/audio_pipeline.rs.

    Packets arrive out of order, late, duplicated or not at all. The buffer hands the stateful
    Opus decoder one stream without gaps: packets in sequence, a lost packet rebuilt from the
    forward error correction of its successor, two to `maxPlc` lost packets concealed, and a
    decoder reset when the gap is larger. The decoder is modelled by the log of what it was
    asked to do. Time is an integer number of milliseconds; what the clock shows in each turn of the
    drain loop is passed in. */
module Reorder {
  import opened Common

  const MAX_PENDING: nat := 32
  const FRAME_PERIOD_MS: nat := 20

  datatype Packet = Packet(ts: nat, data: seq<bv8>)

  /** Where the samples of one emitted frame come from. */
  datatype Source = Real(data: seq<bv8>) | Fec(data: seq<bv8>) | Plc

  /** One request to the decoder. `Emit` also is the frame handed on to playout. */
  datatype Event = Emit(epoch: nat, num: nat, ts: nat, src: Source) | Reset

  datatype Buffer = Buffer(
    epoch: Option<nat>,
    last: Option<nat>,
    pending: map<nat, Packet>,
    waitSince: Option<int>,
    log: seq<Event>)

  const Empty: Buffer := Buffer(None, None, map[], None, [])

  /** The limits a caller passes: 5 frames and 60 ms in the source. */
  datatype Limits = Limits(maxPlc: nat, waitMs: nat)

  /** A turn that meets a hole reads the clock twice: to start a timer, and to see how long it runs. */
  datatype Reading = Reading(started: int, checked: int)

  /** The readings of one drain, by the number of packets held when the hole is met: no two holes of
      one drain are met with the same number held. */
  type Clock = nat -> Reading

  /** Every held packet is still ahead of the stream. */
  predicate Ahead(s: Buffer) {
    s.last.Some? ==> forall k :: k in s.pending ==> s.last.value < k
  }

  /** What holds between two calls: a bounded buffer, held packets ahead of the stream, and
      either nothing held or a timer running on a real hole. */
  predicate Rested(s: Buffer) {
    && Ahead(s)
    && |s.pending| <= MAX_PENDING
    && (s.pending == map[] <==> s.waitSince.None?)
    && (s.pending != map[] ==> s.last.Some? && s.last.value + 1 !in s.pending)
    && (s.epoch.None? ==> s.last.None?)
  }

  /* ---- What one delivered packet means for the decoder ---- */

  /** How the packets missing just before a delivered one are made good. */
  datatype Repair = Intact | FromSuccessor | Concealed(lost: nat) | Resynced

  datatype Block = Restart(newEpoch: nat) | Deliver(epoch: nat, repair: Repair, num: nat, pkt: Packet)

  function PlcRun(epoch: nat, first: nat, k: nat, ts: nat): (r: seq<Event>)
    ensures |r| == k
    ensures forall i :: 0 <= i < k ==> r[i] == Emit(epoch, first + i, SatSub(ts, (k - i) * FRAME_PERIOD_MS), Plc)
  {
    seq(k, i requires 0 <= i < k => Emit(epoch, first + i, SatSub(ts, (k - i) * FRAME_PERIOD_MS), Plc))
  }

  function RealFrame(epoch: nat, num: nat, pkt: Packet): Event {
    Emit(epoch, num, pkt.ts, Real(pkt.data))
  }

  function Render(b: Block): seq<Event> {
    match b
    case Restart(_) => [Reset]
    case Deliver(e, Intact, n, p) => [RealFrame(e, n, p)]
    case Deliver(e, FromSuccessor, n, p) =>
      [Emit(e, SatSub(n, 1), SatSub(p.ts, FRAME_PERIOD_MS), Fec(p.data)), RealFrame(e, n, p)]
    case Deliver(e, Concealed(k), n, p) => PlcRun(e, SatSub(n, k), k, p.ts) + [RealFrame(e, n, p)]
    case Deliver(e, Resynced, n, p) => [Reset, RealFrame(e, n, p)]
  }

  function RenderAll(bs: seq<Block>): seq<Event> {
    if bs == [] then [] else Render(bs[0]) + RenderAll(bs[1..])
  }

  function RepairFor(last: Option<nat>, m: nat, maxPlc: nat): Repair
    requires last.Some? ==> last.value < m
  {
    if last.None? || m == last.value + 1 then Intact
    else if m == last.value + 2 then FromSuccessor
    else if m - last.value - 1 <= maxPlc then Concealed(m - last.value - 1)
    else Resynced
  }

  /* ---- The specification of a drain: deliver the earliest packet while that is allowed ---- */

  predicate Due(s: Buffer, m: nat, clock: Clock, waitMs: nat) {
    || s.last.None?
    || m == s.last.value + 1
    || SatSub(clock(|s.pending|).checked, WaitStart(s, clock)) >= waitMs
  }

  function WaitStart(s: Buffer, clock: Clock): int {
    if s.waitSince.Some? then s.waitSince.value else clock(|s.pending|).started
  }

  function BlockFor(s: Buffer, m: nat, maxPlc: nat): Block
    requires Ahead(s) && m in s.pending
  {
    Deliver(if s.epoch.Some? then s.epoch.value else 0, RepairFor(s.last, m, maxPlc), m, s.pending[m])
  }

  function Advance(s: Buffer, m: nat, maxPlc: nat): Buffer
    requires Ahead(s) && m in s.pending
  {
    s.(last := Some(m), pending := s.pending - {m}, waitSince := None, log := s.log + Render(BlockFor(s, m, maxPlc)))
  }

  function Drain(s: Buffer, clock: Clock, lim: Limits): Buffer
    requires Ahead(s)
    decreases |s.pending|
  {
    if s.pending == map[] then s
    else
      var m := Min(s.pending.Keys);
      if Due(s, m, clock, lim.waitMs) then Drain(Advance(s, m, lim.maxPlc), clock, lim)
      else s.(waitSince := Some(WaitStart(s, clock)))
  }

  /** One drain leaves a rested buffer, touches nothing but what it delivers, and stops only
      while the timer of the hole it waits for has not run out. */
  lemma {:induction false} DrainRests(s: Buffer, clock: Clock, lim: Limits)
    requires Ahead(s) && |s.pending| <= MAX_PENDING
    requires s.pending == map[] ==> s.waitSince.None?
    requires s.epoch.None? ==> s.last.None? && s.pending == map[]
    ensures var r := Drain(s, clock, lim);
      && Rested(r) && r.epoch == s.epoch && r.pending.Keys <= s.pending.Keys
      && (r.waitSince.Some? ==> SatSub(clock(|r.pending|).checked, r.waitSince.value) < lim.waitMs)
    decreases |s.pending|
  {
    if s.pending != map[] {
      var m := Min(s.pending.Keys);
      if Due(s, m, clock, lim.waitMs) {
        DrainRests(Advance(s, m, lim.maxPlc), clock, lim);
      }
    }
  }

  /** `ingest`: a new epoch or a rollback of more than 32 restarts the stream. */
  predicate Restarts(s: Buffer, epoch: nat, num: nat) {
    s.epoch != Some(epoch) || (s.last.Some? && num <= s.last.value && s.last.value - num > 32)
  }

  predicate Stale(s: Buffer, epoch: nat, num: nat) {
    s.epoch == Some(epoch) && s.last.Some? && num <= s.last.value && s.last.value - num <= 32
  }

  function Restarted(s: Buffer, epoch: nat): Buffer {
    Buffer(Some(epoch), None, map[], None, s.log + [Reset])
  }

  function Hold(s: Buffer, num: nat, pkt: Packet): Buffer {
    s.(pending := (if |s.pending| >= MAX_PENDING then s.pending - {Min(s.pending.Keys)} else s.pending)[num := pkt])
  }

  /** The buffer just before the drain of one `ingest` that is not dropped as stale. */
  function Admit(s: Buffer, epoch: nat, num: nat, pkt: Packet): Buffer {
    Hold(if Restarts(s, epoch, num) then Restarted(s, epoch) else s, num, pkt)
  }

  function Ingested(s: Buffer, epoch: nat, num: nat, pkt: Packet, clock: Clock, lim: Limits): (r: Buffer)
    requires Rested(s)
    ensures Rested(r)
  {
    if Stale(s, epoch, num) then s
    else
      AdmitReady(s, epoch, num, pkt);
      DrainRests(Admit(s, epoch, num, pkt), clock, lim);
      Drain(Admit(s, epoch, num, pkt), clock, lim)
  }

  lemma AdmitReady(s: Buffer, epoch: nat, num: nat, pkt: Packet)
    requires Rested(s) && !Stale(s, epoch, num)
    ensures var a := Admit(s, epoch, num, pkt);
      && Ahead(a) && |a.pending| <= MAX_PENDING && num in a.pending && a.epoch == Some(epoch)
  {
    var b := if Restarts(s, epoch, num) then Restarted(s, epoch) else s;
    var kept := if |b.pending| >= MAX_PENDING then b.pending - {Min(b.pending.Keys)} else b.pending;
    assert kept.Keys == if |b.pending| >= MAX_PENDING then b.pending.Keys - {Min(b.pending.Keys)} else b.pending.Keys;
    assert kept[num := pkt].Keys == kept.Keys + {num};
  }

  /* ---- Runs ---- */

  datatype Op = Arrive(epoch: nat, num: nat, pkt: Packet, clock: Clock) | Tick(clock: Clock)

  function Apply(s: Buffer, op: Op, lim: Limits): (r: Buffer)
    requires Rested(s)
    ensures Rested(r)
  {
    match op
    case Arrive(e, n, p, t) => Ingested(s, e, n, p, t, lim)
    case Tick(t) => DrainRests(s, t, lim); Drain(s, t, lim)
  }

  function Run(s: Buffer, ops: seq<Op>, lim: Limits): (r: Buffer)
    requires Rested(s)
    ensures Rested(r)
  {
    if ops == [] then s else Apply(Run(s, ops[..|ops| - 1], lim), ops[|ops| - 1], lim)
  }

  /* ---- The class: fields and loops as in the source ---- */

  predicate IsFrame(e: Event) {
    e.Emit?
  }

  /** The frames handed on to playout. */
  function Emits(log: seq<Event>): seq<Event> {
    Filter(IsFrame, log)
  }

  lemma EmitsAppend(log: seq<Event>, frames: seq<Event>)
    requires forall i :: 0 <= i < |frames| ==> frames[i].Emit?
    ensures Emits(log + frames) == Emits(log) + frames
  {
    FilterAppend(IsFrame, log, frames);
    FilterAll(IsFrame, frames);
  }

  lemma EmitsReset(log: seq<Event>)
    ensures Emits(log + [Reset]) == Emits(log)
  {
    FilterAppend(IsFrame, log, [Reset]);
    FilterNone(IsFrame, [Reset]);
  }

  /** What the decoder is asked to do about the hole before the earliest packet `m`. */
  ghost function RepairEvents(s: Buffer, m: nat, maxPlc: nat): seq<Event>
    requires m in s.pending && s.last.Some? && s.last.value + 1 < m
  {
    var e := if s.epoch.Some? then s.epoch.value else 0;
    var gap := m - s.last.value - 1;
    if gap == 1 then [Emit(e, m - 1, SatSub(s.pending[m].ts, FRAME_PERIOD_MS), Fec(s.pending[m].data))]
    else if gap <= maxPlc then PlcRun(e, m - gap, gap, s.pending[m].ts)
    else [Reset]
  }

  /** The buffer after the turn that fills or skips that hole. */
  ghost function Repaired(s: Buffer, m: nat, maxPlc: nat): Buffer
    requires m in s.pending && s.last.Some? && s.last.value + 1 < m
  {
    var gap := m - s.last.value - 1;
    s.(last := if gap == 1 || gap <= maxPlc then Some(m - 1) else None, waitSince := None,
       log := s.log + RepairEvents(s, m, maxPlc))
  }

  lemma RepairRenders(s: Buffer, m: nat, maxPlc: nat)
    requires Ahead(s) && s.pending != map[] && m == Min(s.pending.Keys) && s.last.Some? && m > s.last.value + 1
    ensures var t := Repaired(s, m, maxPlc);
      && Ahead(t) && Hole(t) < Hole(s)
      && RepairEvents(s, m, maxPlc) + Render(BlockFor(t, m, maxPlc)) == Render(BlockFor(s, m, maxPlc))
  {
  }

  /** That turn and the next one, which delivers `m`, together are one `Advance`. */
  lemma RepairRefines(s: Buffer, m: nat, clock: Clock, lim: Limits)
    requires Ahead(s) && s.pending != map[] && m == Min(s.pending.Keys) && s.last.Some? && m > s.last.value + 1
    requires Due(s, m, clock, lim.waitMs)
    ensures var t := Repaired(s, m, lim.maxPlc);
      && Ahead(t) && Hole(t) < Hole(s)
      && Drain(t, clock, lim) == Drain(s, clock, lim)
  {
    var t := Repaired(s, m, lim.maxPlc);
    RepairRenders(s, m, lim.maxPlc);
    assert Advance(t, m, lim.maxPlc) == Advance(s, m, lim.maxPlc) by {
      assert t.log + Render(BlockFor(t, m, lim.maxPlc)) == s.log + (RepairEvents(s, m, lim.maxPlc) + Render(BlockFor(t, m, lim.maxPlc)));
    }
    DrainDue(s, m, clock, lim);
    DrainDue(t, m, clock, lim);
  }

  /** One step of a drain. */
  lemma DrainDue(s: Buffer, m: nat, clock: Clock, lim: Limits)
    requires Ahead(s) && s.pending != map[] && m == Min(s.pending.Keys) && Due(s, m, clock, lim.waitMs)
    ensures Ahead(Advance(s, m, lim.maxPlc)) && Drain(s, clock, lim) == Drain(Advance(s, m, lim.maxPlc), clock, lim)
  {
  }

  /** A packet that is next in sequence is the earliest one held, and delivering it is `Advance`. */
  lemma DeliverRefines(s: Buffer, m: nat, clock: Clock, lim: Limits)
    requires Ahead(s) && m in s.pending && m == if s.last.Some? then s.last.value + 1 else Min(s.pending.Keys)
    ensures var e := if s.epoch.Some? then s.epoch.value else 0;
      var t := s.(last := Some(m), pending := s.pending - {m}, waitSince := None,
                  log := s.log + [RealFrame(e, m, s.pending[m])]);
      && Ahead(t) && |t.pending| < |s.pending|
      && Drain(t, clock, lim) == Drain(s, clock, lim)
  {
    assert m == Min(s.pending.Keys);
    assert Advance(s, m, lim.maxPlc).pending.Keys == s.pending.Keys - {m};
  }

  /** A turn that only starts, or keeps, the timer is the end of the drain. */
  lemma WaitRefines(s: Buffer, clock: Clock, lim: Limits)
    requires Ahead(s) && s.pending != map[] && !Due(s, Min(s.pending.Keys), clock, lim.waitMs)
    ensures var t := s.(waitSince := Some(WaitStart(s, clock)));
      Ahead(t) && Drain(s, clock, lim) == t && Drain(t, clock, lim) == t
  {
  }

  ghost function Hole(s: Buffer): nat
    requires Ahead(s)
  {
    if s.last.None? || s.pending == map[] then 0 else Min(s.pending.Keys) - s.last.value - 1
  }

  /** Fewer packets held, or as many and a smaller hole. */
  ghost predicate Progress(s: Buffer, t: Buffer) {
    Ahead(s) && Ahead(t) && (|t.pending| < |s.pending| || (|t.pending| == |s.pending| && Hole(t) < Hole(s)))
  }

  class SenderDecodeState {
    var streamEpoch: Option<nat>
    var lastDecodedSeq: Option<nat>
    var pending: map<nat, Packet>
    var reorderWaitSince: Option<int>
    ghost var log: seq<Event>
    ghost var emitted: seq<Event>

    ghost function View(): Buffer
      reads this
    {
      Buffer(streamEpoch, lastDecodedSeq, pending, reorderWaitSince, log)
    }

    /** Sequence numbers are `u32`, and what was handed on are the frames in the log. */
    ghost predicate Sound()
      reads this
    {
      (forall k :: k in pending ==> k <= U32_MAX) && emitted == Emits(log)
    }

    constructor ()
      ensures View() == Empty && Rested(View()) && Sound()
    {
      streamEpoch, lastDecodedSeq, pending, reorderWaitSince, log, emitted := None, None, map[], None, [], [];
    }

    method ResetForEpoch(epoch: nat)
      requires Sound()
      modifies this
      ensures Sound() && View() == Restarted(old(View()), epoch)
      ensures emitted == old(emitted)
    {
      EmitsReset(log);
      log := log + [Reset];
      streamEpoch := Some(epoch);
      lastDecodedSeq := None;
      pending := map[];
      reorderWaitSince := None;
    }

    method Ingest(epoch: nat, sequence: nat, packet: Packet, clock: Clock, lim: Limits) returns (out: seq<Event>)
      requires Rested(View()) && Sound() && sequence <= U32_MAX
      modifies this
      ensures View() == Ingested(old(View()), epoch, sequence, packet, clock, lim)
      ensures Sound()
      ensures emitted == old(emitted) + out
    {
      ghost var s0 := View();
      if streamEpoch != Some(epoch) {
        ResetForEpoch(epoch);
      } else if lastDecodedSeq.Some? && sequence <= lastDecodedSeq.value {
        if lastDecodedSeq.value - sequence > 32 {
          ResetForEpoch(epoch);
        } else {
          out := [];
          return;
        }
      }
      if |pending| >= MAX_PENDING {
        pending := pending - {Min(pending.Keys)};
      }
      pending := pending[sequence := packet];
      assert View() == Admit(s0, epoch, sequence, packet);
      AdmitReady(s0, epoch, sequence, packet);
      out := DrainDecodable(clock, lim);
    }

    /** The loop of the source. It may take two turns per delivered packet, one for the repair
        and one for the packet itself; together they do what `Drain` says. */
    method DrainDecodable(clock: Clock, lim: Limits) returns (out: seq<Event>)
      requires Ahead(View()) && Sound()
      modifies this
      ensures View() == Drain(old(View()), clock, lim)
      ensures Sound()
      ensures emitted == old(emitted) + out
    {
      out := [];
      var more := true;
      while more
        invariant Ahead(View()) && Sound()
        invariant Drain(View(), clock, lim) == Drain(old(View()), clock, lim)
        invariant !more ==> View() == Drain(View(), clock, lim)
        invariant emitted == old(emitted) + out
        decreases |pending|, Hole(View()), more
      {
        var frames;
        more, frames := Turn(clock, lim);
        AppendAssoc(old(emitted), out, frames);
        out := out + frames;
      }
    }

    /** One turn of that loop; `more` is false where the source breaks out of it. */
    method Turn(clock: Clock, lim: Limits) returns (more: bool, out: seq<Event>)
      requires Ahead(View()) && Sound()
      modifies this
      ensures Ahead(View()) && Sound()
      ensures Drain(View(), clock, lim) == Drain(old(View()), clock, lim)
      ensures !more ==> View() == Drain(View(), clock, lim)
      ensures if more then Progress(old(View()), View()) else |pending| == |old(pending)| && Hole(View()) == Hole(old(View()))
      ensures emitted == old(emitted) + out
    {
      ghost var s := View();
      more, out := false, [];
      if lastDecodedSeq.None? && pending == map[] {
        return;
      }
      var expected := if lastDecodedSeq.None? then Min(pending.Keys)
                      else if lastDecodedSeq.value == U32_MAX then U32_MAX else lastDecodedSeq.value + 1;
      if expected in pending {
        DeliverRefines(s, expected, clock, lim);
        var frame := DecodeHeld(expected);
        return true, [frame];
      }
      if pending == map[] {
        return;
      }
      assert expected == lastDecodedSeq.value + 1;
      more, out := WaitOrRepair(expected, clock, lim);
    }

    /** Lines 583-642 of the source: wait for the missing packet, or make it good. */
    method WaitOrRepair(expected: nat, clock: Clock, lim: Limits) returns (more: bool, out: seq<Event>)
      requires Ahead(View()) && Sound()
      requires pending != map[] && expected !in pending && expected > 0 && lastDecodedSeq == Some(expected - 1)
      modifies this
      ensures Ahead(View()) && Sound() && pending == old(pending)
      ensures Drain(View(), clock, lim) == Drain(old(View()), clock, lim)
      ensures !more ==> View() == Drain(View(), clock, lim)
      ensures if more then Hole(View()) < Hole(old(View())) else Hole(View()) == Hole(old(View()))
      ensures emitted == old(emitted) + out
    {
      ghost var s := View();
      var earliest := Min(pending.Keys);
      assert earliest > expected;  // the guards on line 591 and line 602 of the source never fire
      if reorderWaitSince.None? {
        reorderWaitSince := Some(clock(|pending|).started);
      }
      if SatSub(clock(|pending|).checked, reorderWaitSince.value) < lim.waitMs {
        WaitRefines(s, clock, lim);
        more, out := false, [];
      } else {
        RepairRefines(s, earliest, clock, lim);
        out := RepairHole(expected, earliest, lim.maxPlc);
        assert View() == Repaired(s, earliest, lim.maxPlc);
        more := true;
      }
    }

    method DecodeHeld(num: nat) returns (frame: Event)
      requires num in pending && Sound()
      modifies this
      ensures Sound()
      ensures frame == Emit(if streamEpoch.Some? then streamEpoch.value else 0, num, old(pending)[num].ts, Real(old(pending)[num].data))
      ensures View() == old(View()).(last := Some(num), pending := old(pending) - {num}, waitSince := None,
                                     log := old(log) + [frame])
      ensures emitted == old(emitted) + [frame]
    {
      reorderWaitSince := None;
      frame := RealFrame(if streamEpoch.Some? then streamEpoch.value else 0, num, pending[num]);
      pending := pending - {num};
      lastDecodedSeq := Some(num);
      Record([frame]);
    }

    /** The decoder was asked for `frames`, and they are handed on. */
    ghost method Record(frames: seq<Event>)
      requires Sound() && forall i :: 0 <= i < |frames| ==> frames[i].Emit?
      modifies this`log, this`emitted
      ensures Sound() && log == old(log) + frames && emitted == old(emitted) + frames
    {
      EmitsAppend(log, frames);
      log := log + frames;
      emitted := emitted + frames;
    }

    /** The loop of lines 623-631 of the source. */
    method Conceal(epoch: nat, first: nat, gap: nat, nextTs: nat) returns (out: seq<Event>)
      requires gap > 0 && Sound()
      modifies this
      ensures Sound() && out == PlcRun(epoch, first, gap, nextTs)
      ensures View() == old(View()).(last := Some(first + gap - 1), log := old(log) + out)
      ensures emitted == old(emitted) + out
    {
      ghost var run := PlcRun(epoch, first, gap, nextTs);
      out := [];
      for i := 0 to gap
        invariant out == run[..i]
        invariant i > 0 ==> lastDecodedSeq == Some(first + i - 1)
        invariant streamEpoch == old(streamEpoch) && pending == old(pending)
        invariant reorderWaitSince == old(reorderWaitSince) && log == old(log) && emitted == old(emitted)
      {
        var frame := Emit(epoch, first + i, SatSub(nextTs, (gap - i) * FRAME_PERIOD_MS), Plc);
        lastDecodedSeq := Some(first + i);
        out := out + [frame];
      }
      Record(out);
    }

    /** Lines 600-642 of the source: rebuild one lost frame from its successor, conceal a few,
        or give the stream up and start again at the earliest packet held. */
    method RepairHole(expected: nat, earliest: nat, maxPlc: nat) returns (out: seq<Event>)
      requires Ahead(View()) && earliest in pending && lastDecodedSeq == Some(expected - 1) && expected < earliest
      requires expected > 0 && Sound()
      modifies this
      ensures Sound() && View() == Repaired(old(View()), earliest, maxPlc)
      ensures emitted == old(emitted) + out
    {
      reorderWaitSince := None;
      var gap := earliest - expected;
      var epoch := if streamEpoch.Some? then streamEpoch.value else 0;
      var next := pending[earliest];
      if gap == 1 {
        out := [Emit(epoch, expected, SatSub(next.ts, FRAME_PERIOD_MS), Fec(next.data))];
        lastDecodedSeq := Some(expected);
        Record(out);
      } else if gap <= maxPlc {
        out := Conceal(epoch, expected, gap, next.ts);
      } else {
        // the gap is at least 2 and above maxPlc, so the guard on line 644 of the source never fires
        out := [];
        lastDecodedSeq := None;
        EmitsReset(log);
        log := log + [Reset];
        assert emitted + out == emitted;
      }
    }
  }
}
