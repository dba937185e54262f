/** What the decoder log of a run says by itself: where every frame comes from, how each hole is
    repaired, and what a reset stands for. The statements name events and arrivals only. */
module DecoderLog {
  import opened Common
  import opened Reorder
  import opened ReorderTheorems

  predicate IsReal(log: seq<Event>, i: int) {
    0 <= i < |log| && log[i].Emit? && log[i].src.Real?
  }

  /* ---- Every decoded packet arrived ---- */

  /** Some arrival has the epoch, number, time stamp and bytes of the frame. */
  ghost predicate CameIn(ops: seq<Op>, e: Event)
    requires e.Emit? && e.src.Real?
  {
    exists op :: op in ops && op.Arrive? && op.epoch == e.epoch && op.num == e.num && op.pkt.ts == e.ts && op.pkt.data == e.src.data
  }

  ghost predicate RealsHeard(heard: (nat, nat, Packet) -> bool, log: seq<Event>) {
    forall i :: IsReal(log, i) ==> heard(log[i].epoch, log[i].num, Packet(log[i].ts, log[i].src.data))
  }

  lemma BlockHeard(heard: (nat, nat, Packet) -> bool, b: Block)
    requires b.Deliver? ==> heard(b.epoch, b.num, b.pkt)
    ensures RealsHeard(heard, Render(b))
  {
    if b.Deliver? {
      assert Packet(b.pkt.ts, b.pkt.data) == b.pkt;
    }
  }

  lemma {:induction false} BlocksHeard(heard: (nat, nat, Packet) -> bool, bs: seq<Block>)
    requires Vouched(heard, bs)
    ensures RealsHeard(heard, RenderAll(bs))
  {
    if bs != [] {
      BlockHeard(heard, bs[0]);
      BlocksHeard(heard, bs[1..]);
    }
  }

  /** The decoder is never asked to decode anything but a packet that arrived, with its own bytes, under
      its own number and stamp and in its own epoch. */
  lemma RealsCameIn(ops: seq<Op>, lim: Limits)
    ensures var log := Run(Empty, ops, lim).log;
      forall i :: IsReal(log, i) ==> CameIn(ops, log[i])
  {
    var bs := RunBlocks(Empty, ops, lim);
    RunEmitsBlocks(Empty, ops, lim);
    assert Empty.log + RenderAll(bs) == RenderAll(bs);
    DeliveredWereReceived(ops, lim);
    BlocksHeard(Heard(ops), bs);
    var log := Run(Empty, ops, lim).log;
    forall i | IsReal(log, i) ensures CameIn(ops, log[i]) {
      assert Received(ops, log[i].epoch, log[i].num, Packet(log[i].ts, log[i].src.data));
    }
  }

  /* ---- How a hole is repaired ---- */

  /** One missing number: rebuilt from the bytes of the packet decoded next, stamped 20 ms before it. */
  predicate LoneFec(log: seq<Event>, i: int) {
    && IsReal(log, i - 1) && IsReal(log, i + 1)
    && log[i].Emit? && log[i].src.Fec? && log[i].src.data == log[i + 1].src.data
    && log[i].epoch == log[i + 1].epoch
    && log[i - 1].num + 1 == log[i].num && log[i].num + 1 == log[i + 1].num
    && log[i].ts == SatSub(log[i + 1].ts, 20)
  }

  /** Two to `maxPlc` missing numbers: events `j .. k - 1` conceal them, each stamped 20 ms after the one
      before, up to the packet decoded next. */
  predicate PlcStretch(log: seq<Event>, j: int, k: int, maxPlc: nat) {
    && IsReal(log, j - 1) && IsReal(log, k) && 2 <= k - j <= maxPlc
    && log[j - 1].num + 1 + (k - j) == log[k].num
    && (forall x :: j <= x < k ==> ConcealsFor(log, x, k))
  }

  predicate ConcealsFor(log: seq<Event>, x: int, k: int) {
    && 0 <= x <= k < |log| && log[k].Emit? && log[x].Emit? && log[x].src.Plc?
    && log[x].epoch == log[k].epoch && log[x].num + (k - x) == log[k].num && log[x].ts == SatSub(log[k].ts, (k - x) * 20)
  }

  ghost predicate InPlcStretch(log: seq<Event>, i: int, maxPlc: nat) {
    exists j, k :: j <= i < k && PlcStretch(log, j, k, maxPlc)
  }

  ghost predicate WellRepaired(log: seq<Event>, maxPlc: nat) {
    forall i :: 0 <= i < |log| && log[i].Emit? && !log[i].src.Real? ==>
      if log[i].src.Fec? then LoneFec(log, i) else InPlcStretch(log, i, maxPlc)
  }

  /** The log ends with packet `prev`, if the stream has a position. */
  predicate EndsAt(log: seq<Event>, prev: Option<nat>) {
    prev.Some? ==> IsReal(log, |log| - 1) && log[|log| - 1].num == prev.value
  }

  lemma FecKept(a: seq<Event>, b: seq<Event>, i: int)
    requires LoneFec(a, i)
    ensures LoneFec(a + b, i)
  {
  }

  lemma PlcKept(a: seq<Event>, b: seq<Event>, i: int, maxPlc: nat)
    requires InPlcStretch(a, i, maxPlc)
    ensures InPlcStretch(a + b, i, maxPlc)
  {
    var j, k :| j <= i < k && PlcStretch(a, j, k, maxPlc);
    forall x | j <= x < k ensures ConcealsFor(a + b, x, k) {
      assert ConcealsFor(a, x, k);
    }
    assert PlcStretch(a + b, j, k, maxPlc);
  }

  lemma RepairedAppend(a: seq<Event>, b: seq<Event>, maxPlc: nat)
    requires WellRepaired(a, maxPlc)
    requires forall i :: |a| <= i < |a + b| && (a + b)[i].Emit? && !(a + b)[i].src.Real? ==>
      if (a + b)[i].src.Fec? then LoneFec(a + b, i) else InPlcStretch(a + b, i, maxPlc)
    ensures WellRepaired(a + b, maxPlc)
  {
    var log := a + b;
    forall i | 0 <= i < |log| && log[i].Emit? && !log[i].src.Real?
      ensures if log[i].src.Fec? then LoneFec(log, i) else InPlcStretch(log, i, maxPlc)
    {
      if i < |a| {
        assert log[i] == a[i];
        if a[i].src.Fec? {
          FecKept(a, b, i);
        } else {
          PlcKept(a, b, i, maxPlc);
        }
      }
    }
  }

  lemma FecBlock(a: seq<Event>, prev: Option<nat>, b: Block, maxPlc: nat)
    requires EndsAt(a, prev) && Links(prev, b, maxPlc) && b.Deliver? && b.repair.FromSuccessor?
    ensures LoneFec(a + Render(b), |a|)
  {
    var log := a + Render(b);
    assert log[|a| - 1] == a[|a| - 1] && log[|a|] == Render(b)[0] && log[|a| + 1] == Render(b)[1];
  }

  lemma PlcBlock(a: seq<Event>, prev: Option<nat>, b: Block, maxPlc: nat)
    requires EndsAt(a, prev) && Links(prev, b, maxPlc) && b.Deliver? && b.repair.Concealed?
    ensures PlcStretch(a + Render(b), |a|, |a| + b.repair.lost, maxPlc)
  {
    var log, k := a + Render(b), |a| + b.repair.lost;
    var r := Render(b);
    assert log[|a| - 1] == a[|a| - 1] && log[k] == r[b.repair.lost];
    forall x | |a| <= x < k ensures ConcealsFor(log, x, k) {
      assert log[x] == r[x - |a|];
    }
  }

  lemma BlockRepairs(a: seq<Event>, prev: Option<nat>, b: Block, maxPlc: nat)
    requires WellRepaired(a, maxPlc) && EndsAt(a, prev) && Links(prev, b, maxPlc)
    ensures WellRepaired(a + Render(b), maxPlc) && EndsAt(a + Render(b), After(prev, [b]))
  {
    if b.Deliver? && b.repair.FromSuccessor? {
      FecBlock(a, prev, b, maxPlc);
    } else if b.Deliver? && b.repair.Concealed? {
      PlcBlock(a, prev, b, maxPlc);
    }
    RepairedAppend(a, Render(b), maxPlc);
  }

  lemma {:induction false} ChainRepairs(a: seq<Event>, prev: Option<nat>, bs: seq<Block>, maxPlc: nat)
    requires WellRepaired(a, maxPlc) && EndsAt(a, prev) && Chained(prev, bs, maxPlc)
    ensures WellRepaired(a + RenderAll(bs), maxPlc)
    decreases |bs|
  {
    if bs == [] {
      assert a + RenderAll(bs) == a;
    } else {
      assert bs[..1] == [bs[0]];
      BlockRepairs(a, prev, bs[0], maxPlc);
      ChainRepairs(a + Render(bs[0]), After(prev, [bs[0]]), bs[1..], maxPlc);
      AppendAssoc(a, Render(bs[0]), RenderAll(bs[1..]));
    }
  }

  /** In any run every frame that is not a decoded packet repairs a hole between two decoded packets: a
      lone missing number by forward error correction from its successor, two to `maxPlc` by
      concealment; numbers, epochs and time stamps lead up to the packet that follows. */
  lemma RunRepairs(ops: seq<Op>, lim: Limits)
    ensures WellRepaired(Run(Empty, ops, lim).log, lim.maxPlc)
  {
    var bs := RunBlocks(Empty, ops, lim);
    RunEmitsBlocks(Empty, ops, lim);
    ChainRepairs([], None, bs, lim.maxPlc);
  }

  /* ---- What a reset stands for ---- */

  /** A reset between two decoded packets with too many numbers missing between them. */
  predicate LargeHole(log: seq<Event>, i: int, maxPlc: nat) {
    && IsReal(log, i - 1) && IsReal(log, i + 1)
    && log[i + 1].num > log[i - 1].num + 2 && log[i + 1].num > log[i - 1].num + 1 + maxPlc
  }

  ghost predicate ResetsAreLargeHoles(log: seq<Event>, from: nat, maxPlc: nat) {
    forall i :: from <= i < |log| && log[i].Reset? ==> LargeHole(log, i, maxPlc)
  }

  lemma BlockResets(a: seq<Event>, from: nat, prev: Option<nat>, b: Block, maxPlc: nat)
    requires ResetsAreLargeHoles(a, from, maxPlc) && EndsAt(a, prev) && Links(prev, b, maxPlc) && b.Deliver?
    ensures ResetsAreLargeHoles(a + Render(b), from, maxPlc) && EndsAt(a + Render(b), Some(b.num))
  {
    var log := a + Render(b);
    forall i | from <= i < |log| && log[i].Reset? ensures LargeHole(log, i, maxPlc) {
      if i < |a| {
        assert log[i] == a[i] && LargeHole(a, i, maxPlc);
      } else {
        assert log[i] == Render(b)[i - |a|];
        assert b.repair.Resynced? && i == |a| && log[i - 1] == a[|a| - 1] && log[i + 1] == Render(b)[1];
      }
    }
  }

  lemma {:induction false} ChainResets(a: seq<Event>, from: nat, prev: Option<nat>, bs: seq<Block>, maxPlc: nat)
    requires ResetsAreLargeHoles(a, from, maxPlc) && EndsAt(a, prev) && Chained(prev, bs, maxPlc)
    requires forall b :: b in bs ==> b.Deliver?
    ensures ResetsAreLargeHoles(a + RenderAll(bs), from, maxPlc)
    decreases |bs|
  {
    if bs == [] {
      assert a + RenderAll(bs) == a;
    } else {
      assert bs[..1] == [bs[0]] && bs[0] in bs;
      BlockResets(a, from, prev, bs[0], maxPlc);
      ChainResets(a + Render(bs[0]), from, Some(bs[0].num), bs[1..], maxPlc);
      AppendAssoc(a, Render(bs[0]), RenderAll(bs[1..]));
    }
  }

  /** While no arrival restarts the stream, the decoder is reset only where more than `maxPlc` numbers, and
      more than one, are missing. */
  lemma ResetsOnlyForLargeHoles(s: Buffer, ops: seq<Op>, lim: Limits)
    requires Rested(s) && EndsAt(s.log, s.last) && NoRestart(s, ops, lim)
    ensures ResetsAreLargeHoles(Run(s, ops, lim).log, |s.log|, lim.maxPlc)
  {
    RunEmitsBlocks(s, ops, lim);
    NoRestartBlocks(s, ops, lim);
    ChainResets(s.log, |s.log|, s.last, RunBlocks(s, ops, lim), lim.maxPlc);
  }

  /** A packet of another epoch, or one from more than 32 back, restarts the stream: the decoder is reset
      and the packet is decoded at once, whatever was held. */
  lemma RestartArrives(s: Buffer, epoch: nat, num: nat, pkt: Packet, clock: Clock, lim: Limits)
    requires Rested(s)
    requires s.epoch != Some(epoch) || (s.last.Some? && num + 32 < s.last.value)
    ensures Apply(s, Arrive(epoch, num, pkt, clock), lim) ==
      Buffer(Some(epoch), Some(num), map[], None, s.log + [Reset, Emit(epoch, num, pkt.ts, Real(pkt.data))])
  {
    var a := Admit(s, epoch, num, pkt);
    AdmitReady(s, epoch, num, pkt);
    assert a.pending == map[num := pkt] && a.last == None && Min(a.pending.Keys) == num;
    DrainDue(a, num, clock, lim);
    var r := Advance(a, num, lim.maxPlc);
    assert r.pending == map[];
    assert s.log + [Reset] + [Emit(epoch, num, pkt.ts, Real(pkt.data))] == s.log + [Reset, Emit(epoch, num, pkt.ts, Real(pkt.data))];
  }

  /** A packet up to 32 back, or the last one again, is ignored. */
  lemma OldCopyIgnored(s: Buffer, epoch: nat, num: nat, pkt: Packet, clock: Clock, lim: Limits)
    requires Rested(s) && s.epoch == Some(epoch) && s.last.Some? && num <= s.last.value <= num + 32
    ensures Apply(s, Arrive(epoch, num, pkt, clock), lim) == s
  {
  }
}
