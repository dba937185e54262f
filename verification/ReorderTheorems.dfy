/** What the reorder buffer guarantees over whole runs of packet arrivals and timer ticks. */
module ReorderTheorems {
  import opened Common
  import opened Reorder

  /* ---- The stream as a chain of blocks ---- */

  ghost function DrainBlocks(s: Buffer, clock: Clock, lim: Limits): seq<Block>
    requires Ahead(s)
    decreases |s.pending|
  {
    if s.pending == map[] || !Due(s, Min(s.pending.Keys), clock, lim.waitMs) then []
    else
      var m := Min(s.pending.Keys);
      [BlockFor(s, m, lim.maxPlc)] + DrainBlocks(Advance(s, m, lim.maxPlc), clock, lim)
  }

  predicate OpRestarts(s: Buffer, op: Op) {
    op.Arrive? && Restarts(s, op.epoch, op.num)
  }

  ghost function OpBlocks(s: Buffer, op: Op, lim: Limits): seq<Block>
    requires Rested(s)
  {
    match op
    case Tick(t) => DrainBlocks(s, t, lim)
    case Arrive(e, n, p, t) =>
      if Stale(s, e, n) then []
      else
        AdmitReady(s, e, n, p);
        (if Restarts(s, e, n) then [Restart(e)] else []) + DrainBlocks(Admit(s, e, n, p), t, lim)
  }

  ghost function RunBlocks(s: Buffer, ops: seq<Op>, lim: Limits): seq<Block>
    requires Rested(s)
  {
    if ops == [] then []
    else
      var init := ops[..|ops| - 1];
      RunBlocks(s, init, lim) + OpBlocks(Run(s, init, lim), ops[|ops| - 1], lim)
  }

  function After(prev: Option<nat>, bs: seq<Block>): Option<nat> {
    if bs == [] then prev
    else match bs[|bs| - 1]
      case Restart(_) => None
      case Deliver(_, _, n, _) => Some(n)
  }

  /** Block `b` may follow a stream whose last number is `prev`: nothing lost, one packet lost
      and rebuilt from its successor, two to `maxPlc` lost and concealed, or more lost. */
  predicate Links(prev: Option<nat>, b: Block, maxPlc: nat) {
    match b
    case Restart(_) => true
    case Deliver(_, Intact, n, _) => prev.Some? ==> n == prev.value + 1
    case Deliver(_, FromSuccessor, n, _) => prev.Some? && n == prev.value + 2
    case Deliver(_, Concealed(k), n, _) => prev.Some? && n == prev.value + 1 + k && 2 <= k <= maxPlc
    case Deliver(_, Resynced, n, _) => prev.Some? && n >= prev.value + 3 && n > prev.value + 1 + maxPlc
  }

  predicate Chained(prev: Option<nat>, bs: seq<Block>, maxPlc: nat)
    decreases |bs|
  {
    bs == [] || (Links(prev, bs[0], maxPlc) && Chained(After(prev, bs[..1]), bs[1..], maxPlc))
  }

  lemma {:induction false} ChainedAppend(prev: Option<nat>, a: seq<Block>, b: seq<Block>, maxPlc: nat)
    requires Chained(prev, a, maxPlc) && Chained(After(prev, a), b, maxPlc)
    ensures Chained(prev, a + b, maxPlc)
    ensures After(prev, a + b) == After(After(prev, a), b)
    decreases |a|
  {
    if a == [] {
      assert a + b == b;
    } else {
      assert (a + b)[1..] == a[1..] + b && (a + b)[..1] == a[..1];
      ChainedAppend(After(prev, a[..1]), a[1..], b, maxPlc);
    }
  }

  lemma {:induction false} RenderAppend(a: seq<Block>, b: seq<Block>)
    ensures RenderAll(a + b) == RenderAll(a) + RenderAll(b)
  {
    if a == [] {
      assert a + b == b;
    } else {
      assert (a + b)[1..] == a[1..] + b;
      RenderAppend(a[1..], b);
    }
  }

  lemma LogAppend(log: seq<Event>, a: seq<Block>, b: seq<Block>)
    ensures log + RenderAll(a) + RenderAll(b) == log + RenderAll(a + b)
  {
    RenderAppend(a, b);
  }

  lemma {:induction false} DrainEmitsBlocks(s: Buffer, clock: Clock, lim: Limits)
    requires Ahead(s)
    ensures var bs := DrainBlocks(s, clock, lim);
      var r := Drain(s, clock, lim);
      && r.log == s.log + RenderAll(bs)
      && Chained(s.last, bs, lim.maxPlc) && After(s.last, bs) == r.last
      && (forall i :: 0 <= i < |bs| ==> bs[i].Deliver?)
    decreases |s.pending|
  {
    if s.pending != map[] && Due(s, Min(s.pending.Keys), clock, lim.waitMs) {
      var m := Min(s.pending.Keys);
      var t := Advance(s, m, lim.maxPlc);
      var b := BlockFor(s, m, lim.maxPlc);
      DrainEmitsBlocks(t, clock, lim);
      var rest := DrainBlocks(t, clock, lim);
      assert RenderAll([b]) == Render(b);
      LogAppend(s.log, [b], rest);
      ChainedAppend(s.last, [b], rest, lim.maxPlc);
    }
  }

  ghost predicate EmitsBlocks(s: Buffer, bs: seq<Block>, r: Buffer, maxPlc: nat) {
    r.log == s.log + RenderAll(bs) && Chained(s.last, bs, maxPlc) && After(s.last, bs) == r.last
  }

  lemma RestartEmitsBlocks(s: Buffer, epoch: nat, a: Buffer, bs: seq<Block>, r: Buffer, maxPlc: nat)
    requires a.last == None && a.log == s.log + [Reset] && EmitsBlocks(a, bs, r, maxPlc)
    ensures EmitsBlocks(s, [Restart(epoch)] + bs, r, maxPlc)
  {
    assert RenderAll([Restart(epoch)]) == [Reset];
    LogAppend(s.log, [Restart(epoch)], bs);
    ChainedAppend(s.last, [Restart(epoch)], bs, maxPlc);
  }

  lemma OpEmitsBlocks(s: Buffer, op: Op, lim: Limits)
    requires Rested(s)
    ensures EmitsBlocks(s, OpBlocks(s, op, lim), Apply(s, op, lim), lim.maxPlc)
    ensures !OpRestarts(s, op) ==> forall i :: 0 <= i < |OpBlocks(s, op, lim)| ==> OpBlocks(s, op, lim)[i].Deliver?
  {
    match op
    case Tick(t) => DrainEmitsBlocks(s, t, lim);
    case Arrive(e, n, p, t) =>
      if !Stale(s, e, n) {
        AdmitReady(s, e, n, p);
        var a := Admit(s, e, n, p);
        var bs := DrainBlocks(a, t, lim);
        DrainEmitsBlocks(a, t, lim);
        if Restarts(s, e, n) {
          RestartEmitsBlocks(s, e, a, bs, Drain(a, t, lim), lim.maxPlc);
        } else {
          assert [] + bs == bs;
        }
      }
  }

  /** Over any run the decoder log is a chain of blocks, each repair exactly as large as the hole
      it fills: one lost packet is one FEC frame taken from the packet delivered next, two to
      `maxPlc` lost packets are that many PLC frames, and the decoder is reset only for a larger
      hole or where an arrival restarts the stream. */
  lemma {:induction false} RunEmitsBlocks(s: Buffer, ops: seq<Op>, lim: Limits)
    requires Rested(s)
    ensures Run(s, ops, lim).log == s.log + RenderAll(RunBlocks(s, ops, lim))
    ensures Chained(s.last, RunBlocks(s, ops, lim), lim.maxPlc)
    ensures After(s.last, RunBlocks(s, ops, lim)) == Run(s, ops, lim).last
  {
    if ops != [] {
      var init := ops[..|ops| - 1];
      var mid := Run(s, init, lim);
      var more := OpBlocks(mid, ops[|ops| - 1], lim);
      RunEmitsBlocks(s, init, lim);
      OpEmitsBlocks(mid, ops[|ops| - 1], lim);
      var bs := RunBlocks(s, init, lim);
      LogAppend(s.log, bs, more);
      ChainedAppend(s.last, bs, more, lim.maxPlc);
    }
  }

  /* ---- Consecutive frames ---- */

  function LastNum(prev: Option<nat>, log: seq<Event>): Option<nat> {
    if log == [] then prev else if log[|log| - 1].Emit? then Some(log[|log| - 1].num) else None
  }

  /** Frames not separated by a decoder reset carry consecutive numbers. */
  ghost predicate GapFree(prev: Option<nat>, log: seq<Event>) {
    forall i :: 0 <= i < |log| && log[i].Emit? && LastNum(prev, log[..i]).Some? ==>
      log[i].num == LastNum(prev, log[..i]).value + 1
  }

  lemma GapFreeAppend(prev: Option<nat>, a: seq<Event>, b: seq<Event>)
    requires GapFree(prev, a) && GapFree(LastNum(prev, a), b)
    ensures GapFree(prev, a + b)
  {
    forall i | 0 <= i < |a + b| && (a + b)[i].Emit? && LastNum(prev, (a + b)[..i]).Some?
      ensures (a + b)[i].num == LastNum(prev, (a + b)[..i]).value + 1
    {
      if i < |a| {
        assert (a + b)[..i] == a[..i];
      } else {
        assert (a + b)[..i] == a + b[..i - |a|];
      }
    }
  }

  lemma BlockGapFree(prev: Option<nat>, b: Block, maxPlc: nat)
    requires Links(prev, b, maxPlc)
    ensures GapFree(prev, Render(b)) && LastNum(prev, Render(b)) == After(prev, [b])
  {
  }

  lemma {:induction false} ChainGapFree(prev: Option<nat>, bs: seq<Block>, maxPlc: nat)
    requires Chained(prev, bs, maxPlc)
    ensures GapFree(prev, RenderAll(bs))
    decreases |bs|
  {
    if bs != [] {
      BlockGapFree(prev, bs[0], maxPlc);
      assert bs[..1] == [bs[0]];
      ChainGapFree(After(prev, [bs[0]]), bs[1..], maxPlc);
      GapFreeAppend(prev, Render(bs[0]), RenderAll(bs[1..]));
    }
  }

  /** The emitted stream has no gap, in any run of arrivals and ticks. */
  lemma EmittedStreamIsGapFree(ops: seq<Op>, lim: Limits)
    ensures GapFree(None, Run(Empty, ops, lim).log)
  {
    RunEmitsBlocks(Empty, ops, lim);
    ChainGapFree(None, RunBlocks(Empty, ops, lim), lim.maxPlc);
    assert Empty.log + RenderAll(RunBlocks(Empty, ops, lim)) == RenderAll(RunBlocks(Empty, ops, lim));
  }

  /* ---- No number twice ---- */

  ghost predicate Rising(prev: Option<nat>, log: seq<Event>) {
    && (prev.Some? ==> forall i :: 0 <= i < |log| && log[i].Emit? ==> prev.value < log[i].num)
    && (forall i, j :: 0 <= i < j < |log| && log[i].Emit? && log[j].Emit? ==> log[i].num < log[j].num)
  }

  lemma BlockRising(prev: Option<nat>, b: Block, maxPlc: nat)
    requires Links(prev, b, maxPlc) && b.Deliver?
    ensures Rising(prev, Render(b)) && forall i :: 0 <= i < |Render(b)| && Render(b)[i].Emit? ==> Render(b)[i].num <= b.num
    ensures prev.Some? ==> prev.value < b.num
  {
  }

  lemma {:induction false} ChainRising(prev: Option<nat>, bs: seq<Block>, maxPlc: nat)
    requires Chained(prev, bs, maxPlc) && forall b :: b in bs ==> b.Deliver?
    ensures Rising(prev, RenderAll(bs))
    decreases |bs|
  {
    if bs != [] {
      var b := bs[0];
      assert bs[..1] == [b] && b in bs;
      ChainRising(Some(b.num), bs[1..], maxPlc);
      BlockRising(prev, b, maxPlc);
    }
  }

  /** No arrival of the run restarts the stream: none changes the epoch, none rolls back by more than 32. */
  ghost predicate NoRestart(s: Buffer, ops: seq<Op>, lim: Limits)
    requires Rested(s)
  {
    ops == [] || (NoRestart(s, ops[..|ops| - 1], lim) && !OpRestarts(Run(s, ops[..|ops| - 1], lim), ops[|ops| - 1]))
  }

  lemma {:induction false} NoRestartBlocks(s: Buffer, ops: seq<Op>, lim: Limits)
    requires Rested(s) && NoRestart(s, ops, lim)
    ensures forall b :: b in RunBlocks(s, ops, lim) ==> b.Deliver?
  {
    if ops != [] {
      NoRestartBlocks(s, ops[..|ops| - 1], lim);
      OpEmitsBlocks(Run(s, ops[..|ops| - 1], lim), ops[|ops| - 1], lim);
    }
  }

  /** Without a restart, the numbers emitted keep rising across every repair and resync. */
  lemma NoNumberTwice(s: Buffer, ops: seq<Op>, lim: Limits)
    requires Rested(s) && NoRestart(s, ops, lim)
    ensures s.log <= Run(s, ops, lim).log
    ensures Rising(s.last, Run(s, ops, lim).log[|s.log|..])
  {
    RunEmitsBlocks(s, ops, lim);
    NoRestartBlocks(s, ops, lim);
    ChainRising(s.last, RunBlocks(s, ops, lim), lim.maxPlc);
    assert Run(s, ops, lim).log[|s.log|..] == RenderAll(RunBlocks(s, ops, lim));
  }

  /* ---- Nothing is invented ---- */

  ghost predicate Received(ops: seq<Op>, epoch: nat, num: nat, pkt: Packet) {
    exists op :: op in ops && op.Arrive? && op.epoch == epoch && op.num == num && op.pkt == pkt
  }

  ghost function Heard(ops: seq<Op>): (nat, nat, Packet) -> bool {
    (epoch: nat, num: nat, pkt: Packet) => Received(ops, epoch, num, pkt)
  }

  ghost predicate HeldVouched(heard: (nat, nat, Packet) -> bool, s: Buffer) {
    (s.pending != map[] ==> s.epoch.Some?) && forall k :: k in s.pending ==> heard(s.epoch.value, k, s.pending[k])
  }

  ghost predicate Vouched(heard: (nat, nat, Packet) -> bool, bs: seq<Block>) {
    forall i :: 0 <= i < |bs| && bs[i].Deliver? ==> heard(bs[i].epoch, bs[i].num, bs[i].pkt)
  }

  lemma VouchedAppend(heard: (nat, nat, Packet) -> bool, a: seq<Block>, b: seq<Block>)
    requires Vouched(heard, a) && Vouched(heard, b)
    ensures Vouched(heard, a + b)
  {
  }

  lemma AdvanceVouched(heard: (nat, nat, Packet) -> bool, s: Buffer, m: nat, maxPlc: nat)
    requires Ahead(s) && HeldVouched(heard, s) && m in s.pending
    ensures HeldVouched(heard, Advance(s, m, maxPlc)) && Vouched(heard, [BlockFor(s, m, maxPlc)])
  {
  }

  lemma {:induction false} DrainVouched(heard: (nat, nat, Packet) -> bool, s: Buffer, clock: Clock, lim: Limits)
    requires Ahead(s) && HeldVouched(heard, s)
    ensures HeldVouched(heard, Drain(s, clock, lim)) && Vouched(heard, DrainBlocks(s, clock, lim))
    decreases |s.pending|
  {
    if s.pending != map[] && Due(s, Min(s.pending.Keys), clock, lim.waitMs) {
      var m := Min(s.pending.Keys);
      var t := Advance(s, m, lim.maxPlc);
      AdvanceVouched(heard, s, m, lim.maxPlc);
      DrainVouched(heard, t, clock, lim);
      VouchedAppend(heard, [BlockFor(s, m, lim.maxPlc)], DrainBlocks(t, clock, lim));
    }
  }

  lemma OpVouched(heard: (nat, nat, Packet) -> bool, s: Buffer, op: Op, lim: Limits)
    requires Rested(s) && HeldVouched(heard, s) && (op.Arrive? ==> heard(op.epoch, op.num, op.pkt))
    ensures HeldVouched(heard, Apply(s, op, lim)) && Vouched(heard, OpBlocks(s, op, lim))
  {
    match op
    case Tick(clock) => DrainVouched(heard, s, clock, lim);
    case Arrive(e, n, p, clock) =>
      if !Stale(s, e, n) {
        AdmitReady(s, e, n, p);
        var a := Admit(s, e, n, p);
        DrainVouched(heard, a, clock, lim);
        VouchedAppend(heard, if Restarts(s, e, n) then [Restart(e)] else [], DrainBlocks(a, clock, lim));
      }
  }

  lemma LongerRunVouched(init: seq<Op>, ops: seq<Op>, s: Buffer, bs: seq<Block>)
    requires HeldVouched(Heard(init), s) && Vouched(Heard(init), bs) && init <= ops
    ensures HeldVouched(Heard(ops), s) && Vouched(Heard(ops), bs)
  {
    forall e, n, p | Received(init, e, n, p) ensures Received(ops, e, n, p) {
      var o :| o in init && o.Arrive? && o.epoch == e && o.num == n && o.pkt == p;
      assert o in ops;
    }
  }

  /** Every packet held, or delivered to the decoder as itself, did arrive with that epoch, number and content. */
  lemma {:induction false} DeliveredWereReceived(ops: seq<Op>, lim: Limits)
    ensures HeldVouched(Heard(ops), Run(Empty, ops, lim)) && Vouched(Heard(ops), RunBlocks(Empty, ops, lim))
  {
    if ops != [] {
      var init, op := ops[..|ops| - 1], ops[|ops| - 1];
      DeliveredWereReceived(init, lim);
      var s, bs := Run(Empty, init, lim), RunBlocks(Empty, init, lim);
      LongerRunVouched(init, ops, s, bs);
      assert op in ops && (op.Arrive? ==> Received(ops, op.epoch, op.num, op.pkt));
      OpVouched(Heard(ops), s, op, lim);
      VouchedAppend(Heard(ops), bs, OpBlocks(s, op, lim));
    }
  }

  /* ---- Nothing is stranded ---- */

  lemma {:induction false} DrainShrinks(s: Buffer, clock: Clock, lim: Limits)
    requires Ahead(s)
    ensures Drain(s, clock, lim).pending.Keys <= s.pending.Keys
    decreases |s.pending|
  {
    if s.pending != map[] && Due(s, Min(s.pending.Keys), clock, lim.waitMs) {
      DrainShrinks(Advance(s, Min(s.pending.Keys), lim.maxPlc), clock, lim);
    }
  }

  lemma {:induction false} DrainKeepsPackets(s: Buffer, clock: Clock, lim: Limits, k: nat)
    requires Ahead(s) && k in s.pending
    ensures var r := Drain(s, clock, lim);
      && (if k in r.pending then r.pending[k] == s.pending[k]
          else exists e :: Emit(e, k, s.pending[k].ts, Real(s.pending[k].data)) in r.log)
    decreases |s.pending|
  {
    var m := Min(s.pending.Keys);
    if Due(s, m, clock, lim.waitMs) {
      var t := Advance(s, m, lim.maxPlc);
      DrainEmitsBlocks(t, clock, lim);
      DrainShrinks(t, clock, lim);
      if k == m {
        var events := Render(BlockFor(s, m, lim.maxPlc));
        assert events[|events| - 1] == RealFrame(BlockFor(s, m, lim.maxPlc).epoch, k, s.pending[k]);
        assert events[|events| - 1] in t.log;
        assert RealFrame(BlockFor(s, m, lim.maxPlc).epoch, k, s.pending[k]) in Drain(t, clock, lim).log;
      } else {
        DrainKeepsPackets(t, clock, lim, k);
      }
    }
  }

  /** A tick at least `waitMs` after the timer started delivers at least one held packet. */
  lemma TickDelivers(s: Buffer, clock: Clock, lim: Limits)
    requires Rested(s) && s.pending != map[] && clock(|s.pending|).checked >= s.waitSince.value + lim.waitMs
    ensures var r := Drain(s, clock, lim);
      |r.pending| < |s.pending| && (r.waitSince.Some? ==> r.waitSince.value == clock(|r.pending|).started)
  {
    var m := Min(s.pending.Keys);
    var t := Advance(s, m, lim.maxPlc);
    assert t.pending.Keys == s.pending.Keys - {m};
    DrainRests(t, clock, lim);
    DrainTimer(t, clock, lim);
    SubsetSize(Drain(t, clock, lim).pending.Keys, t.pending.Keys);
  }

  lemma {:induction false} DrainTimer(s: Buffer, clock: Clock, lim: Limits)
    requires Ahead(s) && s.waitSince.None?
    ensures var r := Drain(s, clock, lim); r.waitSince.Some? ==> r.waitSince.value == clock(|r.pending|).started
    decreases |s.pending|
  {
    if s.pending != map[] && Due(s, Min(s.pending.Keys), clock, lim.waitMs) {
      DrainTimer(Advance(s, Min(s.pending.Keys), lim.maxPlc), clock, lim);
    }
  }

  function Ticks(clocks: seq<Clock>): (ops: seq<Op>)
    ensures |ops| == |clocks| && forall i :: 0 <= i < |clocks| ==> ops[i] == Tick(clocks[i])
  {
    seq(|clocks|, i requires 0 <= i < |clocks| => Tick(clocks[i]))
  }

  /** Each tick looks at the clock at least `waitMs` after `start` and after any timer an earlier tick started. */
  ghost predicate Spaced(start: int, clocks: seq<Clock>, waitMs: nat) {
    && (forall i, n :: 0 <= i < |clocks| ==> clocks[i](n).checked >= start + waitMs)
    && (forall i, j, m, n :: 0 <= i < j < |clocks| ==> clocks[j](n).checked >= clocks[i](m).started + waitMs)
  }

  /** After the first `k` ticks. */
  lemma {:induction false} FirstTicks(s: Buffer, clocks: seq<Clock>, lim: Limits, k: nat)
    requires Rested(s) && k <= |clocks|
    requires s.pending != map[] ==> Spaced(s.waitSince.value, clocks, lim.waitMs)
    ensures var r := Run(s, Ticks(clocks)[..k], lim);
      && |r.pending| <= SatSub(|s.pending|, k)
      && (r.waitSince.Some? && k > 0 ==> r.waitSince.value == clocks[k - 1](|r.pending|).started)
  {
    if k > 0 {
      var mid := Run(s, Ticks(clocks)[..k - 1], lim);
      FirstTicks(s, clocks, lim, k - 1);
      assert k == 1 ==> mid == s;
      assert mid.pending != map[] ==> s.pending != map[];
      OneMoreTick(mid, clocks[k - 1], lim, |s.pending|, k - 1);
      RunSnoc(s, Ticks(clocks), k - 1, lim);
    }
  }

  /** With no more arrivals, as many well-spaced timer ticks as packets held, so at most 32,
      empty the buffer. */
  lemma TicksEmptyBuffer(s: Buffer, clocks: seq<Clock>, lim: Limits)
    requires Rested(s)
    requires s.pending != map[] ==> Spaced(s.waitSince.value, clocks, lim.waitMs)
    ensures var r := Run(s, Ticks(clocks), lim);
      |r.pending| <= SatSub(|s.pending|, |clocks|) && (|clocks| >= |s.pending| ==> r.pending == map[])
  {
    FirstTicks(s, clocks, lim, |clocks|);
    assert Ticks(clocks)[..|clocks|] == Ticks(clocks);
  }

  lemma OneMoreTick(s: Buffer, clock: Clock, lim: Limits, held: nat, n: nat)
    requires Rested(s) && |s.pending| <= SatSub(held, n)
    requires s.pending != map[] ==> clock(|s.pending|).checked >= s.waitSince.value + lim.waitMs
    ensures var r := Apply(s, Tick(clock), lim);
      && |r.pending| <= SatSub(held, n + 1)
      && (r.waitSince.Some? ==> r.waitSince.value == clock(|r.pending|).started)
  {
    if s.pending != map[] {
      TickDelivers(s, clock, lim);
    }
  }

  ghost predicate HeldOrDecoded(held: map<nat, Packet>, k: nat, r: Buffer)
    requires k in held
  {
    if k in r.pending then r.pending[k] == held[k] else exists e :: Emit(e, k, held[k].ts, Real(held[k].data)) in r.log
  }

  /** One drain does not lose what is held or decoded. */
  lemma DrainLosesNothing(held: map<nat, Packet>, s: Buffer, clock: Clock, lim: Limits, k: nat)
    requires Ahead(s) && k in held && HeldOrDecoded(held, k, s)
    ensures HeldOrDecoded(held, k, Drain(s, clock, lim))
  {
    if k in s.pending {
      DrainKeepsPackets(s, clock, lim, k);
    } else {
      DrainShrinks(s, clock, lim);
      DrainEmitsBlocks(s, clock, lim);
      var e :| Emit(e, k, held[k].ts, Real(held[k].data)) in s.log;
      assert Emit(e, k, held[k].ts, Real(held[k].data)) in Drain(s, clock, lim).log;
    }
  }

  /** Whatever the ticks, a held packet stays held until it has gone to the decoder unchanged. */
  lemma {:induction false} TicksLoseNothing(s: Buffer, clocks: seq<Clock>, lim: Limits, k: nat)
    requires Rested(s) && k in s.pending
    ensures HeldOrDecoded(s.pending, k, Run(s, Ticks(clocks), lim))
  {
    if clocks != [] {
      var n := |clocks| - 1;
      TicksLoseNothing(s, clocks[..n], lim, k);
      assert Ticks(clocks)[..n] == Ticks(clocks[..n]);
      DrainLosesNothing(s.pending, Run(s, Ticks(clocks[..n]), lim), clocks[n], lim, k);
    }
  }

  /* ---- Reordering is invisible ---- */

  /** The first `k` packets after number `base`, decoded in order. */
  function Reals(epoch: nat, base: nat, pkts: seq<Packet>, k: nat): (r: seq<Event>)
    requires k <= |pkts|
    ensures |r| == k && forall i :: 0 <= i < k ==> r[i] == Emit(epoch, base + 1 + i, pkts[i].ts, Real(pkts[i].data))
  {
    seq(k, i requires 0 <= i < k => RealFrame(epoch, base + 1 + i, pkts[i]))
  }

  lemma RealsSnoc(log: seq<Event>, epoch: nat, base: nat, pkts: seq<Packet>, k: nat)
    requires k < |pkts|
    ensures log + Reals(epoch, base, pkts, k) + [RealFrame(epoch, base + 1 + k, pkts[k])] == log + Reals(epoch, base, pkts, k + 1)
  {
  }

  /** The clock stays within one wait interval. */
  ghost predicate Within(clock: Clock, t0: int, waitMs: nat) {
    forall n :: t0 <= clock(n).started && t0 <= clock(n).checked < t0 + waitMs
  }

  /** Packets `base + 1 .. base + |pkts|` of one stream, or timer ticks, all in one wait interval. */
  ghost predicate GenuineOp(op: Op, epoch: nat, base: nat, pkts: seq<Packet>, t0: int, waitMs: nat) {
    && Within(op.clock, t0, waitMs)
    && (op.Arrive? ==>
          && op.epoch == epoch && base < op.num <= base + |pkts|
          && op.pkt == pkts[op.num - base - 1])
  }

  ghost predicate Genuine(ops: seq<Op>, epoch: nat, base: nat, pkts: seq<Packet>, t0: int, waitMs: nat) {
    forall i :: 0 <= i < |ops| ==> GenuineOp(ops[i], epoch, base, pkts, t0, waitMs)
  }

  function Arrived(ops: seq<Op>): set<nat> {
    if ops == [] then {}
    else Arrived(ops[..|ops| - 1]) + if ops[|ops| - 1].Arrive? then {ops[|ops| - 1].num} else {}
  }

  /* What the order of arrival alone says: which numbers have to wait for an earlier one. */

  ghost predicate Settled(got: set<nat>, base: nat, x: nat) {
    forall y :: base < y <= x ==> y in got
  }

  ghost function Displaced(got: set<nat>, base: nat): set<nat> {
    set x | x in got && !Settled(got, base, x)
  }

  /** An arrival that meets 32 displaced packets, or a copy of a packet from more than 32 back. */
  ghost predicate Disturbs(got: set<nat>, base: nat, op: Op) {
    op.Arrive? &&
    if Settled(got, base, op.num) then Settled(got, base, op.num + 33) else |Displaced(got, base)| >= 32
  }

  ghost predicate Undisturbed(ops: seq<Op>, base: nat) {
    ops == [] || (Undisturbed(ops[..|ops| - 1], base) && !Disturbs(Arrived(ops[..|ops| - 1]), base, ops[|ops| - 1]))
  }

  /** After the numbers in `got` have arrived: those before the first hole are decoded, the rest held. */
  ghost predicate InStep(s: Buffer, log: seq<Event>, epoch: nat, base: nat, pkts: seq<Packet>, got: set<nat>, t0: int) {
    && s.epoch == Some(epoch) && s.last.Some? && base <= s.last.value <= base + |pkts|
    && s.log == log + Reals(epoch, base, pkts, s.last.value - base)
    && (forall x :: x in got ==> base < x <= base + |pkts|)
    && (forall x :: base < x <= s.last.value ==> x in got)
    && (forall x :: x in s.pending <==> x in got && s.last.value < x)
    && (forall x :: x in s.pending ==> s.pending[x] == pkts[x - base - 1])
    && (s.waitSince.Some? ==> t0 <= s.waitSince.value)
  }

  /** What is held is what the order of arrival displaces. */
  lemma HeldAreDisplaced(s: Buffer, log: seq<Event>, epoch: nat, base: nat, pkts: seq<Packet>, got: set<nat>, t0: int)
    requires Rested(s) && InStep(s, log, epoch, base, pkts, got, t0)
    ensures s.pending.Keys == Displaced(got, base)
    ensures forall x :: base < x ==> (Settled(got, base, x) <==> x <= s.last.value)
  {
    var hole := s.last.value + 1;
    assert hole !in got by {
      assert hole in got ==> hole in s.pending;
    }
    forall x | base < x ensures Settled(got, base, x) <==> x <= s.last.value {
      assert x > s.last.value ==> base < hole <= x;
    }
  }

  lemma AdvanceInStep(s: Buffer, log: seq<Event>, epoch: nat, base: nat, pkts: seq<Packet>, got: set<nat>, t0: int, maxPlc: nat)
    requires InStep(s, log, epoch, base, pkts, got, t0) && s.last.value + 1 in s.pending
    ensures Ahead(s) && InStep(Advance(s, s.last.value + 1, maxPlc), log, epoch, base, pkts, got, t0)
  {
    RealsSnoc(log, epoch, base, pkts, s.last.value - base);
  }

  lemma {:induction false} DrainInStep(s: Buffer, log: seq<Event>, epoch: nat, base: nat, pkts: seq<Packet>,
                                       got: set<nat>, t0: int, clock: Clock, lim: Limits)
    requires InStep(s, log, epoch, base, pkts, got, t0) && Within(clock, t0, lim.waitMs)
    ensures Ahead(s) && InStep(Drain(s, clock, lim), log, epoch, base, pkts, got, t0)
    decreases |s.pending|
  {
    if s.pending != map[] {
      if Min(s.pending.Keys) == s.last.value + 1 {
        AdvanceInStep(s, log, epoch, base, pkts, got, t0, lim.maxPlc);
        DrainInStep(Advance(s, s.last.value + 1, lim.maxPlc), log, epoch, base, pkts, got, t0, clock, lim);
      } else {
        assert !Due(s, Min(s.pending.Keys), clock, lim.waitMs);
        WaitRefines(s, clock, lim);
      }
    }
  }

  lemma HoldInStep(s: Buffer, log: seq<Event>, epoch: nat, base: nat, pkts: seq<Packet>, got: set<nat>, t0: int, num: nat)
    requires |s.pending| < MAX_PENDING && InStep(s, log, epoch, base, pkts, got, t0)
    requires s.last.value < num <= base + |pkts|
    ensures InStep(Hold(s, num, pkts[num - base - 1]), log, epoch, base, pkts, got + {num}, t0)
  {
    var r := Hold(s, num, pkts[num - base - 1]);
    assert r == s.(pending := s.pending[num := pkts[num - base - 1]]);
    assert forall x :: x in r.pending <==> x in s.pending || x == num;
  }

  lemma NewNumber(s: Buffer, op: Op, lim: Limits)
    requires Rested(s) && op.Arrive? && s.epoch == Some(op.epoch) && s.last.Some? && s.last.value < op.num
    ensures Ahead(Hold(s, op.num, op.pkt)) && Apply(s, op, lim) == Drain(Hold(s, op.num, op.pkt), op.clock, lim)
  {
    AdmitReady(s, op.epoch, op.num, op.pkt);
  }

  lemma NewInStep(s: Buffer, log: seq<Event>, epoch: nat, base: nat, pkts: seq<Packet>, got: set<nat>, t0: int,
                  op: Op, lim: Limits)
    requires Rested(s) && InStep(s, log, epoch, base, pkts, got, t0)
    requires op.Arrive? && GenuineOp(op, epoch, base, pkts, t0, lim.waitMs)
    requires s.last.value < op.num && |s.pending| < MAX_PENDING
    ensures InStep(Apply(s, op, lim), log, epoch, base, pkts, got + {op.num}, t0)
  {
    HoldInStep(s, log, epoch, base, pkts, got, t0, op.num);
    NewNumber(s, op, lim);
    DrainInStep(Hold(s, op.num, op.pkt), log, epoch, base, pkts, got + {op.num}, t0, op.clock, lim);
  }

  lemma CopyInStep(s: Buffer, log: seq<Event>, epoch: nat, base: nat, pkts: seq<Packet>, got: set<nat>, t0: int,
                   op: Op, lim: Limits)
    requires Rested(s) && InStep(s, log, epoch, base, pkts, got, t0)
    requires op.Arrive? && op.epoch == epoch && base < op.num <= s.last.value <= op.num + 32
    ensures InStep(Apply(s, op, lim), log, epoch, base, pkts, got + {op.num}, t0)
  {
    assert got + {op.num} == got;
    assert Apply(s, op, lim) == s;
  }

  lemma TickInStep(s: Buffer, log: seq<Event>, epoch: nat, base: nat, pkts: seq<Packet>, got: set<nat>, t0: int,
                   op: Op, lim: Limits)
    requires Rested(s) && InStep(s, log, epoch, base, pkts, got, t0)
    requires op.Tick? && GenuineOp(op, epoch, base, pkts, t0, lim.waitMs)
    ensures InStep(Apply(s, op, lim), log, epoch, base, pkts, got, t0)
  {
    DrainInStep(s, log, epoch, base, pkts, got, t0, op.clock, lim);
  }

  lemma OpInStep(s: Buffer, log: seq<Event>, epoch: nat, base: nat, pkts: seq<Packet>, got: set<nat>, t0: int,
                 op: Op, lim: Limits)
    requires Rested(s) && InStep(s, log, epoch, base, pkts, got, t0)
    requires GenuineOp(op, epoch, base, pkts, t0, lim.waitMs) && !Disturbs(got, base, op)
    ensures InStep(Apply(s, op, lim), log, epoch, base, pkts, got + (if op.Arrive? then {op.num} else {}), t0)
  {
    if op.Arrive? {
      HeldAreDisplaced(s, log, epoch, base, pkts, got, t0);
      if s.last.value < op.num {
        NewInStep(s, log, epoch, base, pkts, got, t0, op, lim);
      } else {
        CopyInStep(s, log, epoch, base, pkts, got, t0, op, lim);
      }
    } else {
      TickInStep(s, log, epoch, base, pkts, got, t0, op, lim);
      assert got + {} == got;
    }
  }

  lemma {:induction false} RunInStep(s: Buffer, ops: seq<Op>, epoch: nat, base: nat, pkts: seq<Packet>, t0: int, lim: Limits)
    requires Rested(s) && InStep(s, s.log, epoch, base, pkts, {}, t0)
    requires Genuine(ops, epoch, base, pkts, t0, lim.waitMs) && Undisturbed(ops, base)
    ensures InStep(Run(s, ops, lim), s.log, epoch, base, pkts, Arrived(ops), t0)
  {
    if ops != [] {
      var init, op := ops[..|ops| - 1], ops[|ops| - 1];
      RunInStep(s, init, epoch, base, pkts, t0, lim);
      OpInStep(Run(s, init, lim), s.log, epoch, base, pkts, Arrived(init), t0, op, lim);
    }
  }

  lemma InStepDone(r: Buffer, log: seq<Event>, epoch: nat, base: nat, pkts: seq<Packet>, got: set<nat>, t0: int)
    requires Rested(r) && InStep(r, log, epoch, base, pkts, got, t0)
    requires forall n :: base < n <= base + |pkts| ==> n in got
    ensures r.log == log + Reals(epoch, base, pkts, |pkts|) && r.last == Some(base + |pkts|) && r.pending == map[]
  {
    var next := r.last.value + 1;
    assert next <= base + |pkts| ==> next in got;
    assert next in got ==> next in r.pending;
    assert r.pending.Keys == {};
  }

  predicate Idle(s: Buffer, epoch: nat, base: nat) {
    Rested(s) && s.epoch == Some(epoch) && s.last == Some(base) && s.pending == map[]
  }

  lemma IdleInStep(s: Buffer, epoch: nat, base: nat, pkts: seq<Packet>, t0: int)
    requires Idle(s, epoch, base)
    ensures InStep(s, s.log, epoch, base, pkts, {}, t0)
  {
    assert s.log + Reals(epoch, base, pkts, 0) == s.log;
  }

  /** From an idle buffer, any number of packets that arrive within one wait interval, in any order,
      with any duplicates and any timer ticks in between, reach the decoder as if sent in order: no
      repair, no reset, nothing else. The order of arrival must displace fewer than 32 at a time. */
  lemma ReorderingIsInvisible(s: Buffer, ops: seq<Op>, epoch: nat, base: nat, pkts: seq<Packet>, t0: int, lim: Limits)
    requires Idle(s, epoch, base) && Genuine(ops, epoch, base, pkts, t0, lim.waitMs) && Undisturbed(ops, base)
    requires forall n :: base < n <= base + |pkts| ==> n in Arrived(ops)
    ensures var r := Run(s, ops, lim);
      r.log == s.log + Reals(epoch, base, pkts, |pkts|) && r.last == Some(base + |pkts|) && r.pending == map[]
  {
    IdleInStep(s, epoch, base, pkts, t0);
    RunInStep(s, ops, epoch, base, pkts, t0, lim);
    InStepDone(Run(s, ops, lim), s.log, epoch, base, pkts, Arrived(ops), t0);
  }

  lemma {:induction false} ArrivedRange(ops: seq<Op>, epoch: nat, base: nat, pkts: seq<Packet>, t0: int, waitMs: nat)
    requires Genuine(ops, epoch, base, pkts, t0, waitMs)
    ensures forall x :: x in Arrived(ops) ==> base < x <= base + |pkts|
  {
    if ops != [] {
      ArrivedRange(ops[..|ops| - 1], epoch, base, pkts, t0, waitMs);
    }
  }

  lemma FewDisplaced(got: set<nat>, base: nat, n: nat)
    requires n > 0 && forall x :: x in got ==> base < x <= base + n
    ensures |Displaced(got, base)| < n
  {
    forall x | x in Displaced(got, base) ensures x in Range(base + 2, n - 1) {
      assert x == base + 1 ==> Settled(got, base, x);
    }
    SubsetSize(Displaced(got, base), Range(base + 2, n - 1));
  }

  /** Up to 32 packets, in any order and however often repeated, displace too few to matter. */
  lemma {:induction false} ShortBurstUndisturbed(ops: seq<Op>, epoch: nat, base: nat, pkts: seq<Packet>, t0: int, waitMs: nat)
    requires Genuine(ops, epoch, base, pkts, t0, waitMs) && |pkts| <= MAX_PENDING
    ensures Undisturbed(ops, base)
  {
    if ops != [] {
      var init, op := ops[..|ops| - 1], ops[|ops| - 1];
      ShortBurstUndisturbed(init, epoch, base, pkts, t0, waitMs);
      ArrivedRange(init, epoch, base, pkts, t0, waitMs);
      if op.Arrive? {
        FewDisplaced(Arrived(init), base, |pkts|);
        var beyond := base + 33;
        assert beyond !in Arrived(init) && base < beyond <= op.num + 33;
      }
    }
  }

  lemma ShortBurstIsInvisible(s: Buffer, ops: seq<Op>, epoch: nat, base: nat, pkts: seq<Packet>, t0: int, lim: Limits)
    requires Idle(s, epoch, base) && Genuine(ops, epoch, base, pkts, t0, lim.waitMs) && |pkts| <= 32
    requires forall n :: base < n <= base + |pkts| ==> n in Arrived(ops)
    ensures var r := Run(s, ops, lim);
      r.log == s.log + Reals(epoch, base, pkts, |pkts|) && r.last == Some(base + |pkts|) && r.pending == map[]
  {
    ShortBurstUndisturbed(ops, epoch, base, pkts, t0, lim.waitMs);
    ReorderingIsInvisible(s, ops, epoch, base, pkts, t0, lim);
  }

  /* ---- When reordering shows ---- */

  lemma {:induction false} DrainDeliversHeld(s: Buffer, clock: Clock, lim: Limits)
    requires Ahead(s)
    ensures forall b :: b in DrainBlocks(s, clock, lim) ==> b.Deliver? && b.num in s.pending
    decreases |s.pending|
  {
    if s.pending != map[] && Due(s, Min(s.pending.Keys), clock, lim.waitMs) {
      DrainDeliversHeld(Advance(s, Min(s.pending.Keys), lim.maxPlc), clock, lim);
    }
  }

  /** A packet that arrives while 32 are held, even the one the stream waits for, pushes the
      earliest held packet out: it is neither kept nor decoded. */
  lemma FullBufferLosesEarliest(s: Buffer, num: nat, pkt: Packet, clock: Clock, lim: Limits)
    requires Rested(s) && |s.pending| == 32 && num > s.last.value && s.epoch.Some?
    requires num != Min(s.pending.Keys)
    ensures var m := Min(s.pending.Keys);
      var op := Arrive(s.epoch.value, num, pkt, clock);
      && m !in Apply(s, op, lim).pending
      && (forall b :: b in OpBlocks(s, op, lim) ==> b.Deliver? && b.num != m)
  {
    var a := Admit(s, s.epoch.value, num, pkt);
    AdmitReady(s, s.epoch.value, num, pkt);
    assert Min(s.pending.Keys) !in a.pending;
    DrainShrinks(a, clock, lim);
    DrainDeliversHeld(a, clock, lim);
  }

  predicate NoReal(events: seq<Event>, m: nat) {
    forall i :: 0 <= i < |events| && events[i].Emit? && events[i].src.Real? ==> events[i].num != m
  }

  ghost predicate NoneDelivers(bs: seq<Block>, m: nat) {
    forall b :: b in bs && b.Deliver? ==> b.num != m
  }

  lemma {:induction false} RenderNoReal(bs: seq<Block>, m: nat)
    requires NoneDelivers(bs, m)
    ensures NoReal(RenderAll(bs), m)
  {
    if bs != [] {
      assert bs[0] in bs;
      assert NoReal(Render(bs[0]), m);
      RenderNoReal(bs[1..], m);
    }
  }

  /** Packet `m` is gone: not held, and not decoded since the log was `log`. */
  ghost predicate Lost(s: Buffer, log: seq<Event>, m: nat) {
    m !in s.pending && log <= s.log && NoReal(s.log[|log|..], m)
  }

  lemma BlocksKeepLost(s: Buffer, op: Op, lim: Limits, log: seq<Event>, m: nat)
    requires Rested(s) && log <= s.log && NoReal(s.log[|log|..], m)
    requires m !in Apply(s, op, lim).pending && NoneDelivers(OpBlocks(s, op, lim), m)
    ensures Lost(Apply(s, op, lim), log, m)
  {
    OpEmitsBlocks(s, op, lim);
    var bs := OpBlocks(s, op, lim);
    RenderNoReal(bs, m);
    NoRealAppend(s.log, RenderAll(bs), log, m);
  }

  lemma NoRealAppend(a: seq<Event>, b: seq<Event>, log: seq<Event>, m: nat)
    requires log <= a && NoReal(a[|log|..], m) && NoReal(b, m)
    ensures log <= a + b && NoReal((a + b)[|log|..], m)
  {
    assert (a + b)[|log|..] == a[|log|..] + b;
  }

  /** What is lost stays lost until it is sent again. */
  lemma OpKeepsLost(s: Buffer, op: Op, lim: Limits, log: seq<Event>, m: nat)
    requires Rested(s) && Lost(s, log, m) && (op.Arrive? ==> op.num != m)
    ensures Lost(Apply(s, op, lim), log, m)
  {
    match op
    case Tick(clock) =>
      DrainShrinks(s, clock, lim);
      DrainDeliversHeld(s, clock, lim);
      BlocksKeepLost(s, op, lim, log, m);
    case Arrive(e, n, p, clock) =>
      if !Stale(s, e, n) {
        AdmitReady(s, e, n, p);
        var a := Admit(s, e, n, p);
        assert m !in a.pending;
        DrainShrinks(a, clock, lim);
        DrainDeliversHeld(a, clock, lim);
        BlocksKeepLost(s, op, lim, log, m);
      }
  }

  lemma RunSnoc(s: Buffer, ops: seq<Op>, i: nat, lim: Limits)
    requires Rested(s) && i < |ops|
    ensures Run(s, ops[..i + 1], lim) == Apply(Run(s, ops[..i], lim), ops[i], lim)
  {
    assert ops[..i + 1][..i] == ops[..i];
  }

  lemma {:induction false} RunKeepsLost(s: Buffer, ops: seq<Op>, i: nat, lim: Limits, log: seq<Event>, m: nat)
    requires Rested(s) && i <= |ops| && Lost(Run(s, ops[..i], lim), log, m)
    requires forall j :: i <= j < |ops| && ops[j].Arrive? ==> ops[j].num != m
    ensures Lost(Run(s, ops, lim), log, m)
    decreases |ops| - i
  {
    if i == |ops| {
      assert ops[..i] == ops;
    } else {
      OpKeepsLost(Run(s, ops[..i], lim), ops[i], lim, log, m);
      RunSnoc(s, ops, i, lim);
      RunKeepsLost(s, ops, i + 1, lim, log, m);
    }
  }

  /** A new number that arrives while 32 are displaced costs the earliest of them. */
  lemma DisturbanceLoses(s: Buffer, log: seq<Event>, epoch: nat, base: nat, pkts: seq<Packet>, got: set<nat>, t0: int,
                         op: Op, lim: Limits) returns (m: nat)
    requires Rested(s) && InStep(s, log, epoch, base, pkts, got, t0)
    requires op.Arrive? && op.epoch == epoch && base < op.num && op.num !in got && Disturbs(got, base, op)
    ensures m in got && (forall x :: x in Displaced(got, base) ==> m <= x)
    ensures Lost(Apply(s, op, lim), log, m)
  {
    HeldAreDisplaced(s, log, epoch, base, pkts, got, t0);
    m := Min(s.pending.Keys);
    FullBufferLosesEarliest(s, op.num, op.pkt, op.clock, lim);
    assert s.log[|log|..] == Reals(epoch, base, pkts, s.last.value - base);
    BlocksKeepLost(s, op, lim, log, m);
  }

  /** Every number arrives at most once. */
  ghost predicate OnceEach(ops: seq<Op>) {
    forall i, j :: 0 <= i < j < |ops| && ops[i].Arrive? && ops[j].Arrive? ==> ops[i].num != ops[j].num
  }

  lemma {:induction false} ArrivedAt(ops: seq<Op>, x: nat) returns (i: nat)
    requires x in Arrived(ops)
    ensures i < |ops| && ops[i].Arrive? && ops[i].num == x
  {
    var n := |ops| - 1;
    if ops[n].Arrive? && ops[n].num == x {
      i := n;
    } else {
      i := ArrivedAt(ops[..n], x);
    }
  }

  lemma {:induction false} NotBefore(ops: seq<Op>, i: nat, k: nat)
    requires OnceEach(ops) && k <= i < |ops| && ops[i].Arrive?
    ensures ops[i].num !in Arrived(ops[..k])
  {
    if k > 0 {
      assert ops[..k][..k - 1] == ops[..k - 1];
      NotBefore(ops, i, k - 1);
    }
  }

  lemma {:induction false} FirstDisturbance(ops: seq<Op>, base: nat) returns (i: nat)
    requires !Undisturbed(ops, base)
    ensures i < |ops| && Undisturbed(ops[..i], base) && Disturbs(Arrived(ops[..i]), base, ops[i])
  {
    var n := |ops| - 1;
    if Undisturbed(ops[..n], base) {
      i := n;
    } else {
      i := FirstDisturbance(ops[..n], base);
      assert ops[..n][..i] == ops[..i];
    }
  }

  lemma DisturbedRunLoses(s: Buffer, ops: seq<Op>, epoch: nat, base: nat, pkts: seq<Packet>, t0: int, lim: Limits) returns (m: nat)
    requires Idle(s, epoch, base) && Genuine(ops, epoch, base, pkts, t0, lim.waitMs) && OnceEach(ops)
    requires !Undisturbed(ops, base)
    ensures base < m <= base + |pkts| && Lost(Run(s, ops, lim), s.log, m)
  {
    var i := FirstDisturbance(ops, base);
    m := LossAt(s, ops, epoch, base, pkts, t0, lim, i);
    NotAfter(ops, i, m);
    RunKeepsLost(s, ops, i + 1, lim, s.log, m);
  }

  lemma LossAt(s: Buffer, ops: seq<Op>, epoch: nat, base: nat, pkts: seq<Packet>, t0: int, lim: Limits, i: nat) returns (m: nat)
    requires Idle(s, epoch, base) && Genuine(ops, epoch, base, pkts, t0, lim.waitMs) && OnceEach(ops)
    requires i < |ops| && Undisturbed(ops[..i], base) && Disturbs(Arrived(ops[..i]), base, ops[i])
    ensures base < m <= base + |pkts| && m in Arrived(ops[..i]) && Lost(Run(s, ops[..i + 1], lim), s.log, m)
  {
    var before := ops[..i];
    IdleInStep(s, epoch, base, pkts, t0);
    RunInStep(s, before, epoch, base, pkts, t0, lim);
    ArrivedRange(before, epoch, base, pkts, t0, lim.waitMs);
    NotBefore(ops, i, i);
    m := DisturbanceLoses(Run(s, before, lim), s.log, epoch, base, pkts, Arrived(before), t0, ops[i], lim);
    RunSnoc(s, ops, i, lim);
  }

  lemma NotAfter(ops: seq<Op>, i: nat, m: nat)
    requires OnceEach(ops) && i <= |ops| && m in Arrived(ops[..i])
    ensures forall j :: i <= j < |ops| && ops[j].Arrive? ==> ops[j].num != m
  {
    var k := ArrivedAt(ops[..i], m);
    assert ops[k].Arrive? && ops[k].num == m;
  }

  /** When each of any number of packets arrives once within one wait interval, the decoder gets them
      as if sent in order if and only if no packet arrives while 32 earlier arrivals wait for a number
      still missing. */
  lemma InvisibleIffUndisturbed(s: Buffer, ops: seq<Op>, epoch: nat, base: nat, pkts: seq<Packet>, t0: int, lim: Limits)
    requires Idle(s, epoch, base) && Genuine(ops, epoch, base, pkts, t0, lim.waitMs) && OnceEach(ops)
    requires forall n :: base < n <= base + |pkts| ==> n in Arrived(ops)
    ensures Run(s, ops, lim).log == s.log + Reals(epoch, base, pkts, |pkts|) <==> Undisturbed(ops, base)
  {
    if Undisturbed(ops, base) {
      ReorderingIsInvisible(s, ops, epoch, base, pkts, t0, lim);
    } else {
      var m := DisturbedRunLoses(s, ops, epoch, base, pkts, t0, lim);
      var all := Reals(epoch, base, pkts, |pkts|);
      assert (s.log + all)[|s.log|..] == all && all[m - base - 1].num == m;
    }
  }

  /** Numbers `base + 2 .. base + 33`, and only then `base + 1`. */
  function FirstComesLast(epoch: nat, base: nat, pkts: seq<Packet>, clock: Clock): (ops: seq<Op>)
    requires |pkts| == 33
    ensures |ops| == 33 && ops[32] == Arrive(epoch, base + 1, pkts[0], clock)
    ensures forall i :: 0 <= i < 32 ==> ops[i] == Arrive(epoch, base + 2 + i, pkts[i + 1], clock)
  {
    seq(33, i requires 0 <= i < 33 =>
      if i < 32 then Arrive(epoch, base + 2 + i, pkts[i + 1], clock) else Arrive(epoch, base + 1, pkts[0], clock))
  }

  lemma ArrivedSnoc(ops: seq<Op>, i: nat)
    requires i < |ops|
    ensures Arrived(ops[..i + 1]) == Arrived(ops[..i]) + if ops[i].Arrive? then {ops[i].num} else {}
  {
    assert ops[..i + 1][..i] == ops[..i];
  }

  lemma {:induction false} LateFirstArrived(epoch: nat, base: nat, pkts: seq<Packet>, clock: Clock, k: nat)
    requires |pkts| == 33 && k <= 32
    ensures Arrived(FirstComesLast(epoch, base, pkts, clock)[..k]) == Range(base + 2, k)
  {
    if k > 0 {
      ArrivedSnoc(FirstComesLast(epoch, base, pkts, clock), k - 1);
      LateFirstArrived(epoch, base, pkts, clock, k - 1);
    }
  }

  /** While `base + 1` is missing every later number is displaced. */
  lemma LateFirstDisplaces(got: set<nat>, base: nat)
    requires forall x :: x in got ==> base + 1 < x
    ensures Displaced(got, base) == got
    ensures forall x :: x > base ==> !Settled(got, base, x)
  {
    var first := base + 1;
    assert first !in got;
    forall x | x > base ensures !Settled(got, base, x) {
      assert base < first <= x;
    }
  }

  lemma {:induction false} LateFirstUndisturbed(epoch: nat, base: nat, pkts: seq<Packet>, clock: Clock, k: nat)
    requires |pkts| == 33 && k <= 32
    ensures Undisturbed(FirstComesLast(epoch, base, pkts, clock)[..k], base)
  {
    if k > 0 {
      var ops := FirstComesLast(epoch, base, pkts, clock);
      assert ops[..k][..k - 1] == ops[..k - 1];
      LateFirstUndisturbed(epoch, base, pkts, clock, k - 1);
      LateFirstArrived(epoch, base, pkts, clock, k - 1);
      LateFirstDisplaces(Range(base + 2, k - 1), base);
    }
  }

  lemma LateFirstGenuine(epoch: nat, base: nat, pkts: seq<Packet>, clock: Clock, t0: int, waitMs: nat)
    requires |pkts| == 33 && Within(clock, t0, waitMs)
    ensures Genuine(FirstComesLast(epoch, base, pkts, clock)[..32], epoch, base, pkts, t0, waitMs)
  {
  }

  lemma LateFirstDisturbs(epoch: nat, base: nat, pkts: seq<Packet>, clock: Clock)
    requires |pkts| == 33
    ensures var ops := FirstComesLast(epoch, base, pkts, clock);
      var got := Arrived(ops[..32]);
      && ops[32] == Arrive(epoch, base + 1, pkts[0], clock) && base + 1 !in got && Disturbs(got, base, ops[32])
      && base + 2 in Displaced(got, base) && (forall x :: x in got ==> base + 2 <= x)
  {
    LateFirstArrived(epoch, base, pkts, clock, 32);
    LateFirstDisplaces(Range(base + 2, 32), base);
  }

  /** Thirty-three are too many: from every idle buffer, if the first of them arrives last, the
      second is lost, however quickly all of them come. */
  lemma ThirtyThreeAreTooMany(s: Buffer, epoch: nat, base: nat, pkts: seq<Packet>, clock: Clock, t0: int, lim: Limits)
    requires Idle(s, epoch, base) && |pkts| == 33 && Within(clock, t0, lim.waitMs)
    ensures Lost(Run(s, FirstComesLast(epoch, base, pkts, clock), lim), s.log, base + 2)
  {
    var ops := FirstComesLast(epoch, base, pkts, clock);
    IdleInStep(s, epoch, base, pkts, t0);
    LateFirstGenuine(epoch, base, pkts, clock, t0, lim.waitMs);
    LateFirstUndisturbed(epoch, base, pkts, clock, 32);
    RunInStep(s, ops[..32], epoch, base, pkts, t0, lim);
    LateFirstDisturbs(epoch, base, pkts, clock);
    FirstCostsSecond(Run(s, ops[..32], lim), s.log, epoch, base, pkts, Arrived(ops[..32]), t0, ops[32], lim);
    RunSnoc(s, ops, 32, lim);
    assert ops[..33] == ops;
  }

  lemma FirstCostsSecond(s: Buffer, log: seq<Event>, epoch: nat, base: nat, pkts: seq<Packet>, got: set<nat>, t0: int,
                         op: Op, lim: Limits)
    requires Rested(s) && InStep(s, log, epoch, base, pkts, got, t0)
    requires op.Arrive? && op.epoch == epoch && base < op.num && op.num !in got && Disturbs(got, base, op)
    requires base + 2 in Displaced(got, base) && forall x :: x in got ==> base + 2 <= x
    ensures Lost(Apply(s, op, lim), log, base + 2)
  {
    var m := DisturbanceLoses(s, log, epoch, base, pkts, got, t0, op, lim);
  }
}
