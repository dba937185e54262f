/** The hash-chained audit log of core/src/audit.rs. The hash and the redaction of details are
    parameters. The hash may be any function: a result that rests on two texts not colliding names
    the two texts. */
module AuditChain {
  import opened Common
  import opened Text

  type Hash = string -> string

  datatype AuditEvent = AuditEvent(ts: nat, event: string, detail: string, previous: string, hash: string)

  predicate Collide(h: Hash, x: string, y: string) {
    x != y && h(x) == h(y)
  }

  function Preimage(previous: string, ts: nat, event: string, detail: string): string {
    previous + "|" + Decimal(ts) + "|" + event + "|" + detail
  }

  function Hashed(e: AuditEvent): string {
    Preimage(e.previous, e.ts, e.event, e.detail)
  }

  function EventHash(h: Hash, e: AuditEvent): string {
    h(Hashed(e))
  }

  /** Every event carries the hash of its content, and names the hash of the event before it. */
  ghost predicate Chain(h: Hash, es: seq<AuditEvent>) {
    && (forall i :: 0 <= i < |es| ==> es[i].hash == EventHash(h, es[i]))
    && (forall i, j :: 0 <= i && j == i + 1 && j < |es| ==> es[j].previous == es[i].hash)
  }

  method VerifyEvents(h: Hash, events: seq<AuditEvent>) returns (ok: bool)
    ensures ok <==> Chain(h, events)
  {
    var previous := if events == [] then "" else events[0].previous;
    for i := 0 to |events|
      invariant Chain(h, events[..i])
      invariant i < |events| ==> previous == if i == 0 then events[0].previous else events[i - 1].hash
    {
      var item := events[i];
      if item.previous != previous {
        assert i > 0 && events[i].previous != events[i - 1].hash;
        return false;
      }
      var expected := h(Preimage(previous, item.ts, item.event, item.detail));
      if item.hash != expected {
        return false;
      }
      previous := expected;
      ChainSnoc(h, events[..i], item);
      assert events[..i + 1] == events[..i] + [item];
    }
    assert events[..|events|] == events;
    return true;
  }

  lemma ChainSnoc(h: Hash, es: seq<AuditEvent>, e: AuditEvent)
    ensures Chain(h, es + [e]) <==>
      Chain(h, es) && e.hash == EventHash(h, e) && (es != [] ==> e.previous == es[|es| - 1].hash)
  {
    var all := es + [e];
    if Chain(h, all) {
      assert forall i :: 0 <= i < |es| ==> es[i] == all[i];
      assert all[|es|] == e;
    }
  }

  /** Every stretch of a valid chain is a valid chain. */
  lemma ChainSlice(h: Hash, es: seq<AuditEvent>, i: nat, j: nat)
    requires Chain(h, es) && i <= j <= |es|
    ensures Chain(h, es[i..j])
  {
    var s := es[i..j];
    assert forall k :: 0 <= k < |s| ==> s[k] == es[i + k];
  }

  predicate Kept(e: AuditEvent, oldest: nat) {
    e.ts >= oldest
  }

  function Since(oldest: nat): AuditEvent -> bool {
    (e: AuditEvent) => Kept(e, oldest)
  }

  function Retained(es: seq<AuditEvent>, oldest: nat): seq<AuditEvent> {
    Filter(Since(oldest), es)
  }

  predicate Ordered(es: seq<AuditEvent>) {
    forall i, j :: 0 <= i < j < |es| ==> es[i].ts <= es[j].ts
  }

  /** What a log is set up with: at least one event is kept. */
  datatype Setup = Setup(hash: Hash, redact: string -> string, cap: nat)

  function Record(c: Setup, es: seq<AuditEvent>, ts: nat, event: string, detail: string): AuditEvent {
    var previous := if es == [] then "" else es[|es| - 1].hash;
    AuditEvent(ts, event, c.redact(detail), previous, c.hash(Preimage(previous, ts, event, c.redact(detail))))
  }

  function Appended(c: Setup, es: seq<AuditEvent>, ts: nat, event: string, detail: string): seq<AuditEvent> {
    LastN(es + [Record(c, es, ts, event, detail)], c.cap)
  }

  class AuditChain {
    const setup: Setup
    var events: seq<AuditEvent>

    ghost predicate Valid()
      reads this
    {
      setup.cap >= 1 && |events| <= setup.cap
    }

    constructor (hash: Hash, redact: string -> string, maxEvents: nat)
      ensures Valid() && events == [] && setup == Setup(hash, redact, if maxEvents >= 1 then maxEvents else 1)
    {
      setup, events := Setup(hash, redact, if maxEvents >= 1 then maxEvents else 1), [];
    }

    method Append(ts: nat, event: string, detail: string) returns (record: AuditEvent)
      requires Valid()
      modifies this
      ensures Valid() && record == Record(setup, old(events), ts, event, detail)
      ensures events == Appended(setup, old(events), ts, event, detail) && events[|events| - 1] == record
      ensures record.ts == ts && record.event == event && record.detail == setup.redact(detail)
    {
      var previous := if events == [] then "" else events[|events| - 1].hash;
      var normalized := setup.redact(detail);
      var hash := setup.hash(Preimage(previous, ts, event, normalized));
      record := AuditEvent(ts, event, normalized, previous, hash);
      events := events + [record];
      if |events| > setup.cap {
        var drop := |events| - setup.cap;
        events := events[drop..];
      }
    }

    method Verify() returns (ok: bool)
      ensures ok <==> Chain(setup.hash, events)
    {
      ok := VerifyEvents(setup.hash, events);
    }

    method RetainSince(oldest: nat)
      requires Valid()
      modifies this
      ensures Valid() && events == Retained(old(events), oldest)
      ensures forall e :: e in events <==> e in old(events) && e.ts >= oldest
    {
      var kept := [];
      RetainedMembers(events, oldest);
      for i := 0 to |events|
        invariant kept == Retained(events[..i], oldest) && |kept| <= i
      {
        assert events[..i + 1][..i] == events[..i];
        if events[i].ts >= oldest {
          kept := kept + [events[i]];
        }
      }
      assert events[..|events|] == events;
      events := kept;
    }

    method Clear()
      requires Valid()
      modifies this
      ensures Valid() && events == []
    {
      events := [];
    }
  }

  lemma {:induction false} RetainedMembers(es: seq<AuditEvent>, oldest: nat)
    ensures forall e :: e in Retained(es, oldest) <==> e in es && e.ts >= oldest
  {
    if es != [] {
      RetainedMembers(es[..|es| - 1], oldest);
      assert es == es[..|es| - 1] + [es[|es| - 1]];
    }
  }

  /* ---- Runs ---- */

  datatype Op = Append(ts: nat, event: string, detail: string) | Retain(oldest: nat) | Clear

  function Apply(c: Setup, es: seq<AuditEvent>, op: Op): seq<AuditEvent> {
    match op
    case Append(ts, event, detail) => Appended(c, es, ts, event, detail)
    case Retain(oldest) => Retained(es, oldest)
    case Clear => []
  }

  function Run(c: Setup, ops: seq<Op>): seq<AuditEvent> {
    if ops == [] then [] else Apply(c, Run(c, ops[..|ops| - 1]), ops[|ops| - 1])
  }

  lemma AppendKeepsChain(c: Setup, es: seq<AuditEvent>, ts: nat, event: string, detail: string)
    requires Chain(c.hash, es)
    ensures Chain(c.hash, Appended(c, es, ts, event, detail))
  {
    var all := es + [Record(c, es, ts, event, detail)];
    ChainSnoc(c.hash, es, Record(c, es, ts, event, detail));
    var drop := |all| - |LastN(all, c.cap)|;
    ChainSlice(c.hash, all, drop, |all|);
    assert all[drop..|all|] == LastN(all, c.cap);
  }

  /** With non-decreasing timestamps, retention keeps the chain valid: it cuts off the front. */
  lemma RetainKeepsChain(h: Hash, es: seq<AuditEvent>, oldest: nat) returns (k: nat)
    requires Chain(h, es) && Ordered(es)
    ensures k <= |es| && Retained(es, oldest) == es[k..] && Chain(h, es[k..])
  {
    k := FilterIsSuffix(Since(oldest), es);
    ChainSlice(h, es, k, |es|);
    assert es[k..|es|] == es[k..];
  }

  /** The clock has not run backwards since the events were recorded. */
  ghost predicate Past(es: seq<AuditEvent>, ts: nat) {
    forall i :: 0 <= i < |es| ==> es[i].ts <= ts
  }

  ghost predicate Sound(c: Setup, es: seq<AuditEvent>, ts: nat) {
    Chain(c.hash, es) && Ordered(es) && Past(es, ts)
  }

  lemma SuffixSound(es: seq<AuditEvent>, k: nat, ts: nat)
    requires k <= |es| && Ordered(es) && Past(es, ts)
    ensures Ordered(es[k..]) && Past(es[k..], ts)
  {
  }

  lemma ApplyKeepsSound(c: Setup, es: seq<AuditEvent>, op: Op, ts: nat)
    requires Sound(c, es, ts) && (op.Append? ==> ts <= op.ts)
    ensures Sound(c, Apply(c, es, op), if op.Append? then op.ts else ts)
  {
    match op
    case Append(now, event, detail) =>
      AppendKeepsChain(c, es, now, event, detail);
      var all := es + [Record(c, es, now, event, detail)];
      SuffixSound(all, |all| - |LastN(all, c.cap)|, now);
    case Retain(oldest) =>
      var k := RetainKeepsChain(c.hash, es, oldest);
      SuffixSound(es, k, ts);
    case Clear =>
  }

  /** The stamp of the last append, or 0. */
  function LastStamp(ops: seq<Op>): nat {
    if ops == [] then 0
    else if ops[|ops| - 1].Append? then ops[|ops| - 1].ts
    else LastStamp(ops[..|ops| - 1])
  }

  ghost predicate StampsRise(ops: seq<Op>) {
    ops == [] || (
      var init, op := ops[..|ops| - 1], ops[|ops| - 1];
      StampsRise(init) && (op.Append? ==> LastStamp(init) <= op.ts))
  }

  /** Any run of appends on a clock that does not run backwards, of retentions and of clears, with
      old events dropped at the cap all along, leaves a log that verifies. */
  lemma {:induction false} RunStaysVerifiable(c: Setup, ops: seq<Op>)
    requires StampsRise(ops)
    ensures Sound(c, Run(c, ops), LastStamp(ops))
  {
    if ops != [] {
      var init := ops[..|ops| - 1];
      RunStaysVerifiable(c, init);
      ApplyKeepsSound(c, Run(c, init), ops[|ops| - 1], LastStamp(init));
    }
  }

  /** Whatever the clock does, appends and clears alone do too. */
  lemma {:induction false} AppendsStayVerifiable(c: Setup, ops: seq<Op>)
    requires forall i :: 0 <= i < |ops| ==> !ops[i].Retain?
    ensures Chain(c.hash, Run(c, ops))
  {
    if ops != [] {
      var init, op := ops[..|ops| - 1], ops[|ops| - 1];
      AppendsStayVerifiable(c, init);
      if op.Append? {
        AppendKeepsChain(c, Run(c, init), op.ts, op.event, op.detail);
      }
    }
  }

  /** Some append of the run recorded the event: its stamp and text as given, its detail redacted. */
  ghost predicate Recorded(c: Setup, ops: seq<Op>, e: AuditEvent) {
    exists op :: op in ops && op.Append? && e.ts == op.ts && e.event == op.event && e.detail == c.redact(op.detail)
  }

  lemma ApplyMembers(c: Setup, es: seq<AuditEvent>, op: Op, e: AuditEvent)
    requires e in Apply(c, es, op)
    ensures e in es || (op.Append? && e.ts == op.ts && e.event == op.event && e.detail == c.redact(op.detail))
  {
    if op.Retain? {
      RetainedMembers(es, op.oldest);
    }
  }

  /** Nothing is stored that was not appended, and no detail is stored unredacted. */
  lemma {:induction false} RunRecords(c: Setup, ops: seq<Op>)
    ensures forall e :: e in Run(c, ops) ==> Recorded(c, ops, e)
  {
    if ops != [] {
      var init, op := ops[..|ops| - 1], ops[|ops| - 1];
      RunRecords(c, init);
      forall e | e in Run(c, ops) ensures Recorded(c, ops, e) {
        ApplyMembers(c, Run(c, init), op, e);
        if e in Run(c, init) {
          var o :| o in init && o.Append? && e.ts == o.ts && e.event == o.event && e.detail == c.redact(o.detail);
          assert o in ops;
        } else {
          assert op in ops;
        }
      }
    }
  }

  /* ---- Retention on any clock ---- */

  /** The events kept stand next to each other in the log. */
  ghost predicate Contiguous(es: seq<AuditEvent>, oldest: nat) {
    forall i, j, k :: 0 <= i < j < k < |es| && Kept(es[i], oldest) && Kept(es[k], oldest) ==> Kept(es[j], oldest)
  }

  ghost predicate DistinctHashes(es: seq<AuditEvent>) {
    forall i, j :: 0 <= i < j < |es| ==> es[i].hash != es[j].hash
  }

  /** `p` is the position of the last event kept, or -1. */
  ghost predicate IsLastKept(es: seq<AuditEvent>, oldest: nat, p: int) {
    && -1 <= p < |es| && (p >= 0 ==> Kept(es[p], oldest))
    && (forall i :: p < i < |es| ==> !Kept(es[i], oldest))
  }

  /** The last event kept is the last element of what is retained. */
  lemma {:induction false} LastRetained(es: seq<AuditEvent>, oldest: nat) returns (p: int)
    ensures IsLastKept(es, oldest, p)
    ensures p < 0 <==> Retained(es, oldest) == []
    ensures p >= 0 ==> Retained(es, oldest)[|Retained(es, oldest)| - 1] == es[p]
  {
    if es == [] {
      p := -1;
    } else if Kept(es[|es| - 1], oldest) {
      p := |es| - 1;
    } else {
      var init := es[..|es| - 1];
      p := LastRetained(init, oldest);
      forall i | p < i < |es| ensures !Kept(es[i], oldest) {
        assert i < |init| ==> init[i] == es[i];
      }
    }
  }

  lemma ContiguousSnoc(init: seq<AuditEvent>, e: AuditEvent, oldest: nat, p: int)
    requires IsLastKept(init, oldest, p)
    ensures !Kept(e, oldest) ==> (Contiguous(init + [e], oldest) <==> Contiguous(init, oldest))
    ensures Kept(e, oldest) ==>
      (Contiguous(init + [e], oldest) <==> Contiguous(init, oldest) && (p < 0 || p == |init| - 1))
  {
    var es := init + [e];
    assert forall i :: 0 <= i < |init| ==> es[i] == init[i];
    if Contiguous(es, oldest) {
      ContiguousPrefix(es, oldest, |init|);
      assert es[..|init|] == init;
    }
    if Kept(e, oldest) && 0 <= p < |init| - 1 {
      NotContiguous(es, oldest, p, |init| - 1, |init|);
    }
  }

  lemma NotContiguous(es: seq<AuditEvent>, oldest: nat, i: nat, j: nat, k: nat)
    requires i < j < k < |es| && Kept(es[i], oldest) && !Kept(es[j], oldest) && Kept(es[k], oldest)
    ensures !Contiguous(es, oldest)
  {
  }

  lemma ContiguousPrefix(es: seq<AuditEvent>, oldest: nat, n: nat)
    requires Contiguous(es, oldest) && n <= |es|
    ensures Contiguous(es[..n], oldest)
  {
    assert forall i :: 0 <= i < n ==> es[..n][i] == es[i];
  }

  /** Retention keeps a valid chain valid if and only if the events it keeps stand next to each other. */
  lemma {:induction false} RetainKeepsChainIff(h: Hash, es: seq<AuditEvent>, oldest: nat)
    requires Chain(h, es) && DistinctHashes(es)
    ensures Chain(h, Retained(es, oldest)) <==> Contiguous(es, oldest)
  {
    if es != [] {
      var init, e := es[..|es| - 1], es[|es| - 1];
      assert es == init + [e];
      RetainSnoc(init, e, oldest);
      ChainSnoc(h, init, e);
      assert DistinctHashes(init);
      RetainKeepsChainIff(h, init, oldest);
      if Kept(e, oldest) {
        var adjacent := KeepOneMore(h, init, e, oldest);
      } else {
        var p := LastRetained(init, oldest);
        ContiguousSnoc(init, e, oldest, p);
      }
    }
  }

  lemma RetainSnoc(init: seq<AuditEvent>, e: AuditEvent, oldest: nat)
    ensures Retained(init + [e], oldest) == if Kept(e, oldest) then Retained(init, oldest) + [e] else Retained(init, oldest)
  {
    assert (init + [e])[..|init|] == init;
  }

  lemma KeepOneMore(h: Hash, init: seq<AuditEvent>, e: AuditEvent, oldest: nat) returns (adjacent: bool)
    requires Chain(h, init + [e]) && DistinctHashes(init + [e]) && Kept(e, oldest)
    ensures Chain(h, Retained(init, oldest) + [e]) <==> Chain(h, Retained(init, oldest)) && adjacent
    ensures Contiguous(init + [e], oldest) <==> Contiguous(init, oldest) && adjacent
  {
    var p := LastRetained(init, oldest);
    ContiguousSnoc(init, e, oldest, p);
    ChainSnoc(h, init, e);
    ChainSnoc(h, Retained(init, oldest), e);
    adjacent := p < 0 || p == |init| - 1;
    if p >= 0 {
      LinkSkips(h, init + [e], p);
    }
  }

  /** The last event of a valid chain continues the event at `p` only if that is the one before it. */
  lemma LinkSkips(h: Hash, es: seq<AuditEvent>, p: nat)
    requires Chain(h, es) && DistinctHashes(es) && p < |es| - 1
    ensures es[|es| - 1].previous == es[p].hash <==> p == |es| - 2
  {
    assert es[|es| - 1].previous == es[|es| - 2].hash;
  }

  predicate Stamped(es: seq<AuditEvent>, ops: seq<Op>, k: nat) {
    k <= |ops| && |es| == k && forall i :: 0 <= i < k ==> ops[i].Append? && es[i].ts == ops[i].ts
  }

  lemma AppendStamps(c: Setup, es: seq<AuditEvent>, ops: seq<Op>, k: nat)
    requires Stamped(es, ops, k) && k < |ops| && ops[k].Append? && k < c.cap
    ensures Stamped(Apply(c, es, ops[k]), ops, k + 1)
  {
  }

  lemma RunSnoc(c: Setup, ops: seq<Op>, k: nat)
    requires k < |ops|
    ensures Run(c, ops[..k + 1]) == Apply(c, Run(c, ops[..k]), ops[k])
  {
    assert ops[..k + 1][..k] == ops[..k];
  }

  /** Appends within the cap record their stamps in order. */
  lemma {:induction false} RunStamps(c: Setup, ops: seq<Op>, k: nat)
    requires k <= |ops| <= c.cap && forall i :: 0 <= i < |ops| ==> ops[i].Append?
    ensures Stamped(Run(c, ops[..k]), ops, k)
  {
    if k > 0 {
      RunStamps(c, ops, k - 1);
      RunSnoc(c, ops, k - 1);
      AppendStamps(c, Run(c, ops[..k - 1]), ops, k - 1);
    }
  }

  /** Three events form a chain; a retention keeps the first and the third, and then they do not. */
  ghost predicate BreaksOnRetention(h: Hash, es: seq<AuditEvent>, oldest: nat) {
    && |es| == 3 && Chain(h, es)
    && Retained(es, oldest) == [es[0], es[2]]
    && (es[0].hash != es[1].hash ==> !Chain(h, Retained(es, oldest)))
  }

  /** A clock that runs back once is enough to break the chain: three appends and a retention. */
  lemma BackwardClockBreaksChain(c: Setup, ops: seq<Op>, oldest: nat)
    requires c.cap >= 3 && |ops| == 3 && forall i :: 0 <= i < 3 ==> ops[i].Append?
    requires ops[1].ts < oldest <= ops[0].ts && oldest <= ops[2].ts
    ensures BreaksOnRetention(c.hash, Run(c, ops), oldest)
  {
    AppendsStayVerifiable(c, ops);
    RunStamps(c, ops, 3);
    assert ops[..3] == ops;
    StampsBreak(c.hash, Run(c, ops), ops, oldest);
  }

  lemma StampsBreak(h: Hash, es: seq<AuditEvent>, ops: seq<Op>, oldest: nat)
    requires Chain(h, es) && Stamped(es, ops, 3) && |ops| == 3
    requires ops[1].ts < oldest <= ops[0].ts && oldest <= ops[2].ts
    ensures BreaksOnRetention(h, es, oldest)
  {
    SkippedLinkBreaks(h, es, oldest);
  }

  lemma SkippedLinkBreaks(h: Hash, es: seq<AuditEvent>, oldest: nat)
    requires |es| == 3 && Chain(h, es) && es[1].ts < oldest <= es[0].ts && oldest <= es[2].ts
    ensures Retained(es, oldest) == [es[0], es[2]] && (es[0].hash != es[1].hash ==> !Chain(h, [es[0], es[2]]))
  {
    assert es == [es[0], es[1], es[2]];
    RetainedPair(es[0], es[1], es[2], oldest);
    var two := [es[0], es[2]];
    assert es[2].previous == es[1].hash;
    assert Chain(h, two) ==> two[1].previous == two[0].hash;
  }

  lemma RetainedPair(a: AuditEvent, b: AuditEvent, d: AuditEvent, oldest: nat)
    requires Kept(a, oldest) && !Kept(b, oldest) && Kept(d, oldest)
    ensures Retained([a, b, d], oldest) == [a, d]
  {
    FilterAll(Since(oldest), [a]);
    assert Retained([a, b], oldest) == [a] by {
      RetainSnoc([a], b, oldest);
      assert [a] + [b] == [a, b];
    }
    RetainSnoc([a, b], d, oldest);
    assert [a, b] + [d] == [a, b, d] && [a] + [d] == [a, d];
  }

  /* ---- Tampering ---- */

  predicate OneFieldChanged(a: AuditEvent, b: AuditEvent) {
    a != b && (
      || b == a.(ts := b.ts) || b == a.(event := b.event) || b == a.(detail := b.detail)
      || b == a.(previous := b.previous) || b == a.(hash := b.hash))
  }

  lemma PreviousMatters(p: string, q: string, ts: nat, event: string, detail: string)
    requires Preimage(p, ts, event, detail) == Preimage(q, ts, event, detail)
    ensures p == q
  {
    var rest := "|" + Decimal(ts) + "|" + event + "|" + detail;
    assert Preimage(p, ts, event, detail) == "" + p + rest && Preimage(q, ts, event, detail) == "" + q + rest;
    Cancel("", p, q, rest);
  }

  lemma StampMatters(previous: string, s: nat, t: nat, event: string, detail: string)
    requires Preimage(previous, s, event, detail) == Preimage(previous, t, event, detail)
    ensures s == t
  {
    var pre, post := previous + "|", "|" + event + "|" + detail;
    assert Preimage(previous, s, event, detail) == pre + Decimal(s) + post;
    assert Preimage(previous, t, event, detail) == pre + Decimal(t) + post;
    Cancel(pre, Decimal(s), Decimal(t), post);
    DecimalInjective(s, t);
  }

  /** Previous hash and stamp being the same, the hashed texts agree exactly when event and detail do
      after they are joined. */
  lemma JoinedMatters(previous: string, ts: nat, e: string, d: string, e': string, d': string)
    ensures Preimage(previous, ts, e, d) == Preimage(previous, ts, e', d') <==> e + "|" + d == e' + "|" + d'
  {
    var pre := previous + "|" + Decimal(ts) + "|";
    assert Preimage(previous, ts, e, d) == pre + (e + "|" + d) + "";
    assert Preimage(previous, ts, e', d') == pre + (e' + "|" + d') + "";
    if Preimage(previous, ts, e, d) == Preimage(previous, ts, e', d') {
      Cancel(pre, e + "|" + d, e' + "|" + d', "");
    }
  }

  lemma EventMatters(e: string, e': string, d: string)
    requires e + "|" + d == e' + "|" + d
    ensures e == e'
  {
    assert e + "|" + d == "" + e + ("|" + d) && e' + "|" + d == "" + e' + ("|" + d);
    Cancel("", e, e', "|" + d);
  }

  lemma DetailMatters(e: string, d: string, d': string)
    requires e + "|" + d == e + "|" + d'
    ensures d == d'
  {
    assert e + "|" + d == (e + "|") + d + "" && e + "|" + d' == (e + "|") + d' + "";
    Cancel(e + "|", d, d', "");
  }

  /** A change of one field other than the hash changes the text that is hashed. */
  lemma TextDiffers(a: AuditEvent, b: AuditEvent)
    requires OneFieldChanged(a, b) && a.hash == b.hash
    ensures Hashed(a) != Hashed(b)
  {
    if Hashed(a) == Hashed(b) {
      if a.previous != b.previous {
        PreviousMatters(a.previous, b.previous, a.ts, a.event, a.detail);
      } else if a.ts != b.ts {
        StampMatters(a.previous, a.ts, b.ts, a.event, a.detail);
      } else {
        JoinedMatters(a.previous, a.ts, a.event, a.detail, b.event, b.detail);
        if a.event != b.event {
          EventMatters(a.event, b.event, a.detail);
        } else {
          DetailMatters(a.event, a.detail, b.detail);
        }
      }
    }
  }

  /** Changing any single field of any one stored event is detected, unless the old and the new text
      of that event are a collision of the hash. */
  lemma TamperIsDetected(h: Hash, es: seq<AuditEvent>, i: nat, e: AuditEvent)
    requires Chain(h, es) && i < |es| && OneFieldChanged(es[i], e)
    ensures Chain(h, es[i := e]) ==> Collide(h, Hashed(es[i]), Hashed(e))
  {
    assert es[i := e][i] == e;
    if e.hash == es[i].hash {
      TextDiffers(es[i], e);
    }
  }

  /** What single-field detection does not cover: the text that is hashed joins event and detail with
      a separator either may contain. Rewriting both at once stays undetected if and only if the
      joined text is the same or the two texts are a collision of the hash. */
  lemma JointTamper(h: Hash, es: seq<AuditEvent>, i: nat, event: string, detail: string)
    requires Chain(h, es) && i < |es|
    ensures var b := es[i].(event := event, detail := detail);
      Chain(h, es[i := b]) <==>
      event + "|" + detail == es[i].event + "|" + es[i].detail || Collide(h, Hashed(es[i]), Hashed(b))
  {
    var a := es[i];
    var b := a.(event := event, detail := detail);
    JoinedMatters(a.previous, a.ts, a.event, a.detail, event, detail);
    SameLinks(h, es, i, b);
  }

  /** An event that keeps its place in the chain keeps the chain valid exactly when its hash is right. */
  lemma SameLinks(h: Hash, es: seq<AuditEvent>, i: nat, b: AuditEvent)
    requires Chain(h, es) && i < |es| && b.hash == es[i].hash && b.previous == es[i].previous
    ensures Chain(h, es[i := b]) <==> EventHash(h, b) == EventHash(h, es[i])
  {
    var fs := es[i := b];
    assert fs[i] == b;
    assert forall k :: 0 <= k < |fs| ==> fs[k].hash == es[k].hash && fs[k].previous == es[k].previous;
  }

  /** Such a rewriting exists. */
  lemma JointTamperExample()
    ensures Preimage("p", 1, "a|b", "c") == "p|1|a|b|c" == Preimage("p", 1, "a", "b|c")
  {
  }
}
