/** Limits on wake pushes in the relay's `PttRoom`, for every interleaving of suspended calls of
    `firePushesForOfflinePeers` (cloudflare-worker/src/ptt-relay.js).

    A call runs in turns. Its first turn renews the window and checks the budget; it then awaits the
    presence list, and later handles one row after the other, awaiting each push. Between any two of
    its turns, turns of other calls may run. */
module PushLimits {
  import opened RelayRoom

  /** What a run leaves behind: window resets, and pushes with the stamp recorded for the peer. */
  datatype Event = Reset(at: int) | Push(at: int, peer: nat, stamp: int)

  /** Calls in flight, by an id, each with the `now` it captured in its first turn. */
  datatype Relay = Relay(budget: Budget, calls: map<nat, int>, trace: seq<Event>)

  const Fresh: Relay := Relay(Budget(0, 0, map[]), map[], [])

  /** Turns, with the clock at which they run: a call enters, handles a row, or ends. */
  datatype Turn =
    | Enter(at: int, id: nat, now: int)
    | Row(at: int, id: nat, peer: nat, attached: bool)
    | Leave(at: int, id: nat)

  function Take(r: Relay, t: Turn): Relay {
    match t
    case Enter(at, id, now) =>
      var (b, proceed) := Entered(r.budget, at);
      Relay(b,
            if proceed && id !in r.calls then r.calls[id := now] else r.calls,
            r.trace + if b.windowStart != r.budget.windowStart then [Reset(at)] else [])
    case Row(at, id, peer, attached) =>
      if id !in r.calls then r
      else
        var (b, outcome) := Tried(r.budget, peer, attached, r.calls[id]);
        Relay(b,
              if outcome.Exhausted? then r.calls - {id} else r.calls,
              r.trace + if outcome.Pushed? then [Push(at, peer, r.calls[id])] else [])
    case Leave(_, id) => r.(calls := r.calls - {id})
  }

  function Run(ts: seq<Turn>): Relay {
    if ts == [] then Fresh else Take(Run(ts[..|ts| - 1]), ts[|ts| - 1])
  }

  function Pushes(es: seq<Event>): nat {
    if es == [] then 0 else Pushes(es[..|es| - 1]) + if es[|es| - 1].Push? then 1 else 0
  }

  /** The pushes after the last reset. */
  function SinceReset(es: seq<Event>): nat {
    if es == [] || es[|es| - 1].Reset? then 0 else 1 + SinceReset(es[..|es| - 1])
  }

  ghost predicate NoReset(es: seq<Event>) {
    forall i :: 0 <= i < |es| ==> es[i].Push?
  }

  /** At every moment at most 30 pushes since the last reset. */
  ghost predicate WithinBudget(es: seq<Event>) {
    forall k :: 0 <= k <= |es| ==> SinceReset(es[..k]) <= FCM_ROOM_PUSH_BUDGET
  }

  ghost predicate ResetsApart(es: seq<Event>) {
    forall i, j :: 0 <= i < j < |es| && es[i].Reset? && es[j].Reset? ==> es[j].at - es[i].at > FCM_ROOM_PUSH_WINDOW_MS
  }

  /** Successive stamps of one peer are at least 10 s apart. */
  ghost predicate StampsApart(es: seq<Event>) {
    forall i, j :: 0 <= i < j < |es| && es[i].Push? && es[j].Push? && es[i].peer == es[j].peer ==>
      es[j].stamp - es[i].stamp >= 10_000
  }

  ghost predicate CountExact(b: Budget, es: seq<Event>) {
    b.count == SinceReset(es) && WithinBudget(es)
  }

  ghost predicate WindowExact(b: Budget, es: seq<Event>) {
    ResetsApart(es) && forall i :: 0 <= i < |es| && es[i].Reset? ==> es[i].at <= b.windowStart
  }

  ghost predicate StampsExact(b: Budget, es: seq<Event>) {
    && StampsApart(es)
    && (forall i :: 0 <= i < |es| && es[i].Push? ==> es[i].peer in b.last && es[i].stamp <= b.last[es[i].peer])
  }

  ghost predicate Inv(r: Relay) {
    CountExact(r.budget, r.trace) && WindowExact(r.budget, r.trace) && StampsExact(r.budget, r.trace)
  }

  lemma WithinBudgetSnoc(es: seq<Event>, e: Event)
    requires WithinBudget(es) && SinceReset(es + [e]) <= FCM_ROOM_PUSH_BUDGET
    ensures WithinBudget(es + [e])
  {
    forall k | 0 <= k <= |es + [e]| ensures SinceReset((es + [e])[..k]) <= FCM_ROOM_PUSH_BUDGET {
      if k <= |es| {
        assert (es + [e])[..k] == es[..k];
      } else {
        assert (es + [e])[..k] == es + [e];
      }
    }
  }

  lemma ResetKeepsInv(r: Relay, at: int, calls: map<nat, int>)
    requires Inv(r) && at - r.budget.windowStart > FCM_ROOM_PUSH_WINDOW_MS
    ensures Inv(Relay(r.budget.(windowStart := at, count := 0), calls, r.trace + [Reset(at)]))
  {
    WithinBudgetSnoc(r.trace, Reset(at));
  }

  lemma PushKeepsInv(r: Relay, at: int, peer: nat, now: int, calls: map<nat, int>)
    requires Inv(r) && r.budget.count < FCM_ROOM_PUSH_BUDGET && now - LastPush(r.budget, peer) >= FCM_PUSH_COOLDOWN_MS
    ensures Inv(Relay(r.budget.(count := r.budget.count + 1, last := r.budget.last[peer := now]), calls,
                      r.trace + [Push(at, peer, now)]))
  {
    CountSnoc(r.budget, r.trace, at, peer, now);
    WindowSnoc(r.budget, r.trace, at, peer, now);
    StampsSnoc(r.budget, r.trace, at, peer, now);
  }

  lemma CountSnoc(b: Budget, es: seq<Event>, at: int, peer: nat, now: int)
    requires CountExact(b, es) && b.count < FCM_ROOM_PUSH_BUDGET
    ensures CountExact(b.(count := b.count + 1, last := b.last[peer := now]), es + [Push(at, peer, now)])
  {
    var e := Push(at, peer, now);
    assert (es + [e])[..|es|] == es;
    WithinBudgetSnoc(es, e);
  }

  lemma WindowSnoc(b: Budget, es: seq<Event>, at: int, peer: nat, now: int)
    requires WindowExact(b, es)
    ensures WindowExact(b.(count := b.count + 1, last := b.last[peer := now]), es + [Push(at, peer, now)])
  {
  }

  lemma StampsSnoc(b: Budget, es: seq<Event>, at: int, peer: nat, now: int)
    requires StampsExact(b, es) && now - LastPush(b, peer) >= FCM_PUSH_COOLDOWN_MS
    ensures StampsExact(b.(count := b.count + 1, last := b.last[peer := now]), es + [Push(at, peer, now)])
  {
  }

  lemma TakeKeepsInv(r: Relay, t: Turn)
    requires Inv(r)
    ensures Inv(Take(r, t))
  {
    var n := Take(r, t);
    match t
    case Enter(at, id, now) =>
      if at - r.budget.windowStart > FCM_ROOM_PUSH_WINDOW_MS {
        ResetKeepsInv(r, at, n.calls);
      } else {
        assert n.trace == r.trace;
      }
    case Row(at, id, peer, attached) =>
      if id in r.calls && Tried(r.budget, peer, attached, r.calls[id]).1.Pushed? {
        PushKeepsInv(r, at, peer, r.calls[id], n.calls);
      } else {
        assert n.trace == r.trace;
      }
    case Leave(_, _) =>
  }

  lemma {:induction false} RunKeepsInv(ts: seq<Turn>)
    ensures Inv(Run(ts))
  {
    if ts == [] {
      assert SinceReset(Fresh.trace) == 0;
    } else {
      RunKeepsInv(ts[..|ts| - 1]);
      TakeKeepsInv(Run(ts[..|ts| - 1]), ts[|ts| - 1]);
    }
  }

  /* ---- The limits ---- */

  lemma {:induction false} PushesAppend(a: seq<Event>, b: seq<Event>)
    ensures Pushes(a + b) == Pushes(a) + Pushes(b)
  {
    if b == [] {
      assert a + b == a;
    } else {
      assert (a + b)[..|a + b| - 1] == a + b[..|b| - 1];
      PushesAppend(a, b[..|b| - 1]);
    }
  }

  lemma {:induction false} QuietStretch(es: seq<Event>, i: nat)
    requires i <= |es| && NoReset(es[i..])
    ensures Pushes(es[i..]) <= SinceReset(es)
  {
    if i < |es| {
      var n := |es| - 1;
      assert es[i..][|es| - i - 1] == es[n];
      assert es[..n][i..] == es[i..][..|es| - i - 1];
      QuietStretch(es[..n], i);
    }
  }

  lemma StretchWithinBudget(es: seq<Event>, i: nat, j: nat)
    requires WithinBudget(es) && i <= j <= |es| && NoReset(es[i..j])
    ensures Pushes(es[i..j]) <= FCM_ROOM_PUSH_BUDGET
  {
    assert es[..j][i..] == es[i..j];
    QuietStretch(es[..j], i);
  }

  /** In every run, however the calls interleave: no stretch without a window reset holds more than
      30 pushes, and the stamps recorded for one peer's pushes are at least 10 s apart. */
  lemma PushesBetweenResets(ts: seq<Turn>, i: nat, j: nat)
    requires i <= j <= |Run(ts).trace| && NoReset(Run(ts).trace[i..j])
    ensures Pushes(Run(ts).trace[i..j]) <= 30
    ensures StampsApart(Run(ts).trace)
  {
    RunKeepsInv(ts);
    StretchWithinBudget(Run(ts).trace, i, j);
  }

  ghost predicate Monotone(es: seq<Event>) {
    forall i, j :: 0 <= i < j < |es| ==> es[i].at <= es[j].at
  }

  /** On a clock that does not run backwards, any 60 s hold at most 60 pushes. */
  lemma PushesPerMinute(ts: seq<Turn>, i: nat, j: nat)
    requires i < j <= |Run(ts).trace| && Monotone(Run(ts).trace)
    requires Run(ts).trace[j - 1].at - Run(ts).trace[i].at <= 60_000
    ensures Pushes(Run(ts).trace[i..j]) <= 60
  {
    RunKeepsInv(ts);
    SpanWithinTwoBudgets(Run(ts).trace, i, j);
  }

  lemma SpanWithinTwoBudgets(es: seq<Event>, i: nat, j: nat)
    requires WithinBudget(es) && ResetsApart(es) && Monotone(es)
    requires i < j <= |es| && es[j - 1].at - es[i].at <= FCM_ROOM_PUSH_WINDOW_MS
    ensures Pushes(es[i..j]) <= 2 * FCM_ROOM_PUSH_BUDGET
  {
    if NoReset(es[i..j]) {
      StretchWithinBudget(es, i, j);
    } else {
      var q :| 0 <= q < j - i && !es[i..j][q].Push?;
      var p := i + q;
      SpanHasOneReset(es, i, j, p);
      StretchWithinBudget(es, i, p);
      StretchWithinBudget(es, p + 1, j);
      SplitAtReset(es, i, p, j);
    }
  }

  lemma SplitAtReset(es: seq<Event>, i: nat, p: nat, j: nat)
    requires i <= p < j <= |es| && es[p].Reset?
    ensures Pushes(es[i..j]) == Pushes(es[i..p]) + Pushes(es[p + 1..j])
  {
    assert es[i..j] == es[i..p + 1] + es[p + 1..j];
    PushesAppend(es[i..p + 1], es[p + 1..j]);
    assert es[i..p + 1][..p - i] == es[i..p];
  }

  lemma SpanHasOneReset(es: seq<Event>, i: nat, j: nat, p: nat)
    requires i <= p < j <= |es| && Monotone(es) && ResetsApart(es) && es[p].Reset?
    requires es[j - 1].at - es[i].at <= FCM_ROOM_PUSH_WINDOW_MS
    ensures NoReset(es[i..p]) && NoReset(es[p + 1..j])
  {
    forall k | i <= k < j && k != p ensures es[k].Push? {
      var lo, hi := if k < p then k else p, if k < p then p else k;
      var from, to := es[lo].at, es[hi].at;
      assert es[i].at <= from && to <= es[j - 1].at;
      assert es[k].Reset? ==> to - from > FCM_ROOM_PUSH_WINDOW_MS;
    }
  }

  /* ---- Who is pushed ---- */

  /** The start of the window: the last reset, or 0. */
  function LastReset(es: seq<Event>): int {
    if es == [] then 0
    else if es[|es| - 1].Reset? then es[|es| - 1].at
    else LastReset(es[..|es| - 1])
  }

  /** The stamp of the peer's last push, or 0. */
  function LastStamp(es: seq<Event>, peer: nat): int {
    if es == [] then 0
    else if es[|es| - 1].Push? && es[|es| - 1].peer == peer then es[|es| - 1].stamp
    else LastStamp(es[..|es| - 1], peer)
  }

  /** The room's counters say what its trace says. */
  ghost predicate Mirrors(r: Relay) {
    && r.budget.count == SinceReset(r.trace) && r.budget.windowStart == LastReset(r.trace)
    && (forall peer :: LastPush(r.budget, peer) == LastStamp(r.trace, peer))
  }

  lemma ResetMirrors(r: Relay, at: int, calls: map<nat, int>)
    requires Mirrors(r)
    ensures Mirrors(Relay(r.budget.(windowStart := at, count := 0), calls, r.trace + [Reset(at)]))
  {
    var es := r.trace + [Reset(at)];
    assert es[..|es| - 1] == r.trace;
    assert forall peer :: LastStamp(es, peer) == LastStamp(r.trace, peer);
  }

  lemma PushMirrors(r: Relay, at: int, peer: nat, now: int, calls: map<nat, int>)
    requires Mirrors(r)
    ensures Mirrors(Relay(r.budget.(count := r.budget.count + 1, last := r.budget.last[peer := now]), calls,
                          r.trace + [Push(at, peer, now)]))
  {
    var es := r.trace + [Push(at, peer, now)];
    assert es[..|es| - 1] == r.trace;
    assert forall p :: LastStamp(es, p) == if p == peer then now else LastStamp(r.trace, p);
  }

  lemma TakeMirrors(r: Relay, t: Turn)
    requires Mirrors(r)
    ensures Mirrors(Take(r, t))
  {
    var n := Take(r, t);
    match t
    case Enter(at, id, now) =>
      if at - r.budget.windowStart > FCM_ROOM_PUSH_WINDOW_MS {
        ResetMirrors(r, at, n.calls);
      } else {
        assert n.trace == r.trace;
      }
    case Row(at, id, peer, attached) =>
      if id in r.calls && Tried(r.budget, peer, attached, r.calls[id]).1.Pushed? {
        PushMirrors(r, at, peer, r.calls[id], n.calls);
      } else {
        assert n.trace == r.trace;
      }
    case Leave(_, _) =>
  }

  lemma {:induction false} RunMirrors(ts: seq<Turn>)
    ensures Mirrors(Run(ts))
  {
    if ts != [] {
      RunMirrors(ts[..|ts| - 1]);
      TakeMirrors(Run(ts[..|ts| - 1]), ts[|ts| - 1]);
    }
  }

  /** After any run, what a call that enters does: it resets a window more than 60 s old, and nothing else,
      and goes on if and only if fewer than 30 pushes were made since the last reset. */
  lemma EnterExactly(ts: seq<Turn>, at: int, id: nat, now: int)
    ensures var r, n := Run(ts), Take(Run(ts), Enter(at, id, now));
      && n.trace == r.trace + (if at - LastReset(r.trace) > 60_000 then [Reset(at)] else [])
      && (id !in r.calls ==> (id in n.calls <==> SinceReset(n.trace) < 30) && (id in n.calls ==> n.calls[id] == now))
  {
    RunMirrors(ts);
    TakeMirrors(Run(ts), Enter(at, id, now));
  }

  /** After any run, what a call does with a row: it pushes, once and with its own stamp, if and only if the
      peer is absent, fewer than 30 pushes were made since the last reset, and the peer's last push is
      stamped at least 10 s earlier. It gives up only on an absent peer with the budget spent. */
  lemma RowExactly(ts: seq<Turn>, at: int, id: nat, peer: nat, attached: bool)
    ensures var r, n := Run(ts), Take(Run(ts), Row(at, id, peer, attached));
      && n.trace == r.trace + (
           if id in r.calls && !attached && SinceReset(r.trace) < 30 && r.calls[id] - LastStamp(r.trace, peer) >= 10_000
           then [Push(at, peer, r.calls[id])] else [])
      && (id in n.calls <==> id in r.calls && (attached || SinceReset(r.trace) < 30))
  {
    RunMirrors(ts);
    assert LastPush(Run(ts).budget, peer) == LastStamp(Run(ts).trace, peer);
  }
}
