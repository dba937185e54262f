/** Playout of decoded frames: the bounded queue of `RxSharedState` and the 20 ms pacer
    `PlayoutPacer` in android-native/src/audio_pipeline.rs. Clock readings are integers in
    nanoseconds, as `Instant` counts them. */
module Playout {
  import opened Common

  const FRAME_PERIOD: int := 20_000_000
  const MAX_BEHIND: int := 200_000_000
  const MAX_PLAYOUT_QUEUE_FRAMES: nat := 48

  /* ---- The pacer ---- */

  /** One paced write: the clock on entry, and the clock when its wait is over. A sleep ends at or
      after the time asked for; it may overshoot by any amount. */
  datatype Write = Write(entered: int, released: int)

  predicate Waited(next: int, w: Write) {
    w.entered <= w.released && (w.entered < next ==> next <= w.released)
  }

  function NextPlayout(next: int, w: Write): int {
    (if w.entered > next + MAX_BEHIND then w.entered else next) + FRAME_PERIOD
  }

  class PlayoutPacer {
    var nextPlayout: int

    constructor (now: int)
      ensures nextPlayout == now
    {
      nextPlayout := now;
    }

    /** `wake` is what the clock shows when a sleep until `nextPlayout` returns. */
    method WaitBeforeWrite(now: int, wake: int) returns (w: Write)
      requires now < nextPlayout ==> nextPlayout <= wake
      modifies this
      ensures w.entered == now && Waited(old(nextPlayout), w)
      ensures nextPlayout == NextPlayout(old(nextPlayout), w)
    {
      if now < nextPlayout {
        w := Write(now, wake);
      } else {
        w := Write(now, now);
        var behind := now - nextPlayout;
        if behind > MAX_BEHIND {
          nextPlayout := now;
        }
      }
      nextPlayout := nextPlayout + FRAME_PERIOD;
    }
  }

  /** A run of writes from a pacer whose target is `next`. */
  predicate PacedRun(next: int, ws: seq<Write>)
    decreases |ws|
  {
    ws == [] || (Waited(next, ws[0]) && PacedRun(NextPlayout(next, ws[0]), ws[1..]))
  }

  lemma {:induction false} LastRelease(next: int, ws: seq<Write>)
    requires PacedRun(next, ws) && ws != []
    ensures ws[|ws| - 1].released >= next + (|ws| - 1) * FRAME_PERIOD
    decreases |ws|
  {
    if |ws| > 1 {
      LastRelease(NextPlayout(next, ws[0]), ws[1..]);
    }
  }

  /** Any stretch of a run is a run, from the target the pacer then has. */
  lemma {:induction false} LaterWrites(next: int, ws: seq<Write>, i: nat) returns (from: int)
    requires PacedRun(next, ws) && i <= |ws|
    ensures PacedRun(from, ws[i..])
    decreases |ws|
  {
    if i == 0 {
      from := next;
      assert ws[0..] == ws;
    } else {
      from := LaterWrites(NextPlayout(next, ws[0]), ws[1..], i - 1);
      assert ws[1..][i - 1..] == ws[i..];
    }
  }

  lemma {:induction false} FirstWrites(next: int, ws: seq<Write>, j: nat)
    requires PacedRun(next, ws) && j <= |ws|
    ensures PacedRun(next, ws[..j])
    decreases |ws|
  {
    if j > 0 {
      FirstWrites(NextPlayout(next, ws[0]), ws[1..], j - 1);
      assert ws[..j][1..] == ws[1..][..j - 1];
    }
  }

  /** Writes are never bunched: if writes `i .. j - 1` of a run enter at or after `s` and are
      released by `t`, then 20 ms for each of them but one fit into `t - s` plus 200 ms, whatever
      the sleeps overshoot and whatever the clock did before. */
  lemma PlayoutRateBound(next: int, ws: seq<Write>, i: nat, j: nat, s: int, t: int)
    requires PacedRun(next, ws) && i < j <= |ws|
    requires s <= ws[i].entered && ws[j - 1].released <= t
    ensures (j - i - 1) * 20_000_000 <= t - s + 200_000_000
  {
    var from := LaterWrites(next, ws, i);
    FirstWrites(from, ws[i..], j - i);
    var ps := ws[i..][..j - i];
    if |ps| > 1 {
      LastRelease(NextPlayout(from, ps[0]), ps[1..]);
    }
  }

  /** A run whose sleeps end exactly when asked to. */
  predicate PromptRun(next: int, ws: seq<Write>)
    decreases |ws|
  {
    ws == [] ||
    (ws[0].released == Later(ws[0].entered, next) && PromptRun(NextPlayout(next, ws[0]), ws[1..]))
  }

  function Later(a: int, b: int): int {
    if a >= b then a else b
  }

  /** Nor are they held back: while no write enters more than 200 ms late, write `k` is due 20 ms times `k`
      after the first and is released then, or at once if it enters later. Being late does not move the
      schedule. */
  lemma {:induction false} PlayoutKeepsPace(next: int, ws: seq<Write>, k: nat)
    requires PromptRun(next, ws) && k < |ws|
    requires forall i :: 0 <= i < |ws| ==> ws[i].entered <= next + 20_000_000 * i + 200_000_000
    ensures ws[k].released == Later(ws[k].entered, next + 20_000_000 * k)
    decreases k
  {
    if k > 0 {
      assert ws[0].entered <= next + 200_000_000;
      forall i | 0 <= i < |ws[1..]| ensures ws[1..][i].entered <= next + 20_000_000 + 20_000_000 * i + 200_000_000 {
        assert ws[1..][i] == ws[i + 1];
      }
      PlayoutKeepsPace(next + 20_000_000, ws[1..], k - 1);
    }
  }

  /** A write that enters more than 200 ms late starts a new schedule: the next is due 20 ms after it. */
  lemma LatePlayoutRestarts(next: int, ws: seq<Write>)
    requires PromptRun(next, ws) && ws != [] && ws[0].entered > next + 200_000_000
    ensures ws[0].released == ws[0].entered && PromptRun(ws[0].entered + 20_000_000, ws[1..])
  {
  }

  /* ---- The queue ---- */

  class PlayoutQueue<Frame> {
    var queue: seq<Frame>
    ghost var entered: seq<Frame>   // every frame ever enqueued, in order

    ghost predicate Valid()
      reads this
    {
      && |queue| <= MAX_PLAYOUT_QUEUE_FRAMES
      && |queue| <= |entered| && queue == entered[|entered| - |queue|..]
    }

    constructor ()
      ensures Valid() && queue == [] && entered == []
    {
      queue, entered := [], [];
    }

    /** Drop the oldest frames beyond the cap: the queue stays the newest stretch of what entered. */
    method EnqueuePlayout(samples: Frame)
      requires Valid()
      modifies this
      ensures Valid() && entered == old(entered) + [samples]
      ensures queue == LastN(old(queue) + [samples], 48)
    {
      while |queue| >= MAX_PLAYOUT_QUEUE_FRAMES
        invariant entered == old(entered)
        invariant queue == old(queue) || (|old(queue)| == MAX_PLAYOUT_QUEUE_FRAMES && queue == old(queue)[1..])
        decreases |queue|
      {
        queue := queue[1..];
      }
      if |old(queue)| == MAX_PLAYOUT_QUEUE_FRAMES {
        assert (old(queue) + [samples])[1..] == old(queue)[1..] + [samples];
      }
      ghost var kept := queue;
      assert kept == entered[|entered| - |kept|..];
      queue := queue + [samples];
      entered := entered + [samples];
      assert entered[|entered| - |queue|..] == kept + [samples];
    }

    method PopPlayout() returns (r: Option<Frame>)
      requires Valid()
      modifies this
      ensures Valid() && entered == old(entered)
      ensures if old(queue) == [] then r == None && queue == [] else r == Some(old(queue)[0]) && queue == old(queue)[1..]
    {
      if queue == [] {
        r := None;
      } else {
        r := Some(queue[0]);
        queue := queue[1..];
      }
    }
  }
}
