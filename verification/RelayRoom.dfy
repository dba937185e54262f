/** The relay's `PttRoom` in cloudflare-worker/src/ptt-relay.js: its store-and-forward ring buffer
    and its wake-push budget. `now` is what `Date.now()` shows in the turn a method runs in. */
module RelayRoom {
  import opened Common

  const BUFFER_MAX_FRAMES: nat := 1500
  const BUFFER_MAX_BYTES: nat := 2_097_152
  const BUFFER_TTL_MS: int := 30_000
  const FCM_PUSH_COOLDOWN_MS: int := 10_000
  const FCM_ROOM_PUSH_BUDGET: nat := 30
  const FCM_ROOM_PUSH_WINDOW_MS: int := 60_000

  datatype Entry = Entry(ts: int, frame: seq<Byte>)

  function Bytes(es: seq<Entry>): nat {
    if es == [] then 0 else |es[0].frame| + Bytes(es[1..])
  }

  predicate Fits(es: seq<Entry>) {
    |es| <= BUFFER_MAX_FRAMES && Bytes(es) <= BUFFER_MAX_BYTES
  }

  /** Entry `i` is too old to keep: from it on, the history exceeds a cap. */
  predicate Exceeds(es: seq<Entry>, i: nat)
    requires i <= |es|
  {
    |es[i..]| > 1500 || Bytes(es[i..]) > 2_097_152
  }

  /** Drop entries from the front until both caps are met. */
  function Trimmed(es: seq<Entry>): seq<Entry> {
    if Fits(es) then es else Trimmed(es[1..])
  }

  lemma {:induction false} BytesAppend(a: seq<Entry>, b: seq<Entry>)
    ensures Bytes(a + b) == Bytes(a) + Bytes(b)
  {
    if a == [] {
      assert a + b == b;
    } else {
      assert (a + b)[1..] == a[1..] + b;
      BytesAppend(a[1..], b);
    }
  }

  /** The size of a stretch of the history is the sum of the lengths of its frames. */
  lemma BytesIsSum(es: seq<Entry>, e: Entry)
    ensures Bytes([]) == 0 && Bytes(es + [e]) == Bytes(es) + |e.frame|
  {
    BytesAppend(es, [e]);
    assert Bytes([e]) == |e.frame| + Bytes([e][1..]);
  }

  /** Trimming keeps the longest suffix that meets both caps. */
  lemma {:induction false} TrimmedIsLongest(es: seq<Entry>)
    ensures var r := Trimmed(es);
      Fits(r) && |r| <= |es| && r == es[|es| - |r|..] && forall i :: 0 <= i < |es| - |r| ==> Exceeds(es, i)
  {
    if Fits(es) {
      assert es[0..] == es;
    } else {
      var rest := es[1..];
      TrimmedIsLongest(rest);
      forall i | 0 <= i < |es| - |Trimmed(es)| ensures Exceeds(es, i) {
        if i == 0 {
          assert es[0..] == es;
        } else {
          assert Exceeds(rest, i - 1) && es[i..] == rest[i - 1..];
        }
      }
    }
  }

  /** Trimming after every append keeps what trimming the whole history would keep. */
  lemma {:induction false} TrimmedAppend(h: seq<Entry>, e: Entry)
    ensures Trimmed(Trimmed(h) + [e]) == Trimmed(h + [e])
  {
    if !Fits(h) {
      BytesAppend(h, [e]);
      assert (h + [e])[1..] == h[1..] + [e];
      TrimmedAppend(h[1..], e);
    }
  }

  function NewerThan(floor: int): Entry -> bool {
    (e: Entry) => e.ts > floor
  }

  /** The entries newer than the floor, in arrival order. */
  function Newer(es: seq<Entry>, floor: int): seq<Entry> {
    Filter(NewerThan(floor), es)
  }

  predicate Ordered(es: seq<Entry>) {
    forall i, j :: 0 <= i < j < |es| ==> es[i].ts <= es[j].ts
  }

  /** On a clock that does not run backwards the newer entries are a suffix. */
  lemma NewerIsSuffix(es: seq<Entry>, floor: int) returns (k: nat)
    requires Ordered(es)
    ensures k <= |es| && Newer(es, floor) == es[k..]
    ensures forall i :: 0 <= i < |es| ==> (es[i].ts > floor <==> i >= k)
  {
    k := FilterIsSuffix(NewerThan(floor), es);
    assert forall i :: 0 <= i < |es| ==> NewerThan(floor)(es[i]) == (es[i].ts > floor);
  }

  /** What a client that has heard everything up to `cutoff` is sent at time `now`: what it has not heard
      and what is not older than 30 s. */
  function Wanted(cutoff: int, now: int): Entry -> bool {
    (e: Entry) => e.ts > cutoff && e.ts > now - 30_000
  }

  lemma FloorIsWanted(es: seq<Entry>, cutoff: int, now: int)
    ensures Newer(es, Floor(cutoff, now)) == Filter(Wanted(cutoff, now), es)
  {
    FilterSame(NewerThan(Floor(cutoff, now)), Wanted(cutoff, now), es);
  }

  /** What a catch-up replays: of all frames stored since the last release, exactly those newer than the
      cutoff and than 30 s ago from which on the history still meets both caps. */
  lemma CatchUpReplaysRecentHistory(h: seq<Entry>, cutoff: int, now: int) returns (j: nat)
    requires Ordered(h)
    ensures j <= |h| && Newer(Trimmed(h), Floor(cutoff, now)) == h[j..]
    ensures forall i :: j <= i < |h| ==> h[i].ts > cutoff && h[i].ts > now - 30_000
    ensures forall i :: 0 <= i < j ==> h[i].ts <= cutoff || h[i].ts <= now - 30_000 || Exceeds(h, i)
  {
    j := CutHistory(h, Floor(cutoff, now));
  }

  lemma CutHistory(h: seq<Entry>, floor: int) returns (j: nat)
    requires Ordered(h)
    ensures j <= |h| && Newer(Trimmed(h), floor) == h[j..]
    ensures forall i :: j <= i < |h| ==> h[i].ts > floor
    ensures forall i :: 0 <= i < j ==> h[i].ts <= floor || Exceeds(h, i)
  {
    TrimmedIsLongest(h);
    var kept := Trimmed(h);
    OrderedSuffix(h, |h| - |kept|);
    var k := NewerIsSuffix(kept, floor);
    j := |h| - |kept| + k;
    CutAndFloor(h, kept, floor, k);
  }

  lemma OrderedSuffix(h: seq<Entry>, cut: nat)
    requires Ordered(h) && cut <= |h|
    ensures Ordered(h[cut..])
  {
  }

  /** Cutting at the caps and then at the floor is one cut of the history. */
  lemma CutAndFloor(h: seq<Entry>, kept: seq<Entry>, floor: int, k: nat)
    requires k <= |kept| <= |h| && kept == h[|h| - |kept|..]
    requires forall i :: 0 <= i < |kept| ==> (kept[i].ts > floor <==> i >= k)
    requires forall i :: 0 <= i < |h| - |kept| ==> Exceeds(h, i)
    ensures var j := |h| - |kept| + k;
      && kept[k..] == h[j..]
      && (forall i :: j <= i < |h| ==> h[i].ts > floor)
      && (forall i :: 0 <= i < j ==> h[i].ts <= floor || Exceeds(h, i))
  {
    var cut := |h| - |kept|;
    assert kept[k..] == h[cut + k..];
    forall i | cut <= i < |h| ensures h[i].ts > floor <==> i >= cut + k {
      assert h[i] == kept[i - cut];
    }
  }

  class PttRoom {
    var audioBuffer: seq<Entry>
    var audioBufferBytes: int
    var bufferUntilMs: int
    var lastFcmPushMs: map<nat, int>
    var fcmRoomWindowStartMs: int
    var fcmRoomPushCount: nat
    ghost var sinceClear: seq<Entry>  // every frame appended since the buffer was last released

    /** The ring is the history trimmed to both caps, and the shadow count is its true size. */
    ghost predicate Valid()
      reads this
    {
      audioBuffer == Trimmed(sinceClear) && audioBufferBytes == Bytes(audioBuffer)
    }

    constructor ()
      ensures Valid() && sinceClear == [] && bufferUntilMs == 0
      ensures lastFcmPushMs == map[] && fcmRoomWindowStartMs == 0 && fcmRoomPushCount == 0
    {
      audioBuffer, audioBufferBytes, bufferUntilMs := [], 0, 0;
      lastFcmPushMs, fcmRoomWindowStartMs, fcmRoomPushCount := map[], 0, 0;
      sinceClear := [];
    }

    /** A peer closed or went stale: it may come back and ask for what it missed. */
    method OpenWindow(now: int)
      requires Valid()
      modifies this`bufferUntilMs
      ensures Valid() && bufferUntilMs == now + BUFFER_TTL_MS
    {
      bufferUntilMs := now + BUFFER_TTL_MS;
    }

    /** The store-and-forward part of `webSocketMessage`. */
    method StoreFrame(bytes: seq<Byte>, now: int)
      requires Valid()
      modifies this`audioBuffer, this`audioBufferBytes, this`sinceClear
      ensures Valid()
      ensures sinceClear == if now <= bufferUntilMs then old(sinceClear) + [Entry(now, bytes)] else []
    {
      if now <= bufferUntilMs {
        TrimmedAppend(sinceClear, Entry(now, bytes));
        sinceClear := sinceClear + [Entry(now, bytes)];
        BytesAppend(audioBuffer, [Entry(now, bytes)]);
        audioBuffer := audioBuffer + [Entry(now, bytes)];
        audioBufferBytes := audioBufferBytes + |bytes|;
        while |audioBuffer| > BUFFER_MAX_FRAMES || audioBufferBytes > BUFFER_MAX_BYTES
          invariant sinceClear == old(sinceClear) + [Entry(now, bytes)]
          invariant audioBufferBytes == Bytes(audioBuffer)
          invariant Trimmed(audioBuffer) == Trimmed(sinceClear)
          decreases |audioBuffer|
        {
          assert audioBuffer != [];  // the source's check of the shifted entry never fires
          var evicted := audioBuffer[0];
          audioBuffer := audioBuffer[1..];
          audioBufferBytes := audioBufferBytes - |evicted.frame|;
        }
      } else {
        if |audioBuffer| > 0 {
          audioBuffer := [];
          audioBufferBytes := 0;
        }
        sinceClear := [];
      }
    }

    /** The first turn of `replayBufferedAudio`: fix the frames to replay. */
    method Snapshot(cutoff: int, now: int) returns (pending: seq<seq<Byte>>)
      ensures pending == Frames(Newer(audioBuffer, Floor(cutoff, now)))
      ensures pending == Frames(Filter(Wanted(cutoff, now), audioBuffer))
    {
      var floor := if cutoff >= now - BUFFER_TTL_MS then cutoff else now - BUFFER_TTL_MS;
      FloorIsWanted(audioBuffer, cutoff, now);
      pending := [];
      var i := 0;
      while i < |audioBuffer|
        invariant 0 <= i <= |audioBuffer|
        invariant pending == Frames(Newer(audioBuffer[..i], floor))
      {
        assert audioBuffer[..i + 1][..i] == audioBuffer[..i];
        if audioBuffer[i].ts > floor {
          pending := pending + [audioBuffer[i].frame];
        }
        i := i + 1;
      }
      assert audioBuffer[..i] == audioBuffer;
    }

    /** The first turn of `firePushesForOfflinePeers`: renew the window, check the budget. */
    method EnterPush(winNow: int) returns (proceed: bool)
      modifies this`fcmRoomWindowStartMs, this`fcmRoomPushCount
      ensures (Budget(fcmRoomWindowStartMs, fcmRoomPushCount, lastFcmPushMs), proceed)
           == Entered(old(Budget(fcmRoomWindowStartMs, fcmRoomPushCount, lastFcmPushMs)), winNow)
    {
      if winNow - fcmRoomWindowStartMs > FCM_ROOM_PUSH_WINDOW_MS {
        fcmRoomWindowStartMs := winNow;
        fcmRoomPushCount := 0;
      }
      proceed := fcmRoomPushCount < FCM_ROOM_PUSH_BUDGET;
    }

    /** One row of the loop over the presence list, up to the push it awaits. */
    method TryPush(peer: nat, attached: bool, now: int) returns (outcome: Outcome)
      requires Valid()
      modifies this`lastFcmPushMs, this`fcmRoomPushCount, this`bufferUntilMs
      ensures Valid()
      ensures (Budget(fcmRoomWindowStartMs, fcmRoomPushCount, lastFcmPushMs), outcome)
           == Tried(old(Budget(fcmRoomWindowStartMs, fcmRoomPushCount, lastFcmPushMs)), peer, attached, now)
      ensures bufferUntilMs == if outcome.Pushed? then now + BUFFER_TTL_MS else old(bufferUntilMs)
    {
      if attached {
        return Skipped;
      }
      if fcmRoomPushCount >= FCM_ROOM_PUSH_BUDGET {
        return Exhausted;
      }
      var lastMs := if peer in lastFcmPushMs then lastFcmPushMs[peer] else 0;
      if now - lastMs < FCM_PUSH_COOLDOWN_MS {
        return Skipped;
      }
      lastFcmPushMs := lastFcmPushMs[peer := now];
      fcmRoomPushCount := fcmRoomPushCount + 1;
      bufferUntilMs := now + BUFFER_TTL_MS;
      outcome := Pushed;
    }
  }

  function Floor(cutoff: int, now: int): int {
    if cutoff >= now - BUFFER_TTL_MS then cutoff else now - BUFFER_TTL_MS
  }

  function Frames(es: seq<Entry>): (r: seq<seq<Byte>>)
    ensures |r| == |es| && forall i :: 0 <= i < |es| ==> r[i] == es[i].frame
  {
    seq(|es|, i requires 0 <= i < |es| => es[i].frame)
  }

  /* ---- The push budget, as values ---- */

  datatype Budget = Budget(windowStart: int, count: nat, last: map<nat, int>)

  datatype Outcome = Pushed | Skipped | Exhausted

  function Entered(b: Budget, winNow: int): (Budget, bool) {
    var c := if winNow - b.windowStart > FCM_ROOM_PUSH_WINDOW_MS then b.(windowStart := winNow, count := 0) else b;
    (c, c.count < FCM_ROOM_PUSH_BUDGET)
  }

  function LastPush(b: Budget, peer: nat): int {
    if peer in b.last then b.last[peer] else 0
  }

  function Tried(b: Budget, peer: nat, attached: bool, now: int): (Budget, Outcome) {
    if attached then (b, Skipped)
    else if b.count >= FCM_ROOM_PUSH_BUDGET then (b, Exhausted)
    else if now - LastPush(b, peer) < FCM_PUSH_COOLDOWN_MS then (b, Skipped)
    else (b.(count := b.count + 1, last := b.last[peer := now]), Pushed)
  }

  /* ---- The replay wrapper ---- */

  const OP_REPLAY_FRAME: Byte := 0x19

  function BuildReplayFrame(frame: seq<Byte>, peerId: seq<Byte>): seq<Byte> {
    [OP_REPLAY_FRAME, |peerId| % 256, |peerId| / 256 % 256] + peerId + frame
  }

  /** How a receiver reads it: opcode, little-endian length of the peer id, peer id, frame to the end. */
  function ParseReplayFrame(w: seq<Byte>): Option<(seq<Byte>, seq<Byte>)> {
    if |w| < 3 || w[0] != 0x19 then None
    else
      var n: nat := w[1] as int + 256 * w[2] as int;
      if |w| < 3 + n then None else Some((w[3..3 + n], w[3 + n..]))
  }

  /** The frame and the peer id are recovered if and only if the id's length fits its 16 bits. */
  lemma ReplayFrameRoundTrip(frame: seq<Byte>, peerId: seq<Byte>)
    ensures ParseReplayFrame(BuildReplayFrame(frame, peerId)) == Some((peerId, frame)) <==> |peerId| < 65536
  {
    var w := BuildReplayFrame(frame, peerId);
    var n: nat := w[1] as int + 256 * w[2] as int;
    LengthBytes(|peerId|);
    assert w[3..3 + |peerId|] == peerId && w[3 + |peerId|..] == frame;
  }

  lemma LengthBytes(n: nat)
    ensures n % 256 + 256 * (n / 256 % 256) == n % 65536
  {
    assert n == 256 * (n / 256) + n % 256;
    assert n / 256 == 256 * (n / 65536) + n / 256 % 256;
  }

  /* ---- Catch-up under interleaving ---- */

  /** A replay in progress: what it still holds locally, what it has sent, whether a send failed. */
  datatype Replay = Replay(pending: seq<seq<Byte>>, wire: seq<seq<Byte>>, failed: bool)

  /** A turn of the room: live traffic stores a frame or opens the window, or the replay sends. */
  datatype Turn = Store(bytes: seq<Byte>, now: int) | Window(until: int) | SendNext(ok: bool)

  datatype Room = Room(history: seq<Entry>, until: int, replay: Replay)

  function Take(r: Room, t: Turn): Room {
    match t
    case Store(b, now) => r.(history := if now <= r.until then r.history + [Entry(now, b)] else [])
    case Window(u) => r.(until := u)
    case SendNext(ok) =>
      var p := r.replay;
      if p.failed || |p.wire| >= |p.pending| then r
      else if ok then r.(replay := p.(wire := p.wire + [BuildReplayFrame(p.pending[|p.wire|], [])]))
      else r.(replay := p.(failed := true))
  }

  function TakeAll(r: Room, ts: seq<Turn>): Room {
    if ts == [] then r else Take(TakeAll(r, ts[..|ts| - 1]), ts[|ts| - 1])
  }

  function Wrapped(fs: seq<seq<Byte>>): (r: seq<seq<Byte>>)
    ensures |r| == |fs| && forall i :: 0 <= i < |fs| ==> r[i] == BuildReplayFrame(fs[i], [])
  {
    seq(|fs|, i requires 0 <= i < |fs| => BuildReplayFrame(fs[i], []))
  }

  function Sends(ts: seq<Turn>): nat {
    if ts == [] then 0 else Sends(ts[..|ts| - 1]) + if ts[|ts| - 1].SendNext? then 1 else 0
  }

  /** The replay started in room `r` at time `now`. */
  function Started(r: Room, cutoff: int, now: int): Room {
    r.(replay := Replay(Frames(Newer(Trimmed(r.history), Floor(cutoff, now))), [], false))
  }

  /** Whatever is stored, trimmed or released meanwhile, a catch-up sends a prefix of the wrapped
      frames of its snapshot, in arrival order. */
  lemma {:induction false} ReplaySendsPrefix(r: Room, cutoff: int, now: int, ts: seq<Turn>)
    ensures var end := TakeAll(Started(r, cutoff, now), ts).replay;
      && end.pending == Started(r, cutoff, now).replay.pending
      && end.wire <= Wrapped(end.pending)
  {
    if ts != [] {
      ReplaySendsPrefix(r, cutoff, now, ts[..|ts| - 1]);
    }
  }

  /** Each frame on the wire gives its own frame back, with an empty peer id. */
  lemma ReplayedFramesAreReadable(r: Room, cutoff: int, now: int, ts: seq<Turn>, i: nat)
    requires i < |TakeAll(Started(r, cutoff, now), ts).replay.wire|
    ensures var end := TakeAll(Started(r, cutoff, now), ts).replay;
      i < |end.pending| && ParseReplayFrame(end.wire[i]) == Some(([], end.pending[i]))
  {
    ReplaySendsPrefix(r, cutoff, now, ts);
    ReplayFrameRoundTrip(TakeAll(Started(r, cutoff, now), ts).replay.pending[i], []);
  }

  predicate NoneFails(ts: seq<Turn>) {
    forall i :: 0 <= i < |ts| && ts[i].SendNext? ==> ts[i].ok
  }

  /** If no send fails, it sends one frame per turn until it has sent them all. */
  lemma {:induction false} ReplaySendsAll(r: Room, cutoff: int, now: int, ts: seq<Turn>)
    requires NoneFails(ts)
    ensures var end := TakeAll(Started(r, cutoff, now), ts).replay;
      && !end.failed
      && |end.wire| == (if Sends(ts) <= |end.pending| then Sends(ts) else |end.pending|)
      && (Sends(ts) >= |end.pending| ==> end.wire == Wrapped(end.pending))
  {
    ReplaySendsPrefix(r, cutoff, now, ts);
    if ts != [] {
      ReplaySendsAll(r, cutoff, now, ts[..|ts| - 1]);
    }
  }
}
