/** `PacketQueue` in android-native/src/cellular_transport.rs: a bounded queue that drops its oldest
    packets when full and packets past their age at the front. Clock readings are integers. */
module PacketQueue {
  import opened Common

  datatype Queued<T> = Queued(data: T, at: int)

  /** What became of a packet that has left the queue. */
  datatype Fate = Delivered | Overflowed | Expired | Cleared

  function Count(gone: seq<Fate>, f: Fate): (n: nat)
    ensures n <= |gone|
  {
    if gone == [] then 0 else Count(gone[..|gone| - 1], f) + if gone[|gone| - 1] == f then 1 else 0
  }

  /** The packets handed out: in the order pushed, those whose fate is delivery. */
  function DeliveredOf<T>(pushed: seq<Queued<T>>, gone: seq<Fate>): seq<T>
    requires |gone| <= |pushed|
  {
    if gone == [] then []
    else
      var i := |gone| - 1;
      DeliveredOf(pushed, gone[..i]) + if gone[i].Delivered? then [pushed[i].data] else []
  }

  predicate TooOld<T>(p: Queued<T>, now: int, maxAge: nat) {
    SatSub(now, p.at) > maxAge
  }

  /** How many packets at the front are past their age. */
  function StaleFront<T>(q: seq<Queued<T>>, now: int, maxAge: nat): (k: nat)
    ensures k <= |q| && (k < |q| ==> !TooOld(q[k], now, maxAge))
    ensures forall i :: 0 <= i < k ==> TooOld(q[i], now, maxAge)
  {
    if q == [] || !TooOld(q[0], now, maxAge) then 0 else 1 + StaleFront(q[1..], now, maxAge)
  }

  /** Packet `k` is within its age, and every packet before it is past it. */
  ghost predicate IsFirstLive<T>(q: seq<Queued<T>>, k: nat, now: int, maxAge: nat) {
    k < |q| && now - q[k].at <= maxAge && forall i :: 0 <= i < k ==> now - q[i].at > maxAge
  }

  function Fates(k: nat, f: Fate): (r: seq<Fate>)
    ensures |r| == k && forall i :: 0 <= i < k ==> r[i] == f
  {
    seq(k, i => f)
  }

  class PacketQueue<T> {
    const maxSize: nat
    const maxAge: nat
    var inner: seq<Queued<T>>
    var dropped: nat
    var droppedStale: nat
    ghost var pushed: seq<Queued<T>>  // every packet ever pushed
    ghost var gone: seq<Fate>         // the fates of those that left, oldest first
    ghost var handedOut: seq<T>       // what `Pop` returned, in order

    /** The queue is what is left of everything pushed, and every packet that left it has one fate. */
    ghost predicate Accounts()
      reads this
    {
      && |pushed| == |gone| + |inner| && inner == pushed[|gone|..]
      && handedOut == DeliveredOf(pushed, gone)
      && droppedStale == Count(gone, Expired)
    }

    /** Between two calls the cap holds and the overflow counter is exact. With a cap of zero the queue
        holds up to one packet, and the counter counts every push instead. */
    ghost predicate Valid()
      reads this
    {
      && Accounts()
      && (if maxSize == 0 then |inner| <= 1 && dropped == |pushed| else |inner| <= maxSize && dropped == Count(gone, Overflowed))
      && (maxSize == 0 && inner == [] && pushed != [] ==> gone[|gone| - 1] != Overflowed)
    }

    constructor (maxSize: nat, maxAge: nat)
      ensures Valid() && this.maxSize == maxSize && this.maxAge == maxAge && inner == [] && pushed == []
    {
      this.maxSize, this.maxAge := maxSize, maxAge;
      inner, dropped, droppedStale := [], 0, 0;
      pushed, gone, handedOut := [], [], [];
    }

    /** `queuedAt` and `now` are the two clock readings a push takes. */
    method Push(data: T, queuedAt: int, now: int)
      requires Valid()
      modifies this
      ensures Valid() && pushed == old(pushed) + [Queued(data, queuedAt)] && handedOut == old(handedOut)
      ensures var live := old(inner)[StaleFront(old(inner), now, maxAge)..];
        && inner == AfterPush(live, maxSize, Queued(data, queuedAt))
        && dropped == old(dropped) + if |live| >= maxSize then 1 else 0
    {
      DropStale(now);
      MakeRoom();
      Append(Queued(data, queuedAt));
    }

    /** The counter moves even when, with a cap of zero, there is nothing to drop. */
    method MakeRoom()
      requires Valid()
      modifies this
      ensures Accounts() && pushed == old(pushed) && handedOut == old(handedOut)
      ensures inner == if |old(inner)| >= maxSize && old(inner) != [] then old(inner)[1..] else old(inner)
      ensures dropped == old(dropped) + if |old(inner)| >= maxSize then 1 else 0
      ensures if maxSize == 0 then inner == [] else |inner| < maxSize && dropped == Count(gone, Overflowed)
    {
      if |inner| >= maxSize {
        PopOldest();
        dropped := dropped + 1;
      }
    }

    method PopOldest()
      requires Accounts()
      modifies this
      ensures Accounts() && pushed == old(pushed) && handedOut == old(handedOut) && dropped == old(dropped)
      ensures inner == if old(inner) != [] then old(inner)[1..] else old(inner)
      ensures Count(gone, Overflowed) == Count(old(gone), Overflowed) + if old(inner) != [] then 1 else 0
    {
      if inner != [] {
        Leave(Overflowed);
      }
    }

    method Append(p: Queued<T>)
      requires Accounts()
      requires if maxSize == 0 then inner == [] && dropped == |pushed| + 1
               else |inner| < maxSize && dropped == Count(gone, Overflowed)
      modifies this
      ensures Valid() && pushed == old(pushed) + [p] && handedOut == old(handedOut) && dropped == old(dropped)
      ensures inner == old(inner) + [p]
    {
      DeliveredPrefix(pushed, pushed + [p], gone);
      inner := inner + [p];
      pushed := pushed + [p];
    }

    method Pop(now: int) returns (r: Option<T>)
      requires Valid()
      modifies this
      ensures Valid() && pushed == old(pushed)
      ensures r.None? ==> handedOut == old(handedOut) && inner == []
      ensures r.Some? ==> handedOut == old(handedOut) + [r.value]
      ensures var k := StaleFront(old(inner), now, maxAge);
        if k == |old(inner)| then r == None
        else r == Some(old(inner)[k].data) && inner == old(inner)[k + 1..]
      ensures r.None? ==> forall i :: 0 <= i < |old(inner)| ==> now - old(inner)[i].at > maxAge
      ensures r.Some? ==> exists k :: 0 <= k < |old(inner)| && IsFirstLive(old(inner), k, now, maxAge) && r.value == old(inner)[k].data
    {
      DropStale(now);
      if inner == [] {
        r := None;
      } else {
        r := Some(inner[0].data);
        Leave(Delivered);
      }
    }

    method Clear()
      requires Valid()
      modifies this
      ensures Valid() && inner == [] && pushed == old(pushed) && handedOut == old(handedOut)
      ensures gone == old(gone) + Fates(|old(inner)|, Cleared)
    {
      ClearedAppend(pushed, gone, |inner|);
      gone := gone + Fates(|inner|, Cleared);
      inner := [];
    }

    method DropStale(now: int)
      requires Valid()
      modifies this
      ensures Valid() && pushed == old(pushed) && handedOut == old(handedOut) && dropped == old(dropped)
      ensures var k := StaleFront(old(inner), now, maxAge);
        inner == old(inner)[k..] && gone == old(gone) + Fates(k, Expired)
    {
      ghost var k := 0;
      while inner != [] && SatSub(now, inner[0].at) > maxAge
        invariant Valid() && pushed == old(pushed) && handedOut == old(handedOut) && dropped == old(dropped)
        invariant 0 <= k <= |old(inner)| && inner == old(inner)[k..] && gone == old(gone) + Fates(k, Expired)
        invariant StaleFront(old(inner), now, maxAge) == k + StaleFront(inner, now, maxAge)
        decreases |inner|
      {
        StaleStep(old(inner), k, now, maxAge);
        FatesSnoc(gone, old(gone), k, Expired);
        Leave(Expired);
        k := k + 1;
      }
    }

    /** The packet at the front leaves. */
    method Leave(f: Fate)
      requires Accounts() && inner != []
      modifies this
      ensures Accounts() && dropped == old(dropped)
      ensures pushed == old(pushed) && inner == old(inner)[1..] && gone == old(gone) + [f]
      ensures handedOut == old(handedOut) + (if f.Delivered? then [old(inner)[0].data] else [])
      ensures Count(gone, Overflowed) == Count(old(gone), Overflowed) + if f.Overflowed? then 1 else 0
    {
      if f.Expired? {
        droppedStale := droppedStale + 1;
      } else if f.Delivered? {
        handedOut := handedOut + [inner[0].data];
      }
      inner := inner[1..];
      gone := gone + [f];
      assert gone[..|gone| - 1] == old(gone);
    }
  }

  lemma StaleStep<T>(q: seq<Queued<T>>, k: nat, now: int, maxAge: nat)
    requires k < |q| && TooOld(q[k], now, maxAge)
    ensures StaleFront(q[k..], now, maxAge) == 1 + StaleFront(q[k + 1..], now, maxAge)
    ensures q[k..][1..] == q[k + 1..]
  {
    assert q[k..][1..] == q[k + 1..];
  }

  lemma FatesSnoc(gone: seq<Fate>, before: seq<Fate>, k: nat, f: Fate)
    requires gone == before + Fates(k, f)
    ensures gone + [f] == before + Fates(k + 1, f)
  {
  }

  lemma {:induction false} DeliveredPrefix<T>(a: seq<Queued<T>>, b: seq<Queued<T>>, gone: seq<Fate>)
    requires |gone| <= |a| && a <= b
    ensures DeliveredOf(a, gone) == DeliveredOf(b, gone)
  {
    if gone != [] {
      DeliveredPrefix(a, b, gone[..|gone| - 1]);
    }
  }

  lemma {:induction false} ClearedAppend<T>(pushed: seq<Queued<T>>, gone: seq<Fate>, n: nat)
    requires |gone| + n <= |pushed|
    ensures var g := gone + Fates(n, Cleared);
      && DeliveredOf(pushed, g) == DeliveredOf(pushed, gone)
      && Count(g, Expired) == Count(gone, Expired) && Count(g, Overflowed) == Count(gone, Overflowed)
  {
    var g := gone + Fates(n, Cleared);
    if n == 0 {
      assert g == gone;
    } else {
      ClearedAppend(pushed, gone, n - 1);
      assert g[..|g| - 1] == gone + Fates(n - 1, Cleared);
    }
  }

  /* ---- What follows over any run ---- */

  /** Pushed = delivered + overflowed + expired + cleared + still queued. */
  lemma {:induction false} FatesAddUp(gone: seq<Fate>)
    ensures Count(gone, Delivered) + Count(gone, Overflowed) + Count(gone, Expired) + Count(gone, Cleared) == |gone|
  {
    if gone != [] {
      FatesAddUp(gone[..|gone| - 1]);
    }
  }

  /** The positions of the delivered packets among all packets pushed. */
  function Positions(gone: seq<Fate>): (r: seq<nat>)
    ensures |r| == Count(gone, Delivered)
    ensures forall i :: 0 <= i < |r| ==> r[i] < |gone| && gone[r[i]].Delivered?
    ensures forall i, j :: 0 <= i < j < |r| ==> r[i] < r[j]
  {
    if gone == [] then []
    else
      var i := |gone| - 1;
      Positions(gone[..i]) + if gone[i].Delivered? then [i] else []
  }

  /** Delivery keeps the order of pushing: what is delivered is a subsequence of what is pushed. */
  lemma {:induction false} DeliveredInOrder<T>(pushed: seq<Queued<T>>, gone: seq<Fate>)
    requires |gone| <= |pushed|
    ensures var pos := Positions(gone);
      && |DeliveredOf(pushed, gone)| == |pos|
      && (forall i :: 0 <= i < |pos| ==> DeliveredOf(pushed, gone)[i] == pushed[pos[i]].data)
  {
    if gone != [] {
      DeliveredInOrder(pushed, gone[..|gone| - 1]);
    }
  }

  /** The balance on the queue's own counters: every packet ever pushed was handed out, dropped on
      overflow, dropped as stale, cleared, or is still queued. */
  ghost predicate Balanced<T>(q: PacketQueue<T>)
    reads q
  {
    |q.pushed| == |q.handedOut| + q.dropped + q.droppedStale + Count(q.gone, Cleared) + |q.inner|
  }

  /** In any run the balance holds if and only if the cap is not zero or nothing was ever pushed. */
  lemma ConservationIff<T>(q: PacketQueue<T>)
    requires q.Valid()
    ensures Balanced(q) <==> q.maxSize > 0 || q.pushed == []
  {
    FatesAddUp(q.gone);
    DeliveredInOrder(q.pushed, q.gone);
  }

  /** The queue after the overflow rule of one push. */
  function AfterPush<T>(q: seq<T>, maxSize: nat, x: T): seq<T> {
    (if |q| >= maxSize && q != [] then q[1..] else q) + [x]
  }

  /** Overflow costs a packet only when the queue is full, and then the oldest one. */
  lemma OverflowDropsOldest<T>(q: seq<T>, maxSize: nat, x: T)
    requires |q| <= maxSize
    ensures |q| < maxSize ==> AfterPush(q, maxSize, x) == q + [x]
    ensures |q| == maxSize > 0 ==> AfterPush(q, maxSize, x) == q[1..] + [x]
  {
  }

  /** The cap holds for every queue if and only if it is not zero. */
  lemma CapHoldsUnlessZero<T>(maxSize: nat, x: T)
    ensures (forall q: seq<T> :: |q| <= maxSize ==> |AfterPush(q, maxSize, x)| <= maxSize) <==> maxSize > 0
  {
    if maxSize == 0 {
      var empty: seq<T> := [];
      assert |AfterPush(empty, maxSize, x)| == 1;
    }
  }
}
