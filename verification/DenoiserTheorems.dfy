/** The denoiser's output is one fixed stream, however the caller cuts its input into frames. */
module DenoiserTheorems {
  import opened Common
  import opened Denoiser

  /* ---- The reference: overlap-add over the whole input ---- */

  /** How many analysis windows an input of `n` samples has. */
  function Blocks(n: nat): nat {
    if n < NS_FFT then 0 else (n - NS_FFT) / NS_HOP + 1
  }

  function Window<T>(x: seq<T>, b: nat): seq<T>
    requires b * NS_HOP + NS_FFT <= |x|
  {
    x[b * NS_HOP..b * NS_HOP + NS_FFT]
  }

  /** The estimators before window `b`. */
  function EstAt<S, T, I>(k: Kernel<S, T, I>, x: seq<T>, b: nat): S
    requires b <= Blocks(|x|)
  {
    if b == 0 then k.initial else k.next(EstAt(k, x, b - 1), Window(x, b - 1))
  }

  function SynthAt<S, T, I>(k: Kernel<S, T, I>, x: seq<T>, b: nat, i: nat): T
    requires b < Blocks(|x|)
  {
    k.synth(EstAt(k, x, b), Window(x, b), i)
  }

  /** What the previous window left in slot `i` of the accumulator: its second half, or nothing. */
  function Carry<S, T, I>(k: Kernel<S, T, I>, x: seq<T>, b: nat, i: nat): T
    requires b <= Blocks(|x|)
  {
    if b == 0 || i >= NS_HOP then k.zero else k.add(k.zero, SynthAt(k, x, b - 1, NS_HOP + i))
  }

  /** Sample `i` of hop `b`: the first half of window `b` on top of the second half of the one before. */
  function OverlapAdd<S, T, I>(k: Kernel<S, T, I>, x: seq<T>, b: nat, i: nat): T
    requires b < Blocks(|x|)
  {
    k.clean(k.add(Carry(k, x, b, i), SynthAt(k, x, b, i)))
  }

  function Hop<S, T, I>(k: Kernel<S, T, I>, x: seq<T>, b: nat): (r: seq<T>)
    requires b < Blocks(|x|)
    ensures |r| == NS_HOP && forall i :: 0 <= i < NS_HOP ==> r[i] == OverlapAdd(k, x, b, i)
  {
    seq(NS_HOP, i requires 0 <= i < NS_HOP => OverlapAdd(k, x, b, i))
  }

  /** The overlap-add stream of the first `b` windows. */
  function Stream<S, T, I>(k: Kernel<S, T, I>, x: seq<T>, b: nat): (r: seq<T>)
    requires b <= Blocks(|x|)
    ensures |r| == b * NS_HOP
  {
    if b == 0 then [] else Stream(k, x, b - 1) + Hop(k, x, b - 1)
  }

  function Primed<S, T, I>(k: Kernel<S, T, I>, x: seq<T>, b: nat): (r: seq<T>)
    requires b <= Blocks(|x|)
    ensures |r| == NS_FFT + b * NS_HOP
  {
    Zeros(k, NS_FFT) + Stream(k, x, b)
  }

  lemma BlocksBounds(n: nat)
    ensures var b := Blocks(n);
      && (b > 0 ==> (b - 1) * NS_HOP + NS_FFT <= n) && n < b * NS_HOP + NS_FFT
      && n <= NS_FFT + b * NS_HOP
  {
  }

  /** 256 zeros, then the overlap-add stream, cut to the length of the input. */
  function Reference<S, T, I>(k: Kernel<S, T, I>, pcm: seq<I>): (r: seq<I>)
    ensures |r| == |pcm|
  {
    var x := Normalized(k, pcm);
    BlocksBounds(|x|);
    Denormalized(k, Primed(k, x, Blocks(|x|))[..|x|])
  }

  /* ---- The reference looks at no sample it has not got ---- */

  lemma BlocksMonotone(m: nat, n: nat)
    requires m <= n
    ensures Blocks(m) <= Blocks(n)
  {
  }

  lemma {:induction false} EstCausal<S, T, I>(k: Kernel<S, T, I>, x: seq<T>, y: seq<T>, b: nat)
    requires b <= Blocks(|x|) && b <= Blocks(|x + y|)
    ensures EstAt(k, x + y, b) == EstAt(k, x, b)
  {
    if b > 0 {
      EstCausal(k, x, y, b - 1);
      assert Window(x + y, b - 1) == Window(x, b - 1);
    }
  }

  lemma SynthCausal<S, T, I>(k: Kernel<S, T, I>, x: seq<T>, y: seq<T>, b: nat, i: nat)
    requires b < Blocks(|x|) && b < Blocks(|x + y|)
    ensures SynthAt(k, x + y, b, i) == SynthAt(k, x, b, i)
  {
    EstCausal(k, x, y, b);
    assert Window(x + y, b) == Window(x, b);
  }

  lemma CarryCausal<S, T, I>(k: Kernel<S, T, I>, x: seq<T>, y: seq<T>, b: nat, i: nat)
    requires b <= Blocks(|x|) && b <= Blocks(|x + y|)
    ensures Carry(k, x + y, b, i) == Carry(k, x, b, i)
  {
    if b > 0 {
      SynthCausal(k, x, y, b - 1, NS_HOP + i);
    }
  }

  lemma {:induction false} StreamCausal<S, T, I>(k: Kernel<S, T, I>, x: seq<T>, y: seq<T>, b: nat)
    requires b <= Blocks(|x|) && b <= Blocks(|x + y|)
    ensures Stream(k, x + y, b) == Stream(k, x, b)
  {
    if b > 0 {
      var z, c := x + y, b - 1;
      StreamCausal(k, x, y, c);
      forall i | 0 <= i < NS_HOP ensures Hop(k, z, c)[i] == Hop(k, x, c)[i] {
        CarryCausal(k, x, y, c, i);
        SynthCausal(k, x, y, c, i);
      }
      assert Hop(k, z, c) == Hop(k, x, c);
    }
  }

  /* ---- The denoiser keeps to the reference ---- */

  /** The state after `b` windows of input `x`, with `popped` samples handed out. */
  ghost predicate Tracks<S, T, I>(k: Kernel<S, T, I>, s: NsState<S, T>, x: seq<T>, b: nat, popped: nat) {
    && b <= Blocks(|x|) && b * NS_HOP <= |x| && popped <= NS_FFT + b * NS_HOP
    && s.inFifo == x[b * NS_HOP..]
    && s.est == EstAt(k, x, b)
    && |s.ola| == NS_FFT && (forall i :: 0 <= i < NS_FFT ==> s.ola[i] == Carry(k, x, b, i))
    && s.outFifo == Primed(k, x, b)[popped..]
  }

  lemma NextWindow<T>(x: seq<T>, fifo: seq<T>, b: nat)
    requires b * NS_HOP <= |x| && fifo == x[b * NS_HOP..] && |fifo| >= NS_FFT
    ensures b < Blocks(|x|) && fifo[..NS_FFT] == Window(x, b) && fifo[NS_HOP..] == x[(b + 1) * NS_HOP..]
  {
    BlocksBounds(|x|);
  }

  lemma NextHop<S, T, I>(k: Kernel<S, T, I>, x: seq<T>, b: nat, sum: seq<T>)
    requires b < Blocks(|x|) && |sum| == NS_FFT
    requires forall i :: 0 <= i < NS_FFT ==> sum[i] == k.add(Carry(k, x, b, i), SynthAt(k, x, b, i))
    ensures Cleaned(k, sum[..NS_HOP]) == Hop(k, x, b)
    ensures var ola := sum[NS_HOP..] + Zeros(k, NS_HOP); forall i :: 0 <= i < NS_FFT ==> ola[i] == Carry(k, x, b + 1, i)
  {
    var ola := sum[NS_HOP..] + Zeros(k, NS_HOP);
    forall i | 0 <= i < NS_FFT ensures ola[i] == Carry(k, x, b + 1, i) {
      if i < NS_HOP {
        assert ola[i] == sum[NS_HOP + i] && Carry(k, x, b, NS_HOP + i) == k.zero;
      }
    }
  }

  lemma PrimedSnoc<S, T, I>(k: Kernel<S, T, I>, x: seq<T>, b: nat, popped: nat)
    requires b < Blocks(|x|) && popped <= NS_FFT + b * NS_HOP
    ensures Primed(k, x, b + 1)[popped..] == Primed(k, x, b)[popped..] + Hop(k, x, b)
  {
    assert Primed(k, x, b + 1) == Primed(k, x, b) + Hop(k, x, b);
  }

  lemma BlockTracks<S, T, I>(k: Kernel<S, T, I>, s: NsState<S, T>, x: seq<T>, b: nat, popped: nat)
    requires Tracks(k, s, x, b, popped) && |s.inFifo| >= NS_FFT
    ensures Tracks(k, BlockStep(k, s), x, b + 1, popped)
  {
    NextWindow(x, s.inFifo, b);
    NextHop(k, x, b, Accumulated(k, s));
    PrimedSnoc(k, x, b, popped);
  }

  lemma {:induction false} AllBlocksTrack<S, T, I>(k: Kernel<S, T, I>, s: NsState<S, T>, x: seq<T>, b: nat, popped: nat)
    requires Tracks(k, s, x, b, popped)
    ensures Tracks(k, AllBlocks(k, s), x, Blocks(|x|), popped)
    decreases |s.inFifo|
  {
    if |s.inFifo| >= NS_FFT {
      BlockTracks(k, s, x, b, popped);
      AllBlocksTrack(k, BlockStep(k, s), x, b + 1, popped);
    } else {
      BlocksBounds(|x|);
      assert b == Blocks(|x|);
    }
  }

  lemma PushTracks<S, T, I>(k: Kernel<S, T, I>, s: NsState<S, T>, x: seq<T>, y: seq<T>, b: nat, popped: nat)
    requires Tracks(k, s, x, b, popped)
    ensures Tracks(k, s.(inFifo := s.inFifo + y), x + y, b, popped)
  {
    BlocksMonotone(|x|, |x + y|);
    EstCausal(k, x, y, b);
    StreamCausal(k, x, y, b);
    forall i | 0 <= i < NS_FFT ensures Carry(k, x + y, b, i) == Carry(k, x, b, i) {
      CarryCausal(k, x, y, b, i);
    }
  }

  lemma {:induction false} StreamPrefix<S, T, I>(k: Kernel<S, T, I>, x: seq<T>, b: nat, c: nat)
    requires b <= c <= Blocks(|x|)
    ensures Stream(k, x, b) == Stream(k, x, c)[..b * NS_HOP]
  {
    if b < c {
      StreamPrefix(k, x, b, c - 1);
    } else {
      assert Stream(k, x, c)[..b * NS_HOP] == Stream(k, x, c);
    }
  }

  /** More input never changes what has been handed out. */
  lemma PrimedCausal<S, T, I>(k: Kernel<S, T, I>, x: seq<T>, y: seq<T>)
    ensures |x| <= NS_FFT + Blocks(|x|) * NS_HOP && |x| <= NS_FFT + Blocks(|x + y|) * NS_HOP
    ensures Primed(k, x + y, Blocks(|x + y|))[..|x|] == Primed(k, x, Blocks(|x|))[..|x|]
  {
    BlocksBounds(|x|);
    BlocksMonotone(|x|, |x + y|);
    StreamCausal(k, x, y, Blocks(|x|));
    StreamPrefix(k, x + y, Blocks(|x|), Blocks(|x + y|));
  }

  lemma FrameTracks<S, T, I>(k: Kernel<S, T, I>, s: NsState<S, T>, x: seq<T>, pcm: seq<I>)
    requires Tracks(k, s, x, Blocks(|x|), |x|)
    ensures var x' := x + Normalized(k, pcm);
      && |x'| <= NS_FFT + Blocks(|x'|) * NS_HOP
      && Tracks(k, FrameStep(k, s, pcm).0, x', Blocks(|x'|), |x'|)
      && FrameStep(k, s, pcm).1 == Denormalized(k, Primed(k, x', Blocks(|x'|))[|x|..|x'|])
  {
    var y := Normalized(k, pcm);
    BlocksBounds(|x + y|);
    if pcm == [] {
      assert x + y == x;
    } else {
      PushTracks(k, s, x, y, Blocks(|x|), |x|);
      AllBlocksTrack(k, s.(inFifo := s.inFifo + y), x + y, Blocks(|x|), |x|);
      var t := AllBlocks(k, s.(inFifo := s.inFifo + y));
      var all := Primed(k, x + y, Blocks(|x + y|));
      assert t.outFifo == all[|x|..];
      assert t.outFifo[..|pcm|] == all[|x|..|x + y|];
      assert t.outFifo[|pcm|..] == all[|x + y|..];
    }
  }

  lemma NormalizedAppend<S, T, I>(k: Kernel<S, T, I>, a: seq<I>, b: seq<I>)
    ensures Normalized(k, a + b) == Normalized(k, a) + Normalized(k, b)
  {
  }

  /** However the input is cut into frames, the frames that come back, one after the other, are the
      reference output of the whole input: 256 zeros, then the overlap-add stream, cut to its
      length. The output queue never runs dry. */
  lemma {:induction false} FramesMatchReference<S, T, I>(k: Kernel<S, T, I>, frames: seq<seq<I>>)
    ensures var x := Normalized(k, Flatten(frames));
      Tracks(k, Frames(k, frames).0, x, Blocks(|x|), |x|) && Frames(k, frames).1 == Reference(k, Flatten(frames))
  {
    if frames == [] {
      var none: seq<I> := [];
      assert Flatten(frames) == none && Normalized(k, none) == [];
      assert Primed(k, Normalized(k, none), 0) == Zeros(k, NS_FFT);
    } else {
      var init, last := frames[..|frames| - 1], frames[|frames| - 1];
      FramesMatchReference(k, init);
      var x, y := Normalized(k, Flatten(init)), Normalized(k, last);
      NormalizedAppend(k, Flatten(init), last);
      FrameTracks(k, Frames(k, init).0, x, last);
      ReferenceGrows(k, Flatten(init), last);
    }
  }

  lemma ReferenceGrows<S, T, I>(k: Kernel<S, T, I>, a: seq<I>, b: seq<I>)
    ensures var x := Normalized(k, a + b);
      && |x| <= NS_FFT + Blocks(|x|) * NS_HOP
      && Reference(k, a + b) == Reference(k, a) + Denormalized(k, Primed(k, x, Blocks(|x|))[|a|..|x|])
  {
    NormalizedAppend(k, a, b);
    PrimedCausal(k, Normalized(k, a), Normalized(k, b));
    BlocksBounds(|a + b|);
    var all := Primed(k, Normalized(k, a + b), Blocks(|a + b|));
    assert all[..|a + b|] == all[..|a|] + all[|a|..|a + b|];
  }

  /** Two ways of cutting the same input give the same output. */
  lemma ChunkingInvariance<S, T, I>(k: Kernel<S, T, I>, f: seq<seq<I>>, g: seq<seq<I>>)
    requires Flatten(f) == Flatten(g)
    ensures Frames(k, f).1 == Frames(k, g).1
  {
    FramesMatchReference(k, f);
    FramesMatchReference(k, g);
  }
}
