/** The streaming plumbing of `denoise_frame` in android-native/src/audio_effects.rs: an input FIFO,
    overlap-add and an output FIFO around a block transform.

    The transform and the arithmetic on samples are parameters, so what is proved holds for any
    block transform and for floating-point addition as it is. */
module Denoiser {

  const NS_FFT: nat := 256
  const NS_HOP: nat := 128

  /** S: estimator state, T: sample inside the denoiser, I: PCM sample of the caller. */
  datatype Kernel<!S, !T, !I> = Kernel(
    initial: S,
    next: (S, seq<T>) -> S,         // the estimators after a block
    synth: (S, seq<T>, nat) -> T,   // sample i of the synthesised block
    zero: T,
    add: (T, T) -> T,
    clean: T -> T,                  // non-finite becomes zero
    normalize: I -> T,
    denormalize: T -> I)            // scale, clamp and truncate

  datatype NsState<S, T> = NsState(inFifo: seq<T>, ola: seq<T>, outFifo: seq<T>, est: S)

  function Zeros<S, T, I>(k: Kernel<S, T, I>, n: nat): (r: seq<T>)
    ensures |r| == n && forall i :: 0 <= i < n ==> r[i] == k.zero
  {
    seq(n, i => k.zero)
  }

  function FreshState<S, T, I>(k: Kernel<S, T, I>): NsState<S, T> {
    NsState([], Zeros(k, NS_FFT), Zeros(k, NS_FFT), k.initial)
  }

  function Normalized<S, T, I>(k: Kernel<S, T, I>, pcm: seq<I>): (r: seq<T>)
    ensures |r| == |pcm| && forall i :: 0 <= i < |pcm| ==> r[i] == k.normalize(pcm[i])
  {
    seq(|pcm|, i requires 0 <= i < |pcm| => k.normalize(pcm[i]))
  }

  function Denormalized<S, T, I>(k: Kernel<S, T, I>, xs: seq<T>): (r: seq<I>)
    ensures |r| == |xs| && forall i :: 0 <= i < |xs| ==> r[i] == k.denormalize(xs[i])
  {
    seq(|xs|, i requires 0 <= i < |xs| => k.denormalize(xs[i]))
  }

  /* ---- One block, one frame ---- */

  function Accumulated<S, T, I>(k: Kernel<S, T, I>, s: NsState<S, T>): (r: seq<T>)
    requires |s.ola| == NS_FFT && |s.inFifo| >= NS_FFT
    ensures |r| == NS_FFT
    ensures forall i :: 0 <= i < NS_FFT ==> r[i] == k.add(s.ola[i], k.synth(s.est, s.inFifo[..NS_FFT], i))
  {
    seq(NS_FFT, i requires 0 <= i < NS_FFT => k.add(s.ola[i], k.synth(s.est, s.inFifo[..NS_FFT], i)))
  }

  function Cleaned<S, T, I>(k: Kernel<S, T, I>, xs: seq<T>): (r: seq<T>)
    ensures |r| == |xs| && forall i :: 0 <= i < |xs| ==> r[i] == k.clean(xs[i])
  {
    seq(|xs|, i requires 0 <= i < |xs| => k.clean(xs[i]))
  }

  function BlockStep<S, T, I>(k: Kernel<S, T, I>, s: NsState<S, T>): (r: NsState<S, T>)
    requires |s.ola| == NS_FFT && |s.inFifo| >= NS_FFT
    ensures |r.ola| == NS_FFT && |r.inFifo| == |s.inFifo| - NS_HOP
  {
    var sum := Accumulated(k, s);
    NsState(s.inFifo[NS_HOP..], sum[NS_HOP..] + Zeros(k, NS_HOP), s.outFifo + Cleaned(k, sum[..NS_HOP]),
            k.next(s.est, s.inFifo[..NS_FFT]))
  }

  function AllBlocks<S, T, I>(k: Kernel<S, T, I>, s: NsState<S, T>): (r: NsState<S, T>)
    requires |s.ola| == NS_FFT
    ensures |r.ola| == NS_FFT
    decreases |s.inFifo|
  {
    if |s.inFifo| < NS_FFT then s else AllBlocks(k, BlockStep(k, s))
  }

  /** Take `n` samples from the front; zeros stand in for missing ones. */
  function Pulled<S, T, I>(k: Kernel<S, T, I>, out: seq<T>, n: nat): (r: seq<T>)
    ensures |r| == n
  {
    if n <= |out| then out[..n] else out + Zeros(k, n - |out|)
  }

  function FrameStep<S, T, I>(k: Kernel<S, T, I>, s: NsState<S, T>, pcm: seq<I>): (r: (NsState<S, T>, seq<I>))
    requires |s.ola| == NS_FFT
    ensures |r.0.ola| == NS_FFT && |r.1| == |pcm|
  {
    if pcm == [] then (s, [])
    else
      var t := AllBlocks(k, s.(inFifo := s.inFifo + Normalized(k, pcm)));
      (t.(outFifo := if |pcm| <= |t.outFifo| then t.outFifo[|pcm|..] else []),
       Denormalized(k, Pulled(k, t.outFifo, |pcm|)))
  }

  function Frames<S, T, I>(k: Kernel<S, T, I>, frames: seq<seq<I>>): (r: (NsState<S, T>, seq<I>))
    ensures |r.0.ola| == NS_FFT
  {
    if frames == [] then (FreshState(k), [])
    else
      var (s, out) := Frames(k, frames[..|frames| - 1]);
      var (t, more) := FrameStep(k, s, frames[|frames| - 1]);
      (t, out + more)
  }

  /* ---- The class ---- */

  class NoiseSuppressor<S, T, I> {
    const k: Kernel<S, T, I>
    var enabled: bool
    var inFifo: seq<T>
    var ola: seq<T>
    var outFifo: seq<T>
    var est: S

    ghost predicate Valid()
      reads this
    {
      |ola| == NS_FFT
    }

    ghost function View(): NsState<S, T>
      reads this
    {
      NsState(inFifo, ola, outFifo, est)
    }

    constructor (k: Kernel<S, T, I>, enabled: bool)
      ensures Valid() && this.k == k && this.enabled == enabled && View() == FreshState(k)
    {
      this.k, this.enabled := k, enabled;
      inFifo, ola, outFifo, est := [], Zeros(k, NS_FFT), Zeros(k, NS_FFT), k.initial;
    }

    method DenoiseFrame(pcm: array<I>)
      requires Valid()
      modifies this, pcm
      ensures Valid() && enabled == old(enabled)
      ensures !enabled ==> View() == old(View()) && pcm[..] == old(pcm[..])
      ensures enabled ==> (View(), pcm[..]) == FrameStep(k, old(View()), old(pcm[..]))
    {
      if !enabled || pcm.Length == 0 {
        return;
      }
      PushInput(pcm);
      ghost var full := View();
      while |inFifo| >= NS_FFT
        invariant Valid() && enabled == old(enabled) && pcm[..] == old(pcm[..])
        invariant AllBlocks(k, View()) == AllBlocks(k, full)
        decreases |inFifo|
      {
        OneBlock();
      }
      PullOutput(pcm);
    }

    method PushInput(pcm: array<I>)
      modifies this`inFifo
      ensures inFifo == old(inFifo) + Normalized(k, pcm[..])
    {
      for i := 0 to pcm.Length
        invariant inFifo == old(inFifo) + Normalized(k, pcm[..])[..i]
      {
        inFifo := inFifo + [k.normalize(pcm[i])];
      }
    }

    /** The body of the analysis loop. */
    method OneBlock()
      requires Valid() && |inFifo| >= NS_FFT
      modifies this`inFifo, this`ola, this`outFifo, this`est
      ensures Valid() && View() == BlockStep(k, old(View()))
    {
      ghost var sum := Accumulated(k, View());
      var block := inFifo[..NS_FFT];
      for i := 0 to NS_FFT
        invariant |ola| == NS_FFT
        invariant inFifo == old(inFifo) && outFifo == old(outFifo) && est == old(est)
        invariant ola[..i] == sum[..i] && ola[i..] == old(ola)[i..]
      {
        ola := ola[i := k.add(ola[i], k.synth(est, block, i))];
      }
      assert ola == sum;
      est := k.next(est, block);
      for i := 0 to NS_HOP
        invariant ola == sum[i..] && outFifo == old(outFifo) + Cleaned(k, sum[..NS_HOP])[..i]
        invariant inFifo == old(inFifo) && est == k.next(old(est), block)
      {
        outFifo := outFifo + [k.clean(ola[0])];
        ola := ola[1..];
      }
      ola := ola + Zeros(k, NS_HOP);
      inFifo := inFifo[NS_HOP..];
    }

    method PullOutput(pcm: array<I>)
      modifies this`outFifo, pcm
      ensures pcm[..] == Denormalized(k, Pulled(k, old(outFifo), pcm.Length))
      ensures outFifo == if pcm.Length <= |old(outFifo)| then old(outFifo)[pcm.Length..] else []
    {
      ghost var want := Denormalized(k, Pulled(k, outFifo, pcm.Length));
      for i := 0 to pcm.Length
        invariant outFifo == if i <= |old(outFifo)| then old(outFifo)[i..] else []
        invariant pcm[..i] == want[..i]
      {
        var v := if outFifo != [] then outFifo[0] else k.zero;
        outFifo := if outFifo != [] then outFifo[1..] else [];
        pcm[i] := k.denormalize(v);
      }
    }
  }
}
