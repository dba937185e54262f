/** The in-place bit-reversal permutation at the head of `fft` in android-native/src/audio_effects.rs,
    for arrays of any power-of-two length. Bit tests and flips of one bit are written as arithmetic:
    bit `b` of `j` is set when `j / b % 2 == 1`. */
module BitReversal {

  function Pow2(p: nat): (r: nat)
    ensures r >= 1
  {
    if p == 0 then 1 else 2 * Pow2(p - 1)
  }

  /** `i` with its `p` low bits in reverse order. */
  function Rev(i: nat, p: nat): nat
    requires i < Pow2(p)
  {
    if p == 0 then 0 else (if i % 2 == 1 then Pow2(p - 1) else 0) + Rev(i / 2, p - 1)
  }

  lemma {:induction false} RevBound(i: nat, p: nat)
    requires i < Pow2(p)
    ensures Rev(i, p) < Pow2(p)
  {
    if p > 0 {
      RevBound(i / 2, p - 1);
    }
  }

  /** The highest bit of the argument is the lowest of the result. */
  lemma {:induction false} RevHigh(high: bool, low: nat, p: nat)
    requires p > 0 && low < Pow2(p - 1)
    ensures var i := (if high then Pow2(p - 1) else 0) + low;
      i < Pow2(p) && Rev(i, p) == 2 * Rev(low, p - 1) + if high then 1 else 0
  {
    if p > 1 {
      RevHigh(high, low / 2, p - 1);
      var i := (if high then 2 * Pow2(p - 2) else 0) + low;
      assert i / 2 == (if high then Pow2(p - 2) else 0) + low / 2 && i % 2 == low % 2;
    }
  }

  lemma DivUnique(x: nat, q: nat, d: nat, r: nat)
    requires q > 0 && x == q * d + r && r < q
    ensures x / q == d && x % q == r
  {
    MulMonotone(q, x / q + 1, d);
    MulMonotone(q, d + 1, x / q);
  }

  lemma MulMonotone(q: nat, a: int, b: int)
    ensures a <= b ==> q * a <= q * b
  {
    if a <= b {
      assert q * (b - a) >= 0;
    }
  }

  /** Reversing twice gives the number back. */
  lemma {:induction false} RevInvolutive(i: nat, p: nat)
    requires i < Pow2(p)
    ensures Rev(i, p) < Pow2(p) && Rev(Rev(i, p), p) == i
  {
    RevBound(i, p);
    if p > 0 {
      var low := Rev(i / 2, p - 1);
      RevBound(i / 2, p - 1);
      RevInvolutive(i / 2, p - 1);
      RevHigh(i % 2 == 1, low, p);
    }
  }

  function Bit(x: nat, k: nat): nat {
    if k == 0 then x % 2 else Bit(x / 2, k - 1)
  }

  lemma {:induction false} BitOfSum(b: nat, r: nat, q: nat, k: nat)
    requires b < 2 && r < Pow2(q) && k <= q
    ensures Bit(b * Pow2(q) + r, k) == if k < q then Bit(r, k) else b
  {
    if q > 0 {
      assert (b * Pow2(q) + r) / 2 == b * Pow2(q - 1) + r / 2 && (b * Pow2(q) + r) % 2 == r % 2 by {
        assert b * Pow2(q) == 2 * (b * Pow2(q - 1));
      }
      if k > 0 {
        BitOfSum(b, r / 2, q - 1, k - 1);
      }
    }
  }

  /** Bit by bit: bit `k` of the reverse is bit `p - 1 - k` of the number. */
  lemma {:induction false} RevReversesBits(i: nat, p: nat, k: nat)
    requires i < Pow2(p) && k < p
    ensures Bit(Rev(i, p), k) == Bit(i, p - 1 - k)
  {
    RevBound(i / 2, p - 1);
    BitOfSum(i % 2, Rev(i / 2, p - 1), p - 1, k);
    assert Rev(i, p) == i % 2 * Pow2(p - 1) + Rev(i / 2, p - 1);
    if k < p - 1 {
      RevReversesBits(i / 2, p - 1, k);
    }
  }

  /** One turn of the carry loop, on the top bit of `q`: it is set when `c` is odd. Clearing it
      leaves the reverse of `c / 2`, still one short of the target; setting it reaches the target. */
  lemma CarryTurn(c: nat, q: nat)
    requires q > 0 && c + 1 < Pow2(q)
    ensures Rev(c, q) / Pow2(q - 1) % 2 == c % 2
    ensures c % 2 == 1 ==>
      && q > 1 && c / 2 + 1 < Pow2(q - 1) && Pow2(q - 1) / 2 == Pow2(q - 2)
      && Rev(c, q) - Pow2(q - 1) == Rev(c / 2, q - 1) && Rev(c + 1, q) == Rev(c / 2 + 1, q - 1)
    ensures c % 2 == 0 ==> Rev(c, q) + Pow2(q - 1) == Rev(c + 1, q)
  {
    RevBound(c / 2, q - 1);
    DivUnique(Rev(c, q), Pow2(q - 1), c % 2, Rev(c / 2, q - 1));
    if c % 2 == 1 {
      assert (c + 1) / 2 == c / 2 + 1 && (c + 1) % 2 == 0;
    } else {
      assert (c + 1) / 2 == c / 2 && (c + 1) % 2 == 1;
    }
  }

  /** From the reverse of `i - 1` to the reverse of `i`, as the source's inner loop does it. */
  method NextReversed(j: nat, n: nat, ghost i: nat, ghost p: nat) returns (r: nat)
    requires n == Pow2(p) && 0 < i < n && j == Rev(i - 1, p)
    ensures r == Rev(i, p)
  {
    r := j;
    var bit := n / 2;
    ghost var c: nat, q: nat := i - 1, p;
    CarryTurn(c, q);
    while r / bit % 2 == 1
      invariant q > 0 && bit == Pow2(q - 1) && c + 1 < Pow2(q)
      invariant r == Rev(c, q) && Rev(i, p) == Rev(c + 1, q)
      decreases q
    {
      CarryTurn(c, q);
      r := r - bit;
      bit := bit / 2;
      c, q := c / 2, q - 1;
    }
    CarryTurn(c, q);
    r := r + bit;
  }

  /** The array with element `Rev(i)` at place `i`. */
  function Permuted<T>(s: seq<T>, p: nat): (r: seq<T>)
    requires |s| == Pow2(p)
    ensures |r| == |s|
    ensures forall i :: 0 <= i < |s| ==> Rev(i, p) < |s| && r[i] == s[Rev(i, p)]
  {
    assert forall i :: 0 <= i < |s| ==> Rev(i, p) < |s| by {
      forall i | 0 <= i < |s| ensures Rev(i, p) < |s| {
        RevBound(i, p);
      }
    }
    seq(|s|, i requires 0 <= i < |s| => s[Rev(i, p)])
  }

  /** Running the permutation twice restores the array. */
  lemma PermutedTwice<T>(s: seq<T>, p: nat)
    requires |s| == Pow2(p)
    ensures Permuted(Permuted(s, p), p) == s
  {
    forall i | 0 <= i < |s| ensures Permuted(Permuted(s, p), p)[i] == s[i] {
      RevInvolutive(i, p);
    }
  }

  /** The array when the swaps of all pairs whose smaller index is below `n` are done. */
  ghost predicate SwappedBelow<T>(a: seq<T>, s: seq<T>, p: nat, n: nat)
    requires |a| == |s| == Pow2(p)
  {
    forall i :: 0 <= i < |s| ==>
      && Rev(i, p) < |s|
      && a[i] == if i < n || Rev(i, p) < n then s[Rev(i, p)] else s[i]
  }

  method BitReverse<T>(re: array<T>, im: array<T>, ghost p: nat)
    requires re != im && re.Length == im.Length == Pow2(p)
    modifies re, im
    ensures re[..] == Permuted(old(re[..]), p) && im[..] == Permuted(old(im[..]), p)
  {
    var n := re.Length;
    forall i | 0 <= i < n ensures Rev(i, p) < n {
      RevBound(i, p);
    }
    RevZero(p);
    if n <= 1 {
      return;
    }
    var j := 0;
    SwapStart(re[..], p);
    SwapStart(im[..], p);
    for i := 1 to n
      invariant j == Rev(i - 1, p)
      invariant SwappedBelow(re[..], old(re[..]), p, i)
      invariant SwappedBelow(im[..], old(im[..]), p, i)
    {
      j := NextReversed(j, n, i, p);
      SwapStep(re[..], old(re[..]), p, i);
      SwapStep(im[..], old(im[..]), p, i);
      if i < j {
        ghost var r, m := re[..], im[..];
        re[i], re[j] := re[j], re[i];
        im[i], im[j] := im[j], im[i];
        assert re[..] == r[i := r[j]][j := r[i]];
        assert im[..] == m[i := m[j]][j := m[i]];
      }
    }
  }

  lemma {:induction false} RevZero(p: nat)
    ensures Rev(0, p) == 0
  {
    if p > 0 {
      RevZero(p - 1);
    }
  }

  lemma SwapStart<T>(s: seq<T>, p: nat)
    requires |s| == Pow2(p)
    ensures SwappedBelow(s, s, p, 1)
  {
    RevZero(p);
    forall i | 0 <= i < |s| ensures Rev(i, p) < |s| && (Rev(i, p) == 0 ==> i == 0) {
      RevInvolutive(i, p);
    }
  }

  lemma SwapStep<T>(a: seq<T>, s: seq<T>, p: nat, i: nat)
    requires |a| == |s| == Pow2(p) && i < |s| && SwappedBelow(a, s, p, i)
    ensures Rev(i, p) < |s|
    ensures SwappedBelow(if i < Rev(i, p) then a[i := a[Rev(i, p)]][Rev(i, p) := a[i]] else a, s, p, i + 1)
  {
    RevInvolutive(i, p);
    var j := Rev(i, p);
    var b := if i < j then a[i := a[j]][j := a[i]] else a;
    forall k | 0 <= k < |s|
      ensures Rev(k, p) < |s| && b[k] == if k < i + 1 || Rev(k, p) < i + 1 then s[Rev(k, p)] else s[k]
    {
      RevInvolutive(k, p);
      assert Rev(k, p) == i <==> k == j;
    }
  }
}
