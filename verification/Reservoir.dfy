/** The deterministic reservoir: which of the values seen so far each sample slot holds. */
module Reservoir {
  import opened Collections

  const GOLDEN := 0x9E37_79B9_7F4A_7C15

  /** The upper half of the wrapping 64-bit product of n and the golden-ratio constant,
      reduced modulo n. */
  function HashedIndex(n: nat): (j: nat)
    requires n > 0
    ensures j < n
  {
    var h := n * GOLDEN % 0x1_0000_0000_0000_0000 / 0x1_0000_0000;
    h % n
  }

  /** The hash is the upper half of the lower 64 bits of the product. */
  lemma HashedIndexExact(n: nat, q: nat, high: nat, low: nat)
    requires n > 0 && Product(n, q, high, low)
    ensures HashedIndex(n) == high % n
  {
    Bits64(n * GOLDEN, q, high * 0x1_0000_0000 + low);
    Bits32(high * 0x1_0000_0000 + low, high, low);
  }

  lemma Bits64(p: nat, q: nat, r: nat)
    requires p == q * 0x1_0000_0000_0000_0000 + r && r < 0x1_0000_0000_0000_0000
    ensures p % 0x1_0000_0000_0000_0000 == r
  {
  }

  lemma Bits32(r: nat, high: nat, low: nat)
    requires r == high * 0x1_0000_0000 + low && low < 0x1_0000_0000
    ensures r / 0x1_0000_0000 == high
  {
  }

  /** The product of n and the golden-ratio constant, split at bits 64 and 32. */
  ghost predicate Product(n: nat, q: nat, high: nat, low: nat) {
    && n * 0x9E37_79B9_7F4A_7C15 == q * 0x1_0000_0000_0000_0000 + high * 0x1_0000_0000 + low
    && high < 0x1_0000_0000 && low < 0x1_0000_0000
  }

  lemma ProductSplits(n: nat) returns (q: nat, high: nat, low: nat)
    ensures Product(n, q, high, low)
  {
    var p := n * 0x9E37_79B9_7F4A_7C15;
    q := p / 0x1_0000_0000_0000_0000;
    high := p % 0x1_0000_0000_0000_0000 / 0x1_0000_0000;
    low := p % 0x1_0000_0000_0000_0000 % 0x1_0000_0000;
  }

  /** The slot the n-th value is offered to: its own index while there is room, then its
      hashed index. Only slots below `slots` exist. */
  function Slot(n: nat, slots: nat): (j: nat)
    requires n > 0
    ensures j < n
  {
    if n <= slots then n - 1 else HashedIndex(n)
  }

  /** Is the m-th value put into slot `i`: its own while there is room, and then the one that the
      product with the constant gives. */
  ghost predicate GoesTo(m: nat, slots: nat, i: nat) {
    && m > 0
    && if m <= slots then i == m - 1
       else exists q: nat, high: nat, low: nat :: Product(m, q, high, low) && i == high % m
  }

  lemma GoesToExact(m: nat, slots: nat, i: nat)
    requires m > 0
    ensures GoesTo(m, slots, i) <==> Slot(m, slots) == i
  {
    hide HashedIndex;
    if m > slots {
      var q, high, low := ProductSplits(m);
      HashedIndexExact(m, q, high, low);
      forall q': nat, high': nat, low': nat | Product(m, q', high', low') ensures high' % m == HashedIndex(m) {
        HashedIndexExact(m, q', high', low');
      }
    }
  }

  /** The last of the first `n` values offered to slot `i`. */
  ghost function LastOffered(n: nat, i: nat, slots: nat): (m: nat)
    requires i < Min(n, slots)
    ensures 1 <= m <= n && Slot(m, slots) == i
    ensures forall k :: m < k <= n ==> Slot(k, slots) != i
  {
    if Slot(n, slots) == i then n else LastOffered(n - 1, i, slots)
  }

  /** The samples held after seeing `xs`: slot i holds the last value offered to it. */
  ghost function Sampled<T>(xs: seq<T>, slots: nat): seq<T> {
    seq(Min(|xs|, slots), i requires 0 <= i < Min(|xs|, slots) => xs[LastOffered(|xs|, i, slots) - 1])
  }

  lemma SampledAppend<T>(xs: seq<T>, x: T, slots: nat)
    ensures |Sampled(xs, slots)| == Min(|xs|, slots)
    ensures Sampled(xs + [x], slots) ==
            if |xs| < slots then Sampled(xs, slots) + [x]
            else if Slot(|xs| + 1, slots) < slots then Sampled(xs, slots)[Slot(|xs| + 1, slots) := x]
            else Sampled(xs, slots)
  {
    var n, a, b := |xs|, Sampled(xs, slots), Sampled(xs + [x], slots);
    forall i | 0 <= i < |b|
      ensures b[i] == if Slot(n + 1, slots) == i then x else a[i]
    {
    }
  }

  /** An occurrence is still held exactly if no later one was offered to its slot. */
  lemma HeldExactly(n: nat, slots: nat, m: nat)
    requires 1 <= m <= n && Slot(m, slots) < slots
    ensures LastOffered(n, Slot(m, slots), slots) == m <==>
            forall k :: m < k <= n ==> Slot(k, slots) != Slot(m, slots)
  {
    hide Slot, HashedIndex, LastOffered;
    var h := LastOffered(n, Slot(m, slots), slots);
    assert m <= h;
  }

  lemma DistinctOccurrences(n: nat, slots: nat, i: nat, j: nat)
    requires i < j < Min(n, slots)
    ensures LastOffered(n, i, slots) != LastOffered(n, j, slots)
  {
    assert Slot(LastOffered(n, i, slots), slots) == i;
  }

  /** After n values there are min(n, slots) samples, each a value that was seen; different slots
      hold different occurrences, and an occurrence is still held exactly if no later one was
      offered to its slot. */
  lemma SampledMeaning<T>(xs: seq<T>, slots: nat)
    ensures |Sampled(xs, slots)| == Min(|xs|, slots)
    ensures forall i :: 0 <= i < |Sampled(xs, slots)| ==>
              Sampled(xs, slots)[i] == xs[LastOffered(|xs|, i, slots) - 1]
    ensures forall i, j :: 0 <= i < j < Min(|xs|, slots) ==>
              LastOffered(|xs|, i, slots) != LastOffered(|xs|, j, slots)
    ensures forall m :: 1 <= m <= |xs| && Slot(m, slots) < slots ==>
              (LastOffered(|xs|, Slot(m, slots), slots) == m <==>
               forall k :: m < k <= |xs| ==> Slot(k, slots) != Slot(m, slots))
  {
    hide Slot, HashedIndex, LastOffered;
    var n := |xs|;
    forall i, j | 0 <= i < j < Min(n, slots) ensures LastOffered(n, i, slots) != LastOffered(n, j, slots) {
      DistinctOccurrences(n, slots, i, j);
    }
    forall m | 1 <= m <= n && Slot(m, slots) < slots
      ensures LastOffered(n, Slot(m, slots), slots) == m <==>
              forall k :: m < k <= n ==> Slot(k, slots) != Slot(m, slots)
    {
      HeldExactly(n, slots, m);
    }
  }

  /** What the arrival of value number n changes: the samples grow while there is room; afterwards
      one slot is overwritten, or none, as the product of n and the constant says. */
  lemma SampleStep<T>(xs: seq<T>, x: T, slots: nat, q: nat, high: nat, low: nat)
    requires Product(|xs| + 1, q, high, low)
    ensures var n, a, b := |xs| + 1, Sampled(xs, slots), Sampled(xs + [x], slots);
            && (n <= slots ==> b == a + [x])
            && (n > slots && high % n < slots ==> |a| == slots && b == a[high % n := x])
            && (n > slots && high % n >= slots ==> b == a)
  {
    HashedIndexExact(|xs| + 1, q, high, low);
    SampledAppend(xs, x, slots);
  }

  /** With five slots the sixth value replaces the third. */
  lemma SixthSample<T>(xs: seq<T>)
    requires |xs| == 6
    ensures Sampled(xs, 5) == [xs[0], xs[1], xs[5], xs[3], xs[4]]
  {
    assert Product(6, 3, 0xB54C_DA58, 0xFBBE_E87E);
    FewSamples(xs[..5], 5);
    assert xs == xs[..5] + [xs[5]];
    SampleStep(xs[..5], xs[5], 5, 3, 0xB54C_DA58, 0xFBBE_E87E);
  }

  /** While there is room, the samples are all values. */
  lemma {:induction false} FewSamples<T>(xs: seq<T>, slots: nat)
    requires |xs| <= slots
    ensures Sampled(xs, slots) == xs
  {
    if xs != [] {
      FewSamples(Front(xs), slots);
      assert xs == Front(xs) + [Last(xs)];
      SampledAppend(Front(xs), Last(xs), slots);
    }
  }
}
