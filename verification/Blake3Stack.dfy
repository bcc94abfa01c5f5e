// The subtree stack of the incremental hasher: what a completed-chunk count
// leaves on it, what pushing one more chunk does, and what folding it yields.
module Blake3Stack {
  import opened Words
  import opened Blake3Tree

  // ------------------------------------------------------------------------
  // The 64-bit chunk counter as two 32-bit halves

  function CounterInc(c: Counter): (r: Counter)
  {
    var lo := (c.0 + 1) % 0x1_0000_0000;
    var carry := if lo == 0 then 1 else 0;
    (lo, (c.1 + carry) % 0x1_0000_0000)
  }

  lemma CounterIncCounts(n: nat)
    ensures CounterInc(Split(n)) == Split(n + 1)
  {
    var hi, lo := n / 0x1_0000_0000, n % 0x1_0000_0000;
    if lo < 0xFFFF_FFFF {
      DivModOf(hi, lo + 1, 0x1_0000_0000);
    } else {
      DivModOf(hi + 1, 0, 0x1_0000_0000);
      NextMod(hi);
    }
  }

  lemma NextMod(hi: nat)
    ensures (hi % 0x1_0000_0000 + 1) % 0x1_0000_0000 == (hi + 1) % 0x1_0000_0000
  {
  }

  // A word shifted right k places.
  function Shr(w: nat, k: nat): (r: nat)
  {
    if k == 0 then w else Shr(w, k - 1) / 2
  }

  function Bit(c: Counter, i: nat): (b: nat)
  {
    Shr(if i < 32 then c.0 else c.1, i % 32) % 2
  }

  lemma {:induction false} ShrAdd(w: nat, i: nat, j: nat)
    ensures Shr(w, i + j) == Shr(Shr(w, i), j)
  {
    if j > 0 {
      ShrAdd(w, i, j - 1);
    }
  }

  lemma HalfMod(n: nat, p: nat)
    requires p > 0
    ensures n % (2 * p) / 2 == n / 2 % p && n / (2 * p) == n / 2 / p
  {
    var q, r := n / 2 / p, n / 2 % p;
    assert n / 2 == q * p + r;
    assert n == q * (2 * p) + (2 * r + n % 2);
    DivModOf(q, 2 * r + n % 2, 2 * p);
  }

  // Dropping whole multiples of 2^j leaves the bits below j alone.
  lemma {:induction false} LowBits(n: nat, i: nat, j: nat)
    requires i < j
    ensures Shr(n % Pow2(j), i) % 2 == Shr(n, i) % 2
  {
    HalfMod(n, Pow2(j - 1));
    if i > 0 {
      ShrAdd(n, 1, i - 1);
      ShrAdd(n % Pow2(j), 1, i - 1);
      assert Shr(n, 1) == n / 2 && Shr(n % Pow2(j), 1) == n % Pow2(j) / 2;
      LowBits(n / 2, i - 1, j - 1);
    } else {
      EvenMod(n, Pow2(j - 1));
    }
  }

  lemma EvenMod(n: nat, p: nat)
    requires p > 0
    ensures n % (2 * p) % 2 == n % 2
  {
    var q := n / (2 * p);
    assert n == 2 * (q * p) + n % (2 * p) by { assert q * (2 * p) == 2 * (q * p); }
  }

  lemma {:induction false} ShrIsDiv(n: nat, k: nat)
    ensures Shr(n, k) == n / Pow2(k)
  {
    if k > 0 {
      ShrAdd(n, 1, k - 1);
      assert Shr(n, 1) == n / 2;
      ShrIsDiv(n / 2, k - 1);
      HalfMod(n, Pow2(k - 1));
    }
  }

  // The two-word test reads the 64-bit count's own bit.
  lemma BitIsBit(n: nat, i: nat)
    requires i < 64
    ensures Bit(Split(n), i) == Shr(n, i) % 2
  {
    BitOfHalves(Split(n), i);
    if i < 32 {
      LowWordBit(n, i);
    } else {
      HighWordBit(n, i - 32);
    }
  }

  lemma BitOfHalves(c: Counter, i: nat)
    requires i < 64
    ensures i < 32 ==> Bit(c, i) == Shr(c.0, i) % 2
    ensures i >= 32 ==> Bit(c, i) == Shr(c.1, i - 32) % 2
  {
  }

  lemma LowWordBit(n: nat, i: nat)
    requires i < 32
    ensures Shr(n % 0x1_0000_0000, i) % 2 == Shr(n, i) % 2
  {
    Pow2Of32();
    LowBits(n, i, 32);
  }

  lemma HighWordBit(n: nat, j: nat)
    requires j < 32
    ensures Shr(n / 0x1_0000_0000 % 0x1_0000_0000, j) % 2 == Shr(n, 32 + j) % 2
  {
    var hi := n / 0x1_0000_0000;
    LowWordBit(hi, j);
    assert hi == Shr(n, 32) by { Pow2Of32(); ShrIsDiv(n, 32); }
    ShrAdd(n, 32, j);
  }

  // A 64-bit count has no bit left after 64 shifts.
  lemma ShiftBound(total: nat, shift: nat)
    requires total < 0x1_0000_0000_0000_0000
    requires Shr(total, shift) >= 1
    ensures shift < 64
  {
    Pow2Of32();
    ShrIsDiv(total, 32);
    ShrAdd(total, 32, 32);
    ShrIsDiv(Shr(total, 32), 32);
    assert Shr(total, 64) == 0;
    ShrStaysZero(total, 64, shift);
  }

  lemma {:induction false} ShrStaysZero(n: nat, k: nat, j: nat)
    requires Shr(n, k) == 0
    ensures j >= k ==> Shr(n, j) == 0
  {
    if j > k {
      ShrStaysZero(n, k, j - 1);
    }
  }

  // ------------------------------------------------------------------------
  // What the stack holds after |cvs| chunks

  function TopPow2(n: nat): (p: nat)
    requires n >= 1
    ensures IsPow2(p) && p <= n < 2 * p
  {
    if n == 1 then 1
    else
      var h := TopPow2(n / 2);
      assert (2 * h) / 2 == h;
      2 * h
  }

  // Greedily: the largest perfect subtree that fits, then the rest.
  function StackOf(f: Compression, mode: Mode, cvs: seq<Cv>): (stack: seq<Cv>)
    decreases |cvs|
  {
    if |cvs| == 0 then []
    else
      var top := TopPow2(|cvs|);
      [Tree(f, mode, cvs[..top])] + StackOf(f, mode, cvs[top..])
  }

  // The same stack read from its top, one bit of the count at a time: an odd
  // last node stays, the pairs below it form the level above.
  function BitStack(f: Compression, mode: Mode, cvs: seq<Cv>): (stack: seq<Cv>)
    ensures |stack| == PopCount(|cvs|)
    decreases |cvs|
  {
    if |cvs| == 0 then []
    else
      var even := |cvs| - |cvs| % 2;
      BitStack(f, mode, Level(f, mode, cvs[..even])) + cvs[even..]
  }

  // The sizes of those subtrees.
  function StackSizes(n: nat): (sizes: seq<nat>)
  {
    if n == 0 then [] else [TopPow2(n)] + StackSizes(n - TopPow2(n))
  }

  function PopCount(n: nat): (c: nat)
  {
    if n == 0 then 0 else n % 2 + PopCount(n / 2)
  }

  function TrailingZeros(n: nat): (z: nat)
    requires n >= 1
  {
    if n % 2 == 1 then 0 else 1 + TrailingZeros(n / 2)
  }

  lemma {:induction false} BitStackUnfold(f: Compression, mode: Mode, even: seq<Cv>, odd: seq<Cv>)
    requires |even| % 2 == 0 && |odd| <= 1
    ensures BitStack(f, mode, even + odd) == BitStack(f, mode, Level(f, mode, even)) + odd
  {
    hide PopCount, Level, Tree;
    var cvs := even + odd;
    if |cvs| > 0 {
      var n := |cvs| - |cvs| % 2;
      assert n == |even|;
      assert cvs[..n] == even && cvs[n..] == odd;
    }
  }

  // The first tree the greedy reading takes is whole, so it survives a level.
  lemma {:induction false} BitStackHead(f: Compression, mode: Mode, a: seq<Cv>, b: seq<Cv>)
    requires |b| < |a|
    requires IsPow2(|a|)
    ensures BitStack(f, mode, a + b) == [Tree(f, mode, a)] + BitStack(f, mode, b)
    decreases |a|
  {
    hide BitStack, Level, Tree, PopCount, IsPow2;
    if |a| == 1 {
      BitStackOne(f, mode, a);
      assert a + b == a;
    } else {
      var n := |b| - |b| % 2;
      var even, odd := b[..n], b[n..];
      HalfBelow(|a|, |b|);
      BitStackStep(f, mode, a, even, odd);
      LevelKeepsTree(f, mode, a);
      var a2, b2 := Level(f, mode, a), Level(f, mode, even);
      assert IsPow2(|a2|) && |b2| < |a2|;
      BitStackHead(f, mode, a2, b2);
      assert b == even + odd;
    }
  }

  lemma BitStackOne(f: Compression, mode: Mode, a: seq<Cv>)
    requires |a| == 1
    ensures BitStack(f, mode, []) == []
    ensures BitStack(f, mode, a) == [Tree(f, mode, a)]
  {
    assert [] + a == a;
    BitStackUnfold(f, mode, [], a);
  }

  lemma HalfBelow(m: nat, n: nat)
    requires m > 1 && IsPow2(m) && n < m
    ensures IsPow2((m + 1) / 2) && (n - n % 2 + 1) / 2 < (m + 1) / 2 < m
    ensures m % 2 == 0 && (n - n % 2) % 2 == 0
  {
    assert (m + 1) / 2 == m / 2;
  }

  lemma BitStackStep(f: Compression, mode: Mode, a: seq<Cv>, even: seq<Cv>, odd: seq<Cv>)
    requires |a| % 2 == 0 && |even| % 2 == 0 && |odd| <= 1
    ensures BitStack(f, mode, a + (even + odd)) == BitStack(f, mode, Level(f, mode, a) + Level(f, mode, even)) + odd
    ensures BitStack(f, mode, even + odd) == BitStack(f, mode, Level(f, mode, even)) + odd
  {
    assert a + (even + odd) == (a + even) + odd;
    BitStackUnfold(f, mode, a + even, odd);
    BitStackUnfold(f, mode, even, odd);
    LevelSplit(f, mode, a, even);
  }

  // The two readings agree: the live stack is the greedy decomposition, one
  // perfect subtree per set bit of the count.
  lemma {:induction false} StackReadings(f: Compression, mode: Mode, cvs: seq<Cv>)
    ensures BitStack(f, mode, cvs) == StackOf(f, mode, cvs)
    ensures |StackOf(f, mode, cvs)| == PopCount(|cvs|)
    decreases |cvs|
  {
    if |cvs| > 0 {
      var top := TopPow2(|cvs|);
      var a, b := cvs[..top], cvs[top..];
      assert cvs == a + b;
      StackReadings(f, mode, b);
      BitStackHead(f, mode, a, b);
    }
  }

  // Cutting a row into consecutive runs of the given sizes.
  function Cut(f: Compression, mode: Mode, cvs: seq<Cv>, sizes: seq<nat>): (trees: seq<Cv>)
    requires Sum(sizes) == |cvs| && 0 !in sizes
  {
    if |sizes| == 0 then []
    else
      [Tree(f, mode, cvs[..sizes[0]])] + Cut(f, mode, cvs[sizes[0]..], sizes[1..])
  }

  // Entry k of the stack is the tree over the k-th run of the expansion.
  lemma {:induction false} StackSizesMatch(f: Compression, mode: Mode, cvs: seq<Cv>)
    ensures Sum(StackSizes(|cvs|)) == |cvs| && 0 !in StackSizes(|cvs|)
    ensures StackOf(f, mode, cvs) == Cut(f, mode, cvs, StackSizes(|cvs|))
    decreases |cvs|
  {
    StackSizesAreBinary(|cvs|);
    if |cvs| > 0 {
      var top := TopPow2(|cvs|);
      StackSizesMatch(f, mode, cvs[top..]);
      assert StackSizes(|cvs|)[1..] == StackSizes(|cvs| - top);
    }
  }

  function Sum(s: seq<nat>): (t: nat)
  {
    if |s| == 0 then 0 else s[0] + Sum(s[1..])
  }

  // The sizes are the binary expansion of the count, largest first.
  lemma {:induction false} StackSizesAreBinary(n: nat)
    ensures forall i :: 0 <= i < |StackSizes(n)| ==> IsPow2(StackSizes(n)[i]) && StackSizes(n)[i] <= n
    ensures forall i, j :: 0 <= i < j < |StackSizes(n)| ==> StackSizes(n)[i] > StackSizes(n)[j]
    ensures Sum(StackSizes(n)) == n
  {
    if n > 0 {
      StackSizesAreBinary(n - TopPow2(n));
      assert StackSizes(n)[1..] == StackSizes(n - TopPow2(n));
    }
  }

  lemma {:induction false} PopCountBound(n: nat, k: nat)
    requires n < Pow2(k)
    ensures PopCount(n) <= k
  {
    if n > 0 {
      PopCountBound(n / 2, k - 1);
    }
  }

  // ------------------------------------------------------------------------
  // Pushing a chunk

  const MAX_STACK := 54

  // Device indexing clamps.
  function Clamp(i: int): (c: nat)
    ensures c < MAX_STACK
    ensures 0 <= i < MAX_STACK ==> c == i
  {
    if i < 0 then 0 else if i >= MAX_STACK then MAX_STACK - 1 else i
  }

  // The merge loop of `_push_chunk_cv` from (cv, slen, shift) on.
  function Merge(f: Compression, mode: Mode, stack: seq<Cv>, total: Counter, cv: Cv, slen: nat,
                 shift: nat): (r: (Cv, nat))
    requires |stack| == MAX_STACK
    ensures r.1 <= slen
    decreases slen
  {
    if slen > 0 && Bit(total, shift) == 0 then
      Merge(f, mode, stack, total, ParentCv(f, mode, stack[Clamp(slen - 1)], cv), slen - 1, shift + 1)
    else (cv, slen)
  }

  lemma OddCounts(n: nat)
    requires n % 2 == 1
    ensures PopCount(n) == PopCount(n / 2) + 1
    ensures TrailingZeros(n + 1) == TrailingZeros(n / 2 + 1) + 1
  {
    assert (n + 1) / 2 == n / 2 + 1;
  }

  lemma EvenCounts(n: nat)
    requires n % 2 == 0
    ensures TrailingZeros(n + 1) == 0
    ensures PopCount(n + 1) == PopCount(n) + 1
  {
    assert (n + 1) / 2 == n / 2;
  }

  // Counting one more turns the trailing ones into zeros and sets one bit.
  lemma {:induction false} PopCountNext(n: nat)
    ensures PopCount(n + 1) == PopCount(n) - TrailingZeros(n + 1) + 1
  {
    if n % 2 == 0 {
      EvenCounts(n);
    } else {
      OddCounts(n);
      PopCountNext(n / 2);
      assert (n + 1) / 2 == n / 2 + 1 && (n + 1) % 2 == 0;
    }
  }

  // The loop's bit test alone would stop in time: at every shift it reaches, an
  // entry is still there, so the `slen > 0` conjunct never decides.
  lemma GuardNeverDecides(total: nat, j: nat)
    requires 1 <= total < 0x1_0000_0000_0000_0000 && j < 64
    requires forall i :: 0 <= i <= j ==> Bit(Split(total), i) == 0
    ensures PopCount(total - 1) > j
  {
    hide Bit, Split, Shr, PopCount, TrailingZeros;
    forall i | 0 <= i <= j
      ensures ShiftedBit(total, i) == 0
    {
      BitIsBit(total, i);
      assert Bit(Split(total), i) == 0;
    }
    ZeroBitsTrail(total, j);
    PopCountNext(total - 1);
    SomeBitSet(total);
  }

  function ShiftedBit(m: nat, i: nat): (b: nat)
  {
    Shr(m, i) % 2
  }

  lemma {:induction false} ZeroBitsTrail(m: nat, j: nat)
    requires m >= 1 && forall i :: 0 <= i <= j ==> ShiftedBit(m, i) == 0
    ensures TrailingZeros(m) > j
  {
    assert ShiftedBit(m, 0) == m % 2;
    if j > 0 {
      forall i | 0 <= i <= j - 1
        ensures ShiftedBit(m / 2, i) == 0
      {
        ShrAdd(m, 1, i);
        assert Shr(m, 1) == m / 2;
        assert ShiftedBit(m, i + 1) == 0;
      }
      ZeroBitsTrail(m / 2, j - 1);
    }
  }

  lemma {:induction false} SomeBitSet(m: nat)
    requires m >= 1
    ensures PopCount(m) >= 1
  {
    if m > 1 {
      SomeBitSet(m / 2);
    }
  }

  // Level `shift` of the merge: `cvs` are the level's nodes already on the
  // stack, `cv` is the one arriving, and the count at this level is their sum.
  lemma {:induction false} MergeAtLevel(f: Compression, mode: Mode, stack: seq<Cv>, total: nat, cvs: seq<Cv>, cv: Cv,
                                        shift: nat)
    requires |stack| == MAX_STACK && total < 0x1_0000_0000_0000_0000
    requires Shr(total, shift) == |cvs| + 1
    requires PopCount(|cvs|) <= MAX_STACK
    requires stack[..PopCount(|cvs|)] == BitStack(f, mode, cvs)
    ensures var r := Merge(f, mode, stack, Split(total), cv, PopCount(|cvs|), shift);
            && r.1 == PopCount(|cvs|) - TrailingZeros(|cvs| + 1)
            && stack[..r.1] + [r.0] == BitStack(f, mode, cvs + [cv])
    decreases |cvs|
  {
    hide BitStack, Level, Merge, PopCount, TrailingZeros;
    var slen := PopCount(|cvs|);
    ShiftBound(total, shift);
    BitIsBit(total, shift);
    MergeUnfold(f, mode, stack, Split(total), cv, slen, shift);
    if |cvs| % 2 == 0 {
      EvenCounts(|cvs|);
      BitStackPush(f, mode, cvs, cv);
    } else {
      OddCounts(|cvs|);
      var up, merged := PopOdd(f, mode, stack, cvs, cv);
      assert |up| + 1 == (|cvs| + 1) / 2;
      MergeAtLevel(f, mode, stack, total, up, merged, shift + 1);
    }
  }

  lemma MergeUnfold(f: Compression, mode: Mode, stack: seq<Cv>, total: Counter, cv: Cv, slen: nat, shift: nat)
    requires |stack| == MAX_STACK && slen <= MAX_STACK
    ensures Bit(total, shift) != 0 ==> Merge(f, mode, stack, total, cv, slen, shift) == (cv, slen)
    ensures slen > 0 && Bit(total, shift) == 0 ==>
              (var up := ParentCv(f, mode, stack[slen - 1], cv);
               Merge(f, mode, stack, total, cv, slen, shift) == Merge(f, mode, stack, total, up, slen - 1, shift + 1))
  {
  }

  lemma BitStackPush(f: Compression, mode: Mode, cvs: seq<Cv>, cv: Cv)
    requires |cvs| % 2 == 0
    ensures BitStack(f, mode, cvs + [cv]) == BitStack(f, mode, cvs) + [cv]
  {
    BitStackUnfold(f, mode, cvs, []);
    BitStackUnfold(f, mode, cvs, [cv]);
    assert cvs + [] == cvs;
  }

  // At an odd count the top of the stack is the level's own last node; taking
  // it leaves the stack of the level above.
  lemma PopOdd(f: Compression, mode: Mode, stack: seq<Cv>, cvs: seq<Cv>, cv: Cv) returns (up: seq<Cv>, merged: Cv)
    requires |cvs| % 2 == 1
    requires PopCount(|cvs|) <= |stack| && stack[..PopCount(|cvs|)] == BitStack(f, mode, cvs)
    ensures |up| == |cvs| / 2
    ensures PopCount(|cvs|) == PopCount(|up|) + 1
    ensures merged == ParentCv(f, mode, stack[PopCount(|up|)], cv)
    ensures stack[..PopCount(|up|)] == BitStack(f, mode, up)
    ensures BitStack(f, mode, cvs + [cv]) == BitStack(f, mode, up + [merged])
  {
    hide BitStack, Level, PopCount, ParentCv;
    OddCounts(|cvs|);
    var below, last := cvs[..|cvs| - 1], cvs[|cvs| - 1];
    up, merged := Level(f, mode, below), ParentCv(f, mode, last, cv);
    BitStackOdd(f, mode, cvs, below, last);
    BitStackPair(f, mode, below, last, cv);
    assert cvs + [cv] == below + [last, cv];
  }

  lemma BitStackOdd(f: Compression, mode: Mode, cvs: seq<Cv>, below: seq<Cv>, last: Cv)
    requires |below| % 2 == 0 && cvs == below + [last]
    ensures BitStack(f, mode, cvs) == BitStack(f, mode, Level(f, mode, below)) + [last]
  {
    BitStackUnfold(f, mode, below, [last]);
  }

  lemma BitStackPair(f: Compression, mode: Mode, below: seq<Cv>, a: Cv, b: Cv)
    requires |below| % 2 == 0
    ensures BitStack(f, mode, below + [a, b])
         == BitStack(f, mode, Level(f, mode, below) + [ParentCv(f, mode, a, b)])
  {
    hide BitStack, Level, ParentCv, PopCount;
    LevelOfPairs(f, mode, below, a, b);
    var all := below + [a, b];
    assert (|below| + 2) % 2 == 0;
    BitStackEven(f, mode, all);
  }

  lemma BitStackEven(f: Compression, mode: Mode, cvs: seq<Cv>)
    requires |cvs| % 2 == 0
    ensures BitStack(f, mode, cvs) == BitStack(f, mode, Level(f, mode, cvs))
  {
    hide BitStack, Level, PopCount;
    BitStackUnfold(f, mode, cvs, []);
    assert cvs + [] == cvs;
  }

  lemma LevelOfPairs(f: Compression, mode: Mode, below: seq<Cv>, a: Cv, b: Cv)
    requires |below| % 2 == 0
    ensures Level(f, mode, below + [a, b]) == Level(f, mode, below) + [ParentCv(f, mode, a, b)]
  {
    LevelSplit(f, mode, below, [a, b]);
    assert Level(f, mode, [a, b]) == [ParentCv(f, mode, a, b)];
  }

  // Pushing one more chunk: the loop merges exactly as often as the new count
  // has trailing zeros, so it is always the bit test that stops it and never
  // the empty stack, and it leaves the stack of the longer row within bounds.
  lemma PushChunk(f: Compression, mode: Mode, stack: seq<Cv>, cvs: seq<Cv>, cv: Cv)
    requires |stack| == MAX_STACK && |cvs| + 1 < Pow2(54)
    requires PopCount(|cvs|) <= MAX_STACK && stack[..PopCount(|cvs|)] == StackOf(f, mode, cvs)
    ensures var r := Merge(f, mode, stack, Split(|cvs| + 1), cv, PopCount(|cvs|), 0);
            && PopCount(|cvs|) - r.1 == TrailingZeros(|cvs| + 1)
            && r.1 < MAX_STACK && r.1 + 1 == PopCount(|cvs| + 1)
            && stack[r.1 := r.0][..r.1 + 1] == StackOf(f, mode, cvs + [cv])
  {
    hide BitStack, StackOf, Merge, PopCount, TrailingZeros, Pow2, Split;
    assert Shr(|cvs| + 1, 0) == |cvs| + 1;
    PopCountBound(|cvs| + 1, 54);
    Pow2Of54();
    StackReadings(f, mode, cvs);
    StackReadings(f, mode, cvs + [cv]);
    PopCountNext(|cvs|);
    MergeAtLevel(f, mode, stack, |cvs| + 1, cvs, cv, 0);
  }

  lemma Pow2Of54()
    ensures Pow2(54) == 0x40_0000_0000_0000
  {
    Pow2Of32();
    assert Pow2(40) == 0x100_0000_0000;
    assert Pow2(48) == 0x1_0000_0000_0000;
  }

  // ------------------------------------------------------------------------
  // Folding the stack under a pending node

  function FoldStack(f: Compression, mode: Mode, stack: seq<Cv>, o: Output): (root: Output)
  {
    if |stack| == 0 then o
    else
      FoldStack(f, mode, stack[..|stack| - 1], ParentOutput(stack[|stack| - 1], ChainingValue(f, o), mode))
  }

  lemma {:induction false} FoldStackHead(f: Compression, mode: Mode, stack: seq<Cv>, o: Output)
    requires |stack| > 0
    ensures FoldStack(f, mode, stack, o)
         == ParentOutput(stack[0], ChainingValue(f, FoldStack(f, mode, stack[1..], o)), mode)
    decreases |stack|
  {
    var n := |stack|;
    var up := ParentOutput(stack[n - 1], ChainingValue(f, o), mode);
    if n > 1 {
      FoldStackHead(f, mode, stack[..n - 1], up);
      assert stack[..n - 1][1..] == stack[1..][..n - 2];
    } else {
      assert stack[..0] == [];
    }
  }

  // Folding the stack of the completed chunks under the pending last one is
  // the tree over all of them.
  lemma {:induction false} FoldIsTree(f: Compression, mode: Mode, cvs: seq<Cv>, o: Output)
    ensures FoldStack(f, mode, StackOf(f, mode, cvs), o)
         == if |cvs| == 0 then o else TreeRoot(f, mode, cvs + [ChainingValue(f, o)])
    decreases |cvs|
  {
    if |cvs| > 0 {
      var top := TopPow2(|cvs|);
      var rest, all := cvs[top..], cvs + [ChainingValue(f, o)];
      LeftLenUnique(top, |cvs| + 1);
      FoldIsTree(f, mode, rest, o);
      FoldStackHead(f, mode, StackOf(f, mode, cvs), o);
      assert StackOf(f, mode, cvs)[1..] == StackOf(f, mode, rest);
      assert all[..top] == cvs[..top];
      assert all[top..] == rest + [ChainingValue(f, o)];
    }
  }
}
