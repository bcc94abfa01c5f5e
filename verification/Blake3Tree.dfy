// The BLAKE3 tree as the specification draws it, and the level-by-level plan
// of `extension/tree.py` that has to draw the same one.
//
// The compression function is a parameter `f` throughout: a total function of
// its operands about which nothing is assumed.
module Blake3Tree {
  import opened Words

  // A chunk is 1024 bytes in 16 blocks of 64; the two lengths are written as
  // literals below so that the solver sees linear arithmetic.

  // The domain flags are single bits that are only ever or-ed together, so a
  // flag word is the set of its bits and or is union.
  datatype Flag = CHUNK_START | CHUNK_END | PARENT | ROOT | KEYED_HASH | DERIVE_KEY_CONTEXT | DERIVE_KEY_MATERIAL
  type Flags = set<Flag>

  type Cv = s: seq<u32> | |s| == 8 witness [0, 0, 0, 0, 0, 0, 0, 0]
  type Block = s: seq<u32> | |s| == 16 witness [0, 0, 0, 0, 0, 0, 0, 0, 0, 0, 0, 0, 0, 0, 0, 0]
  type Counter = (u32, u32)

  // The mode is a key and a flag; the IV rides along because every
  // compression needs it.
  datatype Mode = Mode(keyWords: Cv, flags: Flags, iv: Cv)

  // A node's last compression, assembled but not run.
  datatype Output = Output(inputCv: Cv, block: Block, counter: Counter, blockLen: u32, flags: Flags, iv: Cv)

  type Compression = Output -> Block

  // A 64-bit count as its (low, high) halves.
  function Split(n: nat): (c: Counter)
  {
    (n % 0x1_0000_0000, n / 0x1_0000_0000 % 0x1_0000_0000)
  }

  function ChainingValue(f: Compression, o: Output): (cv: Cv)
  {
    f(o)[..8]
  }

  function ParentOutput(left: Cv, right: Cv, mode: Mode): (o: Output)
  {
    Output(mode.keyWords, left + right, (0, 0), 64, mode.flags + {PARENT}, mode.iv)
  }

  function ParentCv(f: Compression, mode: Mode, left: Cv, right: Cv): (cv: Cv)
  {
    ChainingValue(f, ParentOutput(left, right, mode))
  }

  // ------------------------------------------------------------------------
  // Chunks (section 2.4 of the BLAKE3 paper)

  function BlockBytes(chunk: seq<byte>, k: nat): (b: seq<byte>)
    requires 64 * k <= |chunk|
    ensures |b| == 64
  {
    var rest := chunk[64 * k..];
    if |rest| >= 64 then rest[..64] else rest + Zeros(64 - |rest|)
  }

  function StartFlag(k: nat): (fl: Flags)
  {
    if k == 0 then {CHUNK_START} else {}
  }

  // The chunk's running chaining value once its first k blocks are compressed.
  function ChunkChain(f: Compression, mode: Mode, chunk: seq<byte>, index: nat, k: nat): (cv: Cv)
    requires 64 * k <= |chunk|
  {
    if k == 0 then mode.keyWords
    else
      f(Output(ChunkChain(f, mode, chunk, index, k - 1), PackLe(BlockBytes(chunk, k - 1)), Split(index), 64,
               mode.flags + (if k == 1 then {CHUNK_START} else {}), mode.iv))[..8]
  }

  function ChunkOutput(f: Compression, mode: Mode, chunk: seq<byte>, index: nat): (o: Output)
    requires |chunk| <= 1024
  {
    var last := Units(|chunk|, 64) - 1;
    Output(ChunkChain(f, mode, chunk, index, last), PackLe(BlockBytes(chunk, last)), Split(index),
           |chunk| - 64 * last, mode.flags + {CHUNK_END} + (if last == 0 then {CHUNK_START} else {}), mode.iv)
  }

  function ChunkCv(f: Compression, mode: Mode, chunk: seq<byte>, index: nat): (cv: Cv)
    requires |chunk| <= 1024
  {
    f(ChunkOutput(f, mode, chunk, index))[..8]
  }

  // A chain over a prefix never sees the bytes after it.
  lemma {:induction false} ChunkChainPrefix(f: Compression, mode: Mode, a: seq<byte>, b: seq<byte>, index: nat, k: nat)
    requires 64 * k <= |a| && a <= b
    ensures ChunkChain(f, mode, a, index, k) == ChunkChain(f, mode, b, index, k)
  {
    if k > 0 {
      ChunkChainPrefix(f, mode, a, b, index, k - 1);
      assert BlockBytes(a, k - 1) == BlockBytes(b, k - 1);
    }
  }

  // ------------------------------------------------------------------------
  // The recursive split (sections 2.1 and 5.1.2 of the BLAKE3 paper)

  // The largest power of two strictly below n.
  function LeftLen(n: nat): (p: nat)
    requires n >= 2
    ensures IsPow2(p) && p < n <= 2 * p
  {
    if n == 2 then 1
    else
      var h := LeftLen((n + 1) / 2);
      assert (2 * h) / 2 == h;
      2 * h
  }

  lemma {:induction false} Pow2Unique(p: nat, q: nat, n: nat)
    requires IsPow2(p) && IsPow2(q)
    requires p <= n < 2 * p && q <= n < 2 * q
    ensures p == q
  {
    if p > 1 && q > 1 {
      Pow2Unique(p / 2, q / 2, n / 2);
    }
  }

  // Any power of two that brackets n is the split point.
  lemma LeftLenUnique(p: nat, n: nat)
    requires n >= 2 && IsPow2(p) && p < n <= 2 * p
    ensures LeftLen(n) == p
  {
    Pow2Unique(p, LeftLen(n), n - 1);
  }

  // The chaining value over a row of nodes: the left subtree takes the largest
  // power of two strictly below the count.
  function Tree(f: Compression, mode: Mode, cvs: seq<Cv>): (cv: Cv)
    requires |cvs| >= 1
    decreases |cvs|, 1
  {
    if |cvs| == 1 then cvs[0] else f(TreeRoot(f, mode, cvs))[..8]
  }

  function TreeRoot(f: Compression, mode: Mode, cvs: seq<Cv>): (o: Output)
    requires |cvs| >= 2
    decreases |cvs|, 0
  {
    var left := LeftLen(|cvs|);
    Output(mode.keyWords, Tree(f, mode, cvs[..left]) + Tree(f, mode, cvs[left..]), (0, 0), 64, mode.flags + {PARENT},
           mode.iv)
  }

  // What a parent node is assembled from: its children's chaining values in
  // order, the key, a zero counter and a full block.
  predicate IsParent(mode: Mode, o: Output, left: Cv, right: Cv)
  {
    && o.block[..8] == left && o.block[8..] == right
    && o.inputCv == mode.keyWords && o.counter == (0, 0) && o.blockLen == 64
    && o.flags == mode.flags + {PARENT} && o.iv == mode.iv
  }

  // The root of a row has the trees over the row's two parts under it, and so
  // has every node on the way down.
  lemma TreeOperands(f: Compression, mode: Mode, cvs: seq<Cv>)
    requires |cvs| >= 2
    ensures var l := LeftLen(|cvs|);
            && IsParent(mode, TreeRoot(f, mode, cvs), Tree(f, mode, cvs[..l]), Tree(f, mode, cvs[l..]))
            && Tree(f, mode, cvs) == f(TreeRoot(f, mode, cvs))[..8]
  {
  }

  // A chunk's pending node: its last block's bytes zero-filled, its number, and
  // the value chained over the blocks before.
  lemma ChunkOperands(f: Compression, mode: Mode, chunk: seq<byte>, index: nat)
    requires |chunk| <= 1024 && index < 0x1_0000_0000_0000_0000
    ensures var o, last := ChunkOutput(f, mode, chunk, index), if |chunk| == 0 then 0 else (|chunk| - 1) / 64;
            && 64 * last <= |chunk| && o.inputCv == ChunkChain(f, mode, chunk, index, last)
            && (forall i :: 0 <= i < 64 ==>
                  UnpackLe(o.block)[i] == if 64 * last + i < |chunk| then chunk[64 * last + i] else 0)
            && o.counter.0 + 0x1_0000_0000 * o.counter.1 as int == index && o.blockLen == |chunk| - 64 * last
            && o.flags == mode.flags + (if last == 0 then {CHUNK_START, CHUNK_END} else {CHUNK_END}) && o.iv == mode.iv
  {
    hide PackLe, UnpackLe, ChunkChain, Units;
    var last := if |chunk| == 0 then 0 else (|chunk| - 1) / 64;
    UnitsUnique(|chunk|, 64, last + 1);
    UnpackLePackLe(BlockBytes(chunk, last));
    assert mode.flags + {CHUNK_END} + {CHUNK_START} == mode.flags + {CHUNK_START, CHUNK_END};
    assert mode.flags + {CHUNK_END} + {} == mode.flags + {CHUNK_END};
  }

  // And each block before it is chained the same way, whole.
  lemma ChainOperands(f: Compression, mode: Mode, chunk: seq<byte>, index: nat, k: nat)
    requires 64 * (k + 1) <= |chunk| && index < 0x1_0000_0000_0000_0000
    ensures ChunkChain(f, mode, chunk, index, 0) == mode.keyWords
    ensures exists o: Output ::
              && ChunkChain(f, mode, chunk, index, k + 1) == f(o)[..8]
              && o.inputCv == ChunkChain(f, mode, chunk, index, k) && UnpackLe(o.block) == chunk[64 * k..64 * (k + 1)]
              && o.counter.0 + 0x1_0000_0000 * o.counter.1 as int == index && o.blockLen == 64
              && o.flags == mode.flags + (if k == 0 then {CHUNK_START} else {}) && o.iv == mode.iv
  {
    hide PackLe, UnpackLe;
    var o := Output(ChunkChain(f, mode, chunk, index, k), PackLe(BlockBytes(chunk, k)), Split(index), 64,
                    mode.flags + (if k == 0 then {CHUNK_START} else {}), mode.iv);
    UnpackLePackLe(BlockBytes(chunk, k));
    assert ChunkChain(f, mode, chunk, index, k + 1) == f(o)[..8];
  }

  // Chunk i of a message; the message's last chunk may be short.
  function ChunkAt(msg: seq<byte>, i: nat): (c: seq<byte>)
    requires 1024 * i <= |msg|
    ensures |c| <= 1024
  {
    if |msg| < 1024 * (i + 1) then msg[1024 * i..] else msg[1024 * i..1024 * (i + 1)]
  }

  function Cvs(f: Compression, mode: Mode, msg: seq<byte>, n: nat): (cvs: seq<Cv>)
    requires n == 0 || 1024 * (n - 1) <= |msg|
    ensures |cvs| == n
  {
    seq(n, i requires 0 <= i < n => ChunkCv(f, mode, ChunkAt(msg, i), i))
  }

  // The root node of a message's tree.
  function SpecOutput(f: Compression, mode: Mode, msg: seq<byte>): (o: Output)
  {
    UnitsBounds(|msg|, 1024);
    var n := Units(|msg|, 1024);
    if n == 1 then ChunkOutput(f, mode, msg, 0) else TreeRoot(f, mode, Cvs(f, mode, msg, n))
  }

  // Section 2.6 of the BLAKE3 paper: the root's compression repeated with a running block counter.
  function RootByte(f: Compression, o: Output, i: nat): (b: byte)
  {
    UnpackLe(f(o.(counter := Split(i / 64), flags := o.flags + {ROOT})))[i % 64]
  }

  function RootStream(f: Compression, o: Output, n: nat): (out: seq<byte>)
    ensures |out| == n
  {
    seq(n, i requires 0 <= i < n => RootByte(f, o, i))
  }

  // The specification's hash, `n` bytes of extendable output.
  function SpecHash(f: Compression, mode: Mode, msg: seq<byte>, n: nat): (out: seq<byte>)
    ensures |out| == n
  {
    RootStream(f, SpecOutput(f, mode, msg), n)
  }

  // ------------------------------------------------------------------------
  // Pairing from the bottom (`tree.levels`)

  // One level: adjacent nodes pair, an odd trailing node rides up untouched.
  function Level(f: Compression, mode: Mode, nodes: seq<Cv>): (up: seq<Cv>)
    ensures |up| == (|nodes| + 1) / 2
  {
    if |nodes| < 2 then nodes
    else [ParentCv(f, mode, nodes[0], nodes[1])] + Level(f, mode, nodes[2..])
  }

  lemma {:induction false} LevelSplit(f: Compression, mode: Mode, a: seq<Cv>, b: seq<Cv>)
    requires |a| % 2 == 0
    ensures Level(f, mode, a + b) == Level(f, mode, a) + Level(f, mode, b)
  {
    if |a| == 0 {
      assert a + b == b;
    } else {
      hide ParentCv;
      LevelSplit(f, mode, a[2..], b);
      assert (a + b)[2..] == a[2..] + b && (a + b)[0] == a[0] && (a + b)[1] == a[1];
    }
  }

  // What `tree_output` reads off by index: pair j, and the odd one.
  lemma {:induction false} LevelAt(f: Compression, mode: Mode, nodes: seq<Cv>, j: nat)
    requires j < (|nodes| + 1) / 2
    ensures 2 * j + 1 < |nodes| ==> Level(f, mode, nodes)[j] == ParentCv(f, mode, nodes[2 * j], nodes[2 * j + 1])
    ensures 2 * j + 1 == |nodes| ==> Level(f, mode, nodes)[j] == nodes[2 * j]
  {
    if j > 0 {
      LevelAt(f, mode, nodes[2..], j - 1);
    }
  }

  // A level does not change the tree above it.
  lemma {:induction false} LevelKeepsTree(f: Compression, mode: Mode, nodes: seq<Cv>)
    requires |nodes| >= 1
    ensures Tree(f, mode, Level(f, mode, nodes)) == Tree(f, mode, nodes)
    ensures |nodes| > 2 ==> TreeRoot(f, mode, Level(f, mode, nodes)) == TreeRoot(f, mode, nodes)
    decreases |nodes|
  {
    if |nodes| == 2 {
      assert nodes[..1] == [nodes[0]] && nodes[1..] == [nodes[1]];
      assert TreeRoot(f, mode, nodes) == ParentOutput(nodes[0], nodes[1], mode);
      assert Level(f, mode, nodes) == [ParentCv(f, mode, nodes[0], nodes[1])];
    } else if |nodes| > 2 {
      var left := LeftLen(|nodes|);
      assert left == 2 * LeftLen((|nodes| + 1) / 2);
      var a, b := nodes[..left], nodes[left..];
      assert nodes == a + b;
      LevelSplit(f, mode, a, b);
      LevelKeepsTree(f, mode, a);
      LevelKeepsTree(f, mode, b);
      var up := Level(f, mode, nodes);
      assert up[..left / 2] == Level(f, mode, a) && up[left / 2..] == Level(f, mode, b);
    }
  }

  // The reduction plan as (pairs, odd) per level.
  function Plan(nodes: nat): (plan: seq<(nat, bool)>)
  {
    if nodes <= 2 then [] else [(nodes / 2, nodes % 2 == 1)] + Plan((nodes + 1) / 2)
  }

  // The carried node joins the next level's count.
  lemma PlanStep(acc: seq<(nat, bool)>, left: nat)
    requires left > 2
    ensures 2 <= left / 2 + left % 2 < left
    ensures acc + [(left / 2, left % 2 == 1)] + Plan(left / 2 + left % 2) == acc + Plan(left)
  {
    assert (left + 1) / 2 == left / 2 + left % 2;
  }

  lemma PlanEnds()
    ensures Plan(2) == []
  {
  }

  // Applying a plan level by level from `nodes` nodes down to the last pair.
  function RunPlan(f: Compression, mode: Mode, nodes: seq<Cv>): (top: seq<Cv>)
    requires |nodes| >= 2
    ensures |top| == 2
    decreases |nodes|
  {
    if |nodes| == 2 then nodes else RunPlan(f, mode, Level(f, mode, nodes))
  }

  lemma {:induction false} RunPlanIsTree(f: Compression, mode: Mode, nodes: seq<Cv>)
    requires |nodes| >= 2
    ensures var top := RunPlan(f, mode, nodes);
            ParentOutput(top[0], top[1], mode) == TreeRoot(f, mode, nodes)
    decreases |nodes|
  {
    if |nodes| > 2 {
      LevelKeepsTree(f, mode, nodes);
      RunPlanIsTree(f, mode, Level(f, mode, nodes));
    }
  }

  // The rounds a tree of n leaves takes, its root's included: the ceiling of
  // log2 n.
  lemma {:induction false} PlanRounds(n: nat)
    requires n >= 2
    ensures Pow2(|Plan(n)|) < n <= Pow2(|Plan(n)| + 1)
  {
    if n > 2 {
      PlanRounds((n + 1) / 2);
    } else {
      assert Pow2(1) == 2 && Pow2(0) == 1;
    }
  }

  // `levels`: the host loop that plans the reduction. `None` is its ValueError.
  method Levels(nodes: nat) returns (plan: Option<seq<(nat, bool)>>)
    ensures plan.None? <==> nodes < 2
    ensures plan.Some? ==> plan.value == Plan(nodes) && Pow2(|plan.value|) < nodes <= Pow2(|plan.value| + 1)
  {
    hide Plan, Pow2;
    if nodes < 2 {
      return None;
    }
    PlanRounds(nodes);
    PlanEnds();
    var acc: seq<(nat, bool)>, left := [], nodes;
    while left > 2
      invariant left >= 2
      invariant acc + Plan(left) == Plan(nodes)
      decreases left
    {
      PlanStep(acc, left);
      acc := acc + [(left / 2, left % 2 == 1)];
      left := left / 2 + left % 2;
    }
    return Some(acc);
  }
}
