// The incremental hasher of `streaming.py`: a chunk state over the stack of
// completed subtrees, resumable at any byte.
module Blake3Streaming {
  import opened Words
  import opened Blake3Tree
  import opened Blake3Stack
  import Blake3Modes
  import Stream

  // Hash mode: the key words are the IV and the mode contributes no flag.
  function HashMode(iv: Cv): (mode: Mode)
  {
    Mode(iv, {}, iv)
  }

  // The fields that compressing a block reads and writes.
  datatype Core = Core(stack: seq<Cv>, stackLen: nat, chunkCv: Cv, counter: Counter, compressed: nat)

  datatype State = State(core: Core, block: seq<byte>, blockLen: nat)

  const ZERO_CV: Cv := [0, 0, 0, 0, 0, 0, 0, 0]

  function InitCore(mode: Mode): (c: Core)
  {
    Core(seq(MAX_STACK, _ => ZERO_CV), 0, mode.keyWords, (0, 0), 0)
  }

  function InitState(mode: Mode): (s: State)
  {
    State(InitCore(mode), Zeros(64), 0)
  }

  predicate Shaped(c: Core)
  {
    |c.stack| == MAX_STACK
  }

  // `_push_chunk_cv`
  function Push(f: Compression, mode: Mode, c: Core, cv: Cv): (r: Core)
    requires Shaped(c)
    ensures Shaped(r)
  {
    var total := CounterInc(c.counter);
    var m := Merge(f, mode, c.stack, total, cv, c.stackLen, 0);
    Core(c.stack[Clamp(m.1) := m.0], m.1 + 1, mode.keyWords, total, 0)
  }

  // The operands of one full block's compression, the chunk's last included.
  function BlockOutput(mode: Mode, c: Core, block: seq<byte>): (o: Output)
    requires |block| == 64
  {
    Output(c.chunkCv, PackLe(block), c.counter, 64,
           mode.flags + StartFlag(c.compressed) + (if c.compressed == 15 then {CHUNK_END} else {}), mode.iv)
  }

  // `_absorb_block`
  function StepBlock(f: Compression, mode: Mode, c: Core, block: seq<byte>): (r: Core)
    requires Shaped(c) && |block| == 64
    ensures Shaped(r)
  {
    var cv := ChainingValue(f, BlockOutput(mode, c, block));
    var advanced := c.(chunkCv := cv, compressed := c.compressed + 1);
    if c.compressed == 15 then Push(f, mode, advanced, cv) else advanced
  }

  function FoldBlocks(f: Compression, mode: Mode, c: Core, work: seq<byte>, k: nat): (r: Core)
    requires Shaped(c) && 64 * k <= |work|
    ensures Shaped(r)
  {
    if k == 0 then c
    else StepBlock(f, mode, FoldBlocks(f, mode, c, work, k - 1), work[64 * (k - 1)..64 * k])
  }

  // ------------------------------------------------------------------------
  // What a core denotes

  // The core after the first k blocks of `msg`: k / 16 chunks are on the
  // stack, k % 16 blocks of the next are in its chaining value.
  ghost predicate Denotes(f: Compression, mode: Mode, c: Core, msg: seq<byte>, k: nat)
  {
    var chunks := k / 16;
    && Shaped(c)
    && 64 * k <= |msg|
    && c.stackLen == PopCount(chunks) <= MAX_STACK
    && c.stack[..c.stackLen] == StackOf(f, mode, Cvs(f, mode, msg, chunks))
    && c.counter == Split(chunks)
    && c.compressed == k % 16
    && c.chunkCv == ChunkChain(f, mode, msg[1024 * chunks..], chunks, k % 16)
  }

  lemma InitDenotes(f: Compression, mode: Mode, msg: seq<byte>)
    ensures Denotes(f, mode, InitCore(mode), msg, 0)
  {
  }

  // A block inside a chunk extends the chunk's chain.
  lemma ChainStep(f: Compression, mode: Mode, c: Core, msg: seq<byte>, k: nat)
    requires Denotes(f, mode, c, msg, k) && 64 * (k + 1) <= |msg| && k % 16 < 15
    ensures Denotes(f, mode, StepBlock(f, mode, c, msg[64 * k..64 * (k + 1)]), msg, k + 1)
  {
    hide StackOf, Cvs, PopCount, Split, PackLe;
    var chunks, j := k / 16, k % 16;
    assert (k + 1) / 16 == chunks && (k + 1) % 16 == j + 1;
    assert BlockBytes(msg[1024 * chunks..], j) == msg[64 * k..64 * (k + 1)];
    assert mode.flags + StartFlag(j) + {} == mode.flags + StartFlag(j);
  }

  // The chunk's last block finishes its chaining value.
  lemma ChunkDone(f: Compression, mode: Mode, c: Core, msg: seq<byte>, k: nat)
    requires Denotes(f, mode, c, msg, k) && 64 * (k + 1) <= |msg| && k % 16 == 15
    ensures ChainingValue(f, BlockOutput(mode, c, msg[64 * k..64 * (k + 1)]))
         == ChunkCv(f, mode, ChunkAt(msg, k / 16), k / 16)
  {
    hide StackOf, Cvs, PopCount, Split, PackLe;
    var chunks := k / 16;
    var chunk := ChunkAt(msg, chunks);
    assert k == 16 * chunks + 15;
    assert chunk == msg[1024 * chunks..1024 * (chunks + 1)];
    ChunkChainPrefix(f, mode, chunk, msg[1024 * chunks..], chunks, 15);
    assert BlockBytes(chunk, 15) == msg[64 * k..64 * (k + 1)];
    assert Units(1024, 64) == 16;
    assert mode.flags + {} + {CHUNK_END} == mode.flags + {CHUNK_END} + {};
  }

  lemma CvsNext(f: Compression, mode: Mode, msg: seq<byte>, n: nat)
    requires 1024 * n <= |msg|
    ensures Cvs(f, mode, msg, n + 1) == Cvs(f, mode, msg, n) + [ChunkCv(f, mode, ChunkAt(msg, n), n)]
  {
    hide ChunkCv, ChunkAt;
  }

  lemma PushStep(f: Compression, mode: Mode, c: Core, msg: seq<byte>, k: nat)
    requires Denotes(f, mode, c, msg, k) && 64 * (k + 1) <= |msg| && k % 16 == 15
    requires k / 16 + 1 < Pow2(54)
    ensures Denotes(f, mode, StepBlock(f, mode, c, msg[64 * k..64 * (k + 1)]), msg, k + 1)
  {
    hide StackOf, Cvs, PopCount, Split, Merge, ChunkCv, ChunkAt, BlockOutput, TrailingZeros, Pow2, CounterInc;
    var chunks := k / 16;
    assert (k + 1) / 16 == chunks + 1 && (k + 1) % 16 == 0;
    ChunkDone(f, mode, c, msg, k);
    var cvs, cv := Cvs(f, mode, msg, chunks), ChunkCv(f, mode, ChunkAt(msg, chunks), chunks);
    CvsNext(f, mode, msg, chunks);
    CounterIncCounts(chunks);
    PushChunk(f, mode, c.stack, cvs, cv);
  }

  lemma {:induction false} FoldDenotes(f: Compression, mode: Mode, msg: seq<byte>, k: nat)
    requires 64 * k <= |msg| && k / 16 < Pow2(54)
    ensures Denotes(f, mode, FoldBlocks(f, mode, InitCore(mode), msg, k), msg, k)
  {
    hide Denotes, StepBlock, Pow2;
    if k == 0 {
      InitDenotes(f, mode, msg);
    } else {
      FoldDenotes(f, mode, msg, k - 1);
      var c := FoldBlocks(f, mode, InitCore(mode), msg, k - 1);
      if (k - 1) % 16 == 15 {
        assert (k - 1) / 16 + 1 == k / 16;
        PushStep(f, mode, c, msg, k - 1);
      } else {
        ChainStep(f, mode, c, msg, k - 1);
      }
    }
  }

  // ------------------------------------------------------------------------
  // Absorbing bytes

  // The scratch region of an absorb: the held block, overlaid from its own
  // length on by the new bytes, with a block of headroom.
  function Work(block: seq<byte>, blockLen: nat, data: seq<byte>): (w: seq<byte>)
    requires |block| == 64 && blockLen <= 64
    ensures |w| == 128 + |data|
  {
    var laid := block + Zeros(64 + |data|);
    laid[..blockLen] + data + laid[blockLen + |data|..]
  }

  // The byte total is a uint32.
  function Total(blockLen: nat, length: nat): (t: nat)
  {
    (blockLen + length) % 0x1_0000_0000
  }

  // Blocks to compress out of `total` bytes: the last one is always held back.
  function Ready(total: nat): (n: nat)
  {
    (total - 1) % 0x1_0000_0000 / 64
  }

  // Bytes left over once those are compressed.
  function Rest(total: nat, nblocks: nat): (r: nat)
  {
    var left: int := total as int - nblocks * 64;
    left % 0x1_0000_0000
  }

  function Min(a: nat, b: nat): (m: nat)
  {
    if a <= b then a else b
  }

  // The block kept for later: a 64-byte window, zeroed past `rest`.
  function Tail(work: seq<byte>, start: nat, rest: nat): (block: seq<byte>)
    requires |work| >= 64
    ensures |block| == 64
  {
    var at := Min(start, |work| - 64);
    seq(64, i requires 0 <= i < 64 => if i < rest then work[at + i] else 0)
  }

  // `Blake3Stream.absorb`
  function AbsorbBytes(f: Compression, mode: Mode, s: State, data: seq<byte>): (r: State)
    requires Shaped(s.core) && |s.block| == 64 && s.blockLen <= 64
    ensures Shaped(r.core) && |r.block| == 64 && r.blockLen <= 64
  {
    if |data| == 0 then s
    else
      var work := Work(s.block, s.blockLen, data);
      var total := Total(s.blockLen, |data|);
      var nblocks := Ready(total);
      var maxBlocks := (64 + |data| - 1) / 64;
      var rest := Rest(total, nblocks);
      RestFits(s.blockLen, |data|);
      State(FoldBlocks(f, mode, s.core, work, Min(nblocks, maxBlocks)), Tail(work, nblocks * 64, rest), rest)
  }

  // Blocks compressed after |msg| bytes.
  function Held(length: nat): (n: nat)
    ensures 64 * n <= length <= 64 * (n + 1)
    ensures length > 0 ==> 64 * n < length
  {
    if length == 0 then 0 else (length - 1) / 64
  }

  // What bytes leave behind a core: all but their last block compressed, that
  // one held.
  function StateFrom(f: Compression, mode: Mode, c: Core, all: seq<byte>): (s: State)
    requires Shaped(c)
    ensures Shaped(s.core) && |s.block| == 64 && s.blockLen <= 64
  {
    var n := Held(|all|);
    var rest := all[64 * n..];
    State(FoldBlocks(f, mode, c, all, n), rest + Zeros(64 - |rest|), |rest|)
  }

  // The one state a message leaves, whatever calls it arrived in.
  function StateAfter(f: Compression, mode: Mode, msg: seq<byte>): (s: State)
    ensures Shaped(s.core) && |s.block| == 64 && s.blockLen <= 64
  {
    StateFrom(f, mode, InitCore(mode), msg)
  }

  // The bytes an absorb sees: those held, then its own.
  function Pending(s: State, data: seq<byte>): (all: seq<byte>)
    requires |s.block| == 64 && s.blockLen <= 64
  {
    s.block[..s.blockLen] + data
  }

  lemma {:induction false} FoldPrefix(f: Compression, mode: Mode, c: Core, a: seq<byte>, b: seq<byte>, k: nat)
    requires Shaped(c) && 64 * k <= |a| && a <= b
    ensures FoldBlocks(f, mode, c, a, k) == FoldBlocks(f, mode, c, b, k)
  {
    hide StepBlock;
    if k > 0 {
      FoldPrefix(f, mode, c, a, b, k - 1);
      assert a[64 * (k - 1)..64 * k] == b[64 * (k - 1)..64 * k];
    }
  }

  lemma {:induction false} FoldResumes(f: Compression, mode: Mode, c: Core, msg: seq<byte>, h: nat, work: seq<byte>,
                                       k: nat)
    requires Shaped(c) && 64 * k <= |work| && 64 * (h + k) <= |msg|
    requires work[..64 * k] == msg[64 * h..64 * (h + k)]
    ensures FoldBlocks(f, mode, FoldBlocks(f, mode, c, msg, h), work, k) == FoldBlocks(f, mode, c, msg, h + k)
  {
    hide StepBlock;
    if k > 0 {
      assert work[..64 * (k - 1)] == work[..64 * k][..64 * (k - 1)];
      assert msg[64 * h..64 * (h + k - 1)] == msg[64 * h..64 * (h + k)][..64 * (k - 1)];
      FoldResumes(f, mode, c, msg, h, work, k - 1);
      assert work[64 * (k - 1)..64 * k] == work[..64 * k][64 * (k - 1)..];
      assert msg[64 * (h + k - 1)..64 * (h + k)] == msg[64 * h..64 * (h + k)][64 * (k - 1)..];
    }
  }

  // Exactly the totals a uint32 holds: 2^32 itself wraps to zero, and the
  // wrapping subtraction undoes it.
  lemma CountsExact(bl: nat, length: nat)
    requires bl <= 64 && length > 0 && bl + length <= 0x1_0000_0000
    ensures var n := Ready(Total(bl, length));
            && n == (bl + length - 1) / 64 && n <= (64 + length - 1) / 64
            && Rest(Total(bl, length), n) == bl + length - n * 64
            && 64 * n + 64 <= 128 + length
  {
    var t := bl + length;
    var n := (t - 1) / 64;
    assert 1 <= t - n * 64 <= 64;
    if t == 0x1_0000_0000 {
      assert Total(bl, length) == 0 && n == 0x3FF_FFFF;
    } else {
      assert Total(bl, length) == t && Ready(t) == n;
    }
  }

  lemma CountsWrap(bl: nat, length: nat)
    requires bl <= 64 && bl + length > 0x1_0000_0000
    ensures Ready(Total(bl, length)) < (bl + length - 1) / 64
  {
    assert (Total(bl, length) - 1) % 0x1_0000_0000 < 0x1_0000_0000;
  }

  // From any state, an absorb whose total fits leaves what its bytes leave.
  lemma AbsorbIs(f: Compression, mode: Mode, s: State, data: seq<byte>)
    requires Shaped(s.core) && |s.block| == 64 && s.blockLen <= 64
    requires |data| > 0 && s.blockLen + |data| <= 0x1_0000_0000
    ensures AbsorbBytes(f, mode, s, data) == StateFrom(f, mode, s.core, Pending(s, data))
  {
    var all, work := Pending(s, data), Work(s.block, s.blockLen, data);
    assert all <= work;
    hide FoldBlocks, Work, Tail, Total, Ready, Rest, Pending;
    CountsExact(s.blockLen, |data|);
    var n := Held(|all|);
    FoldPrefix(f, mode, s.core, all, work, n);
  }

  // Blocks compressed out of held bytes and more are the message's next ones.
  lemma CoreResumes(f: Compression, mode: Mode, c: Core, all: seq<byte>, data: seq<byte>, n: nat)
    requires Shaped(c) && 64 * (Held(|all|) + n) <= |all| + |data|
    ensures var s := StateFrom(f, mode, c, all);
            && Pending(s, data) == (all + data)[64 * Held(|all|)..]
            && FoldBlocks(f, mode, s.core, Pending(s, data), n) == FoldBlocks(f, mode, c, all + data, Held(|all|) + n)
  {
    hide FoldBlocks;
    var s, h, whole := StateFrom(f, mode, c, all), Held(|all|), all + data;
    var pending := Pending(s, data);
    assert pending == whole[64 * h..];
    assert pending[..64 * n] == whole[64 * h..64 * (h + n)];
    hide Held, Pending;
    FoldPrefix(f, mode, c, all, whole, h);
    FoldResumes(f, mode, c, whole, h, pending, n);
  }

  lemma FromResumes(f: Compression, mode: Mode, c: Core, all: seq<byte>, data: seq<byte>)
    requires Shaped(c) && |data| > 0
    ensures var s := StateFrom(f, mode, c, all);
            StateFrom(f, mode, s.core, Pending(s, data)) == StateFrom(f, mode, c, all + data)
  {
    hide FoldBlocks, StateFrom, Pending;
    FromResumesAt(f, mode, c, all, data, Held(|all| + |data|) - Held(|all|));
  }

  lemma FromResumesAt(f: Compression, mode: Mode, c: Core, all: seq<byte>, data: seq<byte>, n: nat)
    requires Shaped(c) && |data| > 0
    requires Held(|all|) + n == Held(|all| + |data|) && n == Held(|all| + |data| - 64 * Held(|all|))
    ensures var s := StateFrom(f, mode, c, all);
            StateFrom(f, mode, s.core, Pending(s, data)) == StateFrom(f, mode, c, all + data)
  {
    hide FoldBlocks, StateFrom, Pending, Held;
    var s, whole, h := StateFrom(f, mode, c, all), all + data, Held(|all|);
    CoreResumes(f, mode, c, all, data, n);
    FromIs(f, mode, c, whole, h + n);
    FromIs(f, mode, s.core, Pending(s, data), n);
    assert whole[64 * h..][64 * n..] == whole[64 * (h + n)..];
  }

  lemma FromIs(f: Compression, mode: Mode, c: Core, all: seq<byte>, n: nat)
    requires Shaped(c) && n == Held(|all|)
    ensures 64 * n <= |all| <= 64 * n + 64
    ensures var rest := all[64 * n..];
            StateFrom(f, mode, c, all) == State(FoldBlocks(f, mode, c, all, n), rest + Zeros(64 - |rest|), |rest|)
  {
    hide FoldBlocks;
  }

  // From any state, two absorbs are one, while the total fits.
  lemma AbsorbSplits(f: Compression, mode: Mode, s: State, a: seq<byte>, b: seq<byte>)
    requires Shaped(s.core) && |s.block| == 64 && s.blockLen <= 64
    requires s.blockLen + |a| + |b| <= 0x1_0000_0000
    ensures AbsorbBytes(f, mode, AbsorbBytes(f, mode, s, a), b) == AbsorbBytes(f, mode, s, a + b)
  {
    if |a| == 0 || |b| == 0 {
      hide FoldBlocks, Work, Tail, Total, Ready, Rest;
      assert a + b == if |a| == 0 then b else a;
    } else {
      var all := Pending(s, a);
      assert |all| == s.blockLen + |a| && all + b == Pending(s, a + b);
      hide FoldBlocks, AbsorbBytes, Held, Pending;
      AbsorbIs(f, mode, s, a);
      AbsorbIs(f, mode, StateFrom(f, mode, s.core, all), b);
      FromResumes(f, mode, s.core, all, b);
      AbsorbIs(f, mode, s, a + b);
    }
  }

  // The state after a ++ b is what absorbing b does to the state after a.
  lemma AbsorbAppends(f: Compression, mode: Mode, msg: seq<byte>, data: seq<byte>)
    requires |data| == 0 || |msg| - 64 * Held(|msg|) + |data| <= 0x1_0000_0000
    ensures AbsorbBytes(f, mode, StateAfter(f, mode, msg), data) == StateAfter(f, mode, msg + data)
  {
    if |data| == 0 {
      hide FoldBlocks, Work, Tail, Total, Ready, Rest, StateAfter;
      assert msg + data == msg;
    } else {
      hide FoldBlocks, AbsorbBytes, Held, Pending;
      AbsorbIs(f, mode, StateAfter(f, mode, msg), data);
      FromResumes(f, mode, InitCore(mode), msg, data);
    }
  }

  lemma SplitInjective(a: nat, b: nat)
    requires a < 0x1_0000_0000_0000_0000 && b < 0x1_0000_0000_0000_0000
    requires Split(a) == Split(b)
    ensures a == b
  {
  }

  // A core knows how many blocks it has compressed.
  lemma CorePosition(f: Compression, mode: Mode, msg: seq<byte>, j: nat, k: nat)
    requires 64 * j <= |msg| && 64 * k <= |msg| && |msg| <= 0x1_0000_0000_0000_0000
    requires FoldBlocks(f, mode, InitCore(mode), msg, j) == FoldBlocks(f, mode, InitCore(mode), msg, k)
    requires j / 16 < Pow2(54) && k / 16 < Pow2(54)
    ensures j == k
  {
    hide FoldBlocks, Pow2, Split, StackOf, Cvs, ChunkChain, PopCount;
    Pow2Of54();
    FoldDenotes(f, mode, msg, j);
    FoldDenotes(f, mode, msg, k);
    SplitInjective(j / 16, k / 16);
  }

  // However few blocks a wrapped total runs, they are the message's next ones.
  lemma WrappedCore(f: Compression, mode: Mode, msg: seq<byte>, data: seq<byte>, n: nat)
    requires |data| > 0 && 64 * (Held(|msg|) + n) <= |msg| + |data|
    ensures var s := StateAfter(f, mode, msg);
            && 64 * n <= |Work(s.block, s.blockLen, data)|
            && FoldBlocks(f, mode, s.core, Work(s.block, s.blockLen, data), n)
            == FoldBlocks(f, mode, InitCore(mode), msg + data, Held(|msg|) + n)
  {
    var s := StateAfter(f, mode, msg);
    assert Pending(s, data) <= Work(s.block, s.blockLen, data);
    hide FoldBlocks, Work, Held, Pending;
    CoreResumes(f, mode, InitCore(mode), msg, data, n);
    FoldPrefix(f, mode, s.core, Pending(s, data), Work(s.block, s.blockLen, data), n);
  }

  // One absorb appends its data exactly when the byte total fits: the uint32
  // sum may reach 2^32 but not pass it.
  lemma AbsorbExact(f: Compression, mode: Mode, msg: seq<byte>, data: seq<byte>)
    requires |data| > 0 && |msg| + |data| <= 0x1_0000_0000_0000_0000
    ensures AbsorbBytes(f, mode, StateAfter(f, mode, msg), data) == StateAfter(f, mode, msg + data)
       <==> |msg| - 64 * Held(|msg|) + |data| <= 0x1_0000_0000
  {
    hide FoldBlocks, Work, Tail, Ready, Pow2;
    var s, h, all := StateAfter(f, mode, msg), Held(|msg|), msg + data;
    if s.blockLen + |data| <= 0x1_0000_0000 {
      AbsorbAppends(f, mode, msg, data);
    } else {
      CountsWrap(s.blockLen, |data|);
      var n := Min(Ready(Total(s.blockLen, |data|)), (64 + |data| - 1) / 64);
      assert h + n < Held(|all|);
      WrappedCore(f, mode, msg, data, n);
      Pow2Of54();
      if AbsorbBytes(f, mode, s, data) == StateAfter(f, mode, all) {
        CorePosition(f, mode, all, h + n, Held(|all|));
      }
    }
  }

  // The shortest such loss: 64 bytes held, and data that takes them to 2^32 + 1.
  lemma WrapLoses(f: Compression, mode: Mode, msg: seq<byte>, data: seq<byte>)
    requires |msg| == 64 && |data| == 0x1_0000_0000 - 63
    ensures AbsorbBytes(f, mode, StateAfter(f, mode, msg), data) != StateAfter(f, mode, msg + data)
  {
    hide StateAfter, AbsorbBytes;
    AbsorbExact(f, mode, msg, data);
  }

  // Any run of absorbs leaves the state of the whole message.
  function AbsorbAll(f: Compression, mode: Mode, s: State, parts: seq<seq<byte>>): (r: State)
    requires Shaped(s.core) && |s.block| == 64 && s.blockLen <= 64
    ensures Shaped(r.core) && |r.block| == 64 && r.blockLen <= 64
  {
    if |parts| == 0 then s
    else AbsorbBytes(f, mode, AbsorbAll(f, mode, s, parts[..|parts| - 1]), parts[|parts| - 1])
  }

  lemma {:induction false} AnySplit(f: Compression, mode: Mode, parts: seq<seq<byte>>)
    requires forall i :: 0 <= i < |parts| ==> |parts[i]| <= 0x1_0000_0000 - 64
    ensures AbsorbAll(f, mode, InitState(mode), parts) == StateAfter(f, mode, Stream.Joined(parts))
  {
    if |parts| == 0 {
    } else {
      hide AbsorbBytes, StateAfter, Held, InitState;
      var n := |parts| - 1;
      AnySplit(f, mode, parts[..n]);
      AbsorbAppends(f, mode, Stream.Joined(parts[..n]), parts[n]);
    }
  }

  // ------------------------------------------------------------------------
  // Reading the hash

  // The pending node `finalize` starts from, and the root it folds to.
  function LastOutput(mode: Mode, s: State): (o: Output)
    requires |s.block| == 64 && s.blockLen <= 64
  {
    Output(s.core.chunkCv, PackLe(s.block), s.core.counter, s.blockLen,
           mode.flags + StartFlag(s.core.compressed) + {CHUNK_END}, mode.iv)
  }

  lemma LastIsChunk(f: Compression, mode: Mode, msg: seq<byte>)
    requires |msg| <= 0x1_0000_0000_0000_0000
    ensures var c := Held(|msg|) / 16;
            1024 * c <= |msg| && LastOutput(mode, StateAfter(f, mode, msg)) == ChunkOutput(f, mode, ChunkAt(msg, c), c)
  {
    hide FoldBlocks, Pow2, Split, StackOf, Cvs, PopCount, PackLe, Units, Held, ChunkAt, ChunkChain, BlockBytes;
    var h := Held(|msg|);
    var c, j := h / 16, h % 16;
    Pow2Of54();
    LastChunkSize(|msg|);
    FoldDenotes(f, mode, msg, h);
    LastBlock(msg);
    assert mode.flags + StartFlag(j) + {CHUNK_END} == mode.flags + {CHUNK_END} + StartFlag(j);
  }

  lemma LastChunkSize(length: nat)
    ensures var h := Held(length);
            && 1024 * (h / 16) <= length <= 1024 * (h / 16) + 1024
            && Units(length - 1024 * (h / 16), 64) == h % 16 + 1
            && length - 1024 * (h / 16) - 64 * (h % 16) == length - 64 * h
            && (length <= 0x1_0000_0000_0000_0000 ==> h / 16 < 0x40_0000_0000_0000)
  {
    var h := Held(length);
    UnitsUnique(length - 1024 * (h / 16), 64, h % 16 + 1);
  }

  lemma LastBlock(msg: seq<byte>)
    ensures var h := Held(|msg|);
            && 1024 * (h / 16) <= |msg|
            && ChunkAt(msg, h / 16) == msg[1024 * (h / 16)..]
            && 64 * (h % 16) <= |ChunkAt(msg, h / 16)|
            && BlockBytes(ChunkAt(msg, h / 16), h % 16) == msg[64 * h..] + Zeros(64 - |msg[64 * h..]|)
  {
    hide Held, Units;
    LastChunkSize(|msg|);
  }

  // Whatever was absorbed, the folded stack is the root of its tree.
  lemma FinalIsRoot(f: Compression, mode: Mode, msg: seq<byte>)
    requires |msg| <= 0x1_0000_0000_0000_0000
    ensures var s := StateAfter(f, mode, msg);
            && s.core.stackLen <= MAX_STACK
            && FoldStack(f, mode, s.core.stack[..s.core.stackLen], LastOutput(mode, s)) == SpecOutput(f, mode, msg)
  {
    hide FoldBlocks, Pow2, Split, PopCount, Units, FoldStack, StackOf, TreeRoot, ChunkOutput, ChunkAt;
    var s, c := StateAfter(f, mode, msg), Held(|msg|) / 16;
    Pow2Of54();
    FoldDenotes(f, mode, msg, Held(|msg|));
    LastIsChunk(f, mode, msg);
    UnitsUnique(|msg|, 1024, c + 1);
    FoldIsTree(f, mode, Cvs(f, mode, msg, c), LastOutput(mode, s));
    CvsNext(f, mode, msg, c);
    if c == 0 {
      WholeMessage(msg);
    }
  }

  lemma WholeMessage(msg: seq<byte>)
    requires |msg| <= 1024
    ensures ChunkAt(msg, 0) == msg
  {
  }

  // The stack bound: no message of up to 2^64 bytes overruns the 54 entries.
  lemma StackFits(f: Compression, mode: Mode, msg: seq<byte>)
    requires |msg| <= 0x1_0000_0000_0000_0000
    ensures var s, chunks := StateAfter(f, mode, msg), Held(|msg|) / 16;
            && s.core.stackLen == PopCount(chunks) <= MAX_STACK
            && s.core.stack[..s.core.stackLen] == StackOf(f, mode, Cvs(f, mode, msg, chunks))
            && s.core.counter == Split(chunks)
  {
    hide FoldBlocks, Pow2, Split, StackOf, Cvs, PopCount;
    Pow2Of54();
    FoldDenotes(f, mode, msg, Held(|msg|));
  }

  // ------------------------------------------------------------------------
  // The hasher as an object: the same steps, taken in place

  class Hasher {
    const f: Compression
    const mode: Mode
    const cvStack: array<Cv>
    var stackLen: nat
    var chunkCv: Cv
    var counter: Counter
    var block: seq<byte>
    var blockLen: nat
    var compressed: nat
    ghost var absorbed: seq<byte>

    ghost predicate Shape()
      reads this
    {
      cvStack.Length == MAX_STACK && |block| == 64 && blockLen <= 64
    }

    ghost function CoreState(): (c: Core)
      reads this, cvStack
    {
      Core(cvStack[..], stackLen, chunkCv, counter, compressed)
    }

    ghost function Snapshot(): (s: State)
      reads this, cvStack
    {
      State(CoreState(), block, blockLen)
    }

    // Every field, dead stack entries included, is what the absorbed bytes say.
    ghost predicate Valid()
      reads this, cvStack
    {
      Shape() && Snapshot() == StateAfter(f, mode, absorbed)
    }

    // `blake3_stream_init`
    constructor (f: Compression, iv: Cv)
      ensures Valid() && absorbed == [] && this.f == f && mode == HashMode(iv)
      ensures fresh(cvStack)
    {
      this.f := f;
      this.mode := HashMode(iv);
      cvStack := new Cv[MAX_STACK](_ => ZERO_CV);
      stackLen := 0;
      chunkCv := HashMode(iv).keyWords;
      counter := (0, 0);
      block := Zeros(64);
      blockLen := 0;
      compressed := 0;
      absorbed := [];
      new;
      assert cvStack[..] == seq(MAX_STACK, _ => ZERO_CV);
    }

    // `_push_chunk_cv`: the merge `while_loop`, then one write at the new top.
    method PushChunkCv(cv: Cv)
      requires Shape()
      modifies this`stackLen, this`counter, this`chunkCv, this`compressed, cvStack
      ensures Shape() && CoreState() == Push(f, mode, old(CoreState()), cv)
    {
      hide Bit, CounterInc;
      var total := CounterInc(counter);
      var merged := cv;
      var slen: nat, shift: nat := stackLen, 0;
      while slen > 0 && Bit(total, shift) == 0
        invariant slen <= stackLen
        invariant Merge(f, mode, cvStack[..], total, merged, slen, shift)
               == Merge(f, mode, cvStack[..], total, cv, stackLen, 0)
      {
        var left := cvStack[Clamp(slen - 1)];
        merged := ParentCv(f, mode, left, merged);
        slen, shift := slen - 1, shift + 1;
      }
      cvStack[Clamp(slen)] := merged;
      stackLen := slen + 1;
      counter := total;
      chunkCv := mode.keyWords;
      compressed := 0;
    }

    // `_absorb_block`
    method AbsorbBlock(blk: seq<byte>)
      requires Shape() && |blk| == 64
      modifies this`stackLen, this`counter, this`chunkCv, this`compressed, cvStack
      ensures Shape() && CoreState() == StepBlock(f, mode, old(CoreState()), blk)
    {
      hide Push;
      var last := compressed == 15;
      var flags := mode.flags + StartFlag(compressed) + (if last then {CHUNK_END} else {});
      var cv := ChainingValue(f, Output(chunkCv, PackLe(blk), counter, 64, flags, mode.iv));
      chunkCv := cv;
      compressed := compressed + 1;
      if last {
        PushChunkCv(cv);
      }
    }

    // `absorb`: lay the held block and the data out, compress all but the last
    // block, keep the rest.
    method Absorb(data: seq<byte>)
      requires Shape()
      modifies this, cvStack
      ensures Shape() && Snapshot() == AbsorbBytes(f, mode, old(Snapshot()), data)
      ensures absorbed == old(absorbed) + data
      ensures old(Valid()) && (|data| == 0 || old(blockLen) + |data| <= 0x1_0000_0000) ==> Valid()
    {
      hide Work, Total, Ready, Tail, FoldBlocks, StateAfter, Held;
      ghost var before, msg := Snapshot(), absorbed;
      absorbed := absorbed + data;
      if |data| > 0 {
        AbsorbData(data);
      }
      if before == StateAfter(f, mode, msg) && (|data| == 0 || before.blockLen + |data| <= 0x1_0000_0000) {
        BlockLenAfter(f, mode, msg);
        AbsorbAppends(f, mode, msg, data);
      }
    }

    // The nonempty case, with its block `fori_loop`.
    method AbsorbData(data: seq<byte>)
      requires Shape() && |data| > 0
      modifies this`stackLen, this`counter, this`chunkCv, this`compressed, this`block, this`blockLen, cvStack
      ensures Shape() && Snapshot() == AbsorbBytes(f, mode, old(Snapshot()), data)
    {
      hide Work, Total, Ready, Rest, Tail, StepBlock;
      ghost var start := CoreState();
      var work := Work(block, blockLen, data);
      var total := Total(blockLen, |data|);
      var nblocks := Ready(total);
      var maxBlocks := (64 + |data| - 1) / 64;
      for i := 0 to maxBlocks
        invariant Shape() && block == old(block) && blockLen == old(blockLen)
        invariant CoreState() == FoldBlocks(f, mode, start, work, Min(nblocks, i))
      {
        if i < nblocks {
          AbsorbBlock(work[64 * i..64 * (i + 1)]);
        }
      }
      var rest := Rest(total, nblocks);
      RestFits(old(Snapshot()).blockLen, |data|);
      block := Tail(work, nblocks * 64, rest);
      blockLen := rest;
    }

    // `finalize`: fold the stack under the pending node, then read the root.
    // Nothing changes, so absorbing can go on.
    method Finalize(outLen: int) returns (out: Option<seq<byte>>)
      requires Valid() && |absorbed| <= 0x1_0000_0000_0000_0000
      ensures out.Some? <==> 1 <= outLen <= 0x1_0000_0000 * 64
      ensures out.Some? ==> out.value == SpecHash(f, mode, absorbed, outLen)
    {
      hide StateAfter, SpecOutput, PackLe;
      FinalIsRoot(f, mode, absorbed);
      var root := Output(chunkCv, PackLe(block), counter, blockLen,
                         mode.flags + StartFlag(compressed) + {CHUNK_END}, mode.iv);
      var slen := stackLen;
      assert cvStack[..slen] == cvStack[..][..slen];
      while slen > 0
        invariant slen <= MAX_STACK
        invariant FoldStack(f, mode, cvStack[..slen], root) == SpecOutput(f, mode, absorbed)
      {
        assert cvStack[..slen][..slen - 1] == cvStack[..slen - 1];
        slen := slen - 1;
        root := ParentOutput(cvStack[slen], ChainingValue(f, root), mode);
      }
      var rows := Blake3Modes.RootBytes(f, [root], outLen);
      return if rows.Some? then Some(rows.value[0]) else None;
    }
  }

  lemma RestFits(bl: nat, length: nat)
    requires bl <= 64
    ensures Rest(Total(bl, length), Ready(Total(bl, length))) <= 64
  {
  }

  lemma BlockLenAfter(f: Compression, mode: Mode, msg: seq<byte>)
    ensures StateAfter(f, mode, msg).blockLen == |msg| - 64 * Held(|msg|)
  {
  }

  // A whole run of the object: fresh, any absorbs, one read. Whatever the
  // split, it is the specification's hash.
  method HashParts(f: Compression, iv: Cv, parts: seq<seq<byte>>, outLen: int) returns (out: Option<seq<byte>>)
    requires forall i :: 0 <= i < |parts| ==> |parts[i]| <= 0x1_0000_0000 - 64
    requires |Stream.Joined(parts)| <= 0x1_0000_0000_0000_0000
    ensures out.Some? <==> 1 <= outLen <= 0x1_0000_0000 * 64
    ensures out.Some? ==> out.value == SpecHash(f, HashMode(iv), Stream.Joined(parts), outLen)
  {
    hide StateAfter;
    var hasher := new Hasher(f, iv);
    for i := 0 to |parts|
      invariant hasher.Valid() && hasher.f == f && hasher.mode == HashMode(iv) && fresh(hasher) && fresh(hasher.cvStack)
      invariant hasher.absorbed == Stream.Joined(parts[..i])
    {
      hasher.Absorb(parts[i]);
      assert parts[..i + 1][..i] == parts[..i];
    }
    assert parts[..|parts|] == parts;
    out := hasher.Finalize(outLen);
  }
}
