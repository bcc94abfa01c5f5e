// The one-shot hash of `modes.py`: a batch of equal-length messages, every
// chunk in one chain, every tree level in one call.
//
// A `[B, k]` batch reshaped to `[B * k]` is row-major, so row b * k + i is item
// i of message b; the loops below keep exactly that arrangement.
module Blake3Modes {
  import opened Words
  import opened Blake3Tree

  // ------------------------------------------------------------------------
  // Operands

  // `_counters`: item numbers as (low, high), repeated per message. `None` is
  // the ValueError raised where the high half would not be zero.
  function Counters(batch: nat, first: nat, count: nat): (c: Option<seq<Counter>>)
    ensures c.Some? <==> 1 <= first + count <= 0x1_0000_0000
    ensures c.Some? ==> |c.value| == batch * count
    ensures c.Some? ==> forall r :: 0 <= r < batch * count ==> c.value[r] == (first + r % count, 0)
  {
    if 1 <= first + count <= 0x1_0000_0000 then
      Some(seq(batch * count, r requires 0 <= r < batch * count => CounterAt(batch, first, count, r)))
    else None
  }

  function CounterAt(batch: nat, first: nat, count: nat, r: nat): (c: Counter)
    requires r < batch * count && first + count <= 0x1_0000_0000
    ensures c == (first + r % count, 0)
  {
    (first + r % count, 0)
  }

  // `_block_words` on one row: zero-fill to whole blocks, pack little-endian.
  function BlockWords(msg: seq<byte>): (words: seq<Block>)
    ensures |words| == Units(|msg|, 64)
  {
    UnitsBounds(|msg|, 64);
    var n := Units(|msg|, 64);
    var padded := msg + Zeros(n * 64 - |msg|);
    seq(n, k requires 0 <= k < n => PackLe(padded[64 * k..64 * (k + 1)]))
  }

  lemma BlockWordsAt(msg: seq<byte>, k: nat)
    requires k < Units(|msg|, 64)
    ensures 64 * k <= |msg|
    ensures BlockWords(msg)[k] == PackLe(BlockBytes(msg, k))
  {
    hide Units, PackLe, BlockBytes;
    UnitsBounds(|msg|, 64);
    var n := Units(|msg|, 64);
    PaddedBlock(msg, n, k);
  }

  lemma PaddedBlock(msg: seq<byte>, n: nat, k: nat)
    requires k < n && |msg| <= 64 * n && 64 * k <= |msg| && (k + 1 < n ==> 64 * (k + 1) <= |msg|)
    ensures (msg + Zeros(n * 64 - |msg|))[64 * k..64 * (k + 1)] == BlockBytes(msg, k)
  {
  }

  // ------------------------------------------------------------------------
  // One row of a chain

  function ChainRow(f: Compression, mode: Mode, cv: Cv, words: seq<Block>, counter: Counter, first: nat,
                    k: nat): (r: Cv)
    requires k <= |words|
  {
    if k == 0 then cv
    else
      ChainingValue(f, Output(ChainRow(f, mode, cv, words, counter, first, k - 1), words[k - 1], counter, 64,
                              mode.flags + StartFlag(first + k - 1), mode.iv))
  }

  // A chain left off and picked up again is one chain.
  lemma {:induction false} ChainRowResumes(f: Compression, mode: Mode, cv: Cv, words: seq<Block>, counter: Counter,
                                           a: nat, b: nat)
    requires a + b <= |words|
    ensures ChainRow(f, mode, ChainRow(f, mode, cv, words[..a], counter, 0, a), words[a..], counter, a, b)
         == ChainRow(f, mode, cv, words, counter, 0, a + b)
  {
    if b > 0 {
      ChainRowResumes(f, mode, cv, words, counter, a, b - 1);
    } else {
      ChainRowPrefix(f, mode, cv, words, counter, a, a);
    }
  }

  lemma {:induction false} ChainRowPrefix(f: Compression, mode: Mode, cv: Cv, words: seq<Block>, counter: Counter,
                                          a: nat, k: nat)
    requires k <= a <= |words|
    ensures ChainRow(f, mode, cv, words[..a], counter, 0, k) == ChainRow(f, mode, cv, words, counter, 0, k)
  {
    if k > 0 {
      ChainRowPrefix(f, mode, cv, words, counter, a, k - 1);
    }
  }

  lemma {:induction false} ChainRowIsChunk(f: Compression, mode: Mode, chunk: seq<byte>, index: nat, k: nat)
    requires k < Units(|chunk|, 64)
    ensures 64 * k <= |chunk|
    ensures ChainRow(f, mode, mode.keyWords, BlockWords(chunk), Split(index), 0, k)
         == ChunkChain(f, mode, chunk, index, k)
  {
    hide BlockWords, PackLe, Units, Split;
    BlockWordsAt(chunk, k);
    if k > 0 {
      ChainRowIsChunk(f, mode, chunk, index, k - 1);
      BlockWordsAt(chunk, k - 1);
    }
  }

  // The shared chain for the first `shared` blocks, then the chunk's own tail.
  function RowOutput(f: Compression, mode: Mode, cv: Cv, words: seq<Block>, counter: Counter, chunkLen: nat,
                     first: nat): (o: Output)
    requires 1 <= |words| <= 16 && first < |words| && 64 * (|words| - 1) <= chunkLen <= 64 * |words|
  {
    var last := |words| - 1;
    Output(ChainRow(f, mode, cv, words[first..last], counter, first, last - first), words[last], counter,
           chunkLen - 64 * last, mode.flags + {CHUNK_END} + StartFlag(last), mode.iv)
  }

  lemma UnitsOfChunk(length: nat)
    requires length <= 1024
    ensures 1 <= Units(length, 64) <= 16
    ensures 64 * (Units(length, 64) - 1) <= length <= 64 * Units(length, 64)
  {
  }

  // Picking a chunk up after any shared prefix of its chain gives its output.
  lemma SharedChain(f: Compression, mode: Mode, chunk: seq<byte>, index: nat, first: nat)
    requires |chunk| <= 1024 && first < Units(|chunk|, 64)
    ensures 64 * (Units(|chunk|, 64) - 1) <= |chunk| <= 64 * Units(|chunk|, 64) <= 1024
    ensures var words := BlockWords(chunk);
            RowOutput(f, mode, ChainRow(f, mode, mode.keyWords, words[..first], Split(index), 0, first),
                      words, Split(index), |chunk|, first)
            == ChunkOutput(f, mode, chunk, index)
  {
    hide BlockWords, PackLe, Split, Units, ChainRow, ChunkChain;
    UnitsOfChunk(|chunk|);
    var last := Units(|chunk|, 64) - 1;
    ChainPicksUp(f, mode, chunk, index, first, last);
    BlockWordsAt(chunk, last);
  }

  lemma ChainPicksUp(f: Compression, mode: Mode, chunk: seq<byte>, index: nat, first: nat, last: nat)
    requires first <= last < Units(|chunk|, 64)
    ensures 64 * last <= |chunk|
    ensures var words := BlockWords(chunk);
            var cv := ChainRow(f, mode, mode.keyWords, words[..first], Split(index), 0, first);
            ChainRow(f, mode, cv, words[first..last], Split(index), first, last - first)
            == ChunkChain(f, mode, chunk, index, last)
  {
    hide BlockWords, Split, Units, ChainRow, ChunkChain;
    var words := BlockWords(chunk);
    var cv := ChainRow(f, mode, mode.keyWords, words[..first], Split(index), 0, first);
    ChainRowResumes(f, mode, mode.keyWords, words, Split(index), first, last - first);
    SliceChain(f, mode, cv, words, Split(index), first, last);
    ChainRowIsChunk(f, mode, chunk, index, last);
  }

  lemma {:induction false} SliceChain(f: Compression, mode: Mode, cv: Cv, words: seq<Block>, counter: Counter,
                                      first: nat, last: nat)
    requires first <= last <= |words|
    ensures ChainRow(f, mode, cv, words[first..last], counter, first, last - first)
         == ChainRow(f, mode, cv, words[first..], counter, first, last - first)
    decreases last
  {
    if last > first {
      SliceChain(f, mode, cv, words, counter, first, last - 1);
      TakeChain(f, mode, cv, words[first..last], words[first..last - 1], counter, first);
    }
  }

  lemma {:induction false} TakeChain(f: Compression, mode: Mode, cv: Cv, words: seq<Block>, less: seq<Block>,
                                     counter: Counter, first: nat)
    requires less <= words
    ensures ChainRow(f, mode, cv, words, counter, first, |less|) == ChainRow(f, mode, cv, less, counter, first, |less|)
    decreases |less|
  {
    if |less| > 0 {
      TakeChain(f, mode, cv, words, less[..|less| - 1], counter, first);
      TakeChain(f, mode, cv, less, less[..|less| - 1], counter, first);
    }
  }

  // ------------------------------------------------------------------------
  // The batched loops

  // `_chain`: one call per block over every row of the batch.
  method Chain(f: Compression, mode: Mode, cv: seq<Cv>, words: seq<seq<Block>>, count: nat, counter: seq<Counter>,
               first: nat)
    returns (running: seq<Cv>)
    requires |cv| == |words| == |counter|
    requires forall r :: 0 <= r < |words| ==> |words[r]| == count
    ensures |running| == |cv|
    ensures forall r :: 0 <= r < |cv| ==> running[r] == ChainRow(f, mode, cv[r], words[r], counter[r], first, count)
  {
    running := cv;
    for i := 0 to count
      invariant |running| == |cv|
      invariant forall r :: 0 <= r < |cv| ==> running[r] == ChainRow(f, mode, cv[r], words[r], counter[r], first, i)
    {
      running := seq(|running|, r requires 0 <= r < |running| =>
        ChainingValue(f, Output(running[r], words[r][i], counter[r], 64, mode.flags + StartFlag(first + i), mode.iv)));
    }
  }

  // `_chunk_from`: every row from block `first` on, its last step left pending.
  method ChunkFrom(f: Compression, mode: Mode, cv: seq<Cv>, words: seq<seq<Block>>, nblocks: nat, counter: seq<Counter>,
                   chunkLen: nat, first: nat)
    returns (outputs: seq<Output>)
    requires |cv| == |words| == |counter|
    requires forall r :: 0 <= r < |words| ==> |words[r]| == nblocks
    requires 1 <= nblocks <= 16 && first < nblocks && 64 * (nblocks - 1) <= chunkLen <= 64 * nblocks
    ensures |outputs| == |cv|
    ensures forall r :: 0 <= r < |cv| ==> outputs[r] == RowOutput(f, mode, cv[r], words[r], counter[r], chunkLen, first)
  {
    var last := nblocks - 1;
    var middle := seq(|words|, r requires 0 <= r < |words| => words[r][first..last]);
    var chained := Chain(f, mode, cv, middle, last - first, counter, first);
    outputs := seq(|cv|, r requires 0 <= r < |cv| =>
      Output(chained[r], words[r][last], counter[r], chunkLen - 64 * last,
             mode.flags + {CHUNK_END} + StartFlag(last), mode.iv));
  }

  predicate Batch(message: seq<seq<byte>>, length: nat)
  {
    forall b :: 0 <= b < |message| ==> |message[b]| == length
  }

  // Row r of the full chunks, cut out of the batch row-major.
  function HeadChunk(message: seq<seq<byte>>, length: nat, full: nat, r: nat): (chunk: seq<byte>)
    requires Batch(message, length) && 1024 * full <= length
    requires full >= 1 && r < |message| * full
    ensures r / full < |message| && r % full < full && |chunk| == 1024
    ensures chunk == ChunkAt(message[r / full], r % full)
  {
    message[r / full][1024 * (r % full)..1024 * (r % full + 1)]
  }

  lemma FullChunkBlocks()
    ensures Units(1024, 64) == 16
  {
  }

  // Either kind of row finishes to its own chunk's chaining value.
  lemma RowCv(f: Compression, mode: Mode, chunk: seq<byte>, index: nat, shared: nat)
    requires |chunk| <= 1024 && shared < Units(|chunk|, 64) && index < 0x1_0000_0000
    ensures 1 <= |BlockWords(chunk)| <= 16
    ensures 64 * (|BlockWords(chunk)| - 1) <= |chunk| <= 64 * |BlockWords(chunk)|
    ensures var words := BlockWords(chunk);
            var cv := ChainRow(f, mode, mode.keyWords, words[..shared], (index, 0), 0, shared);
            ChainingValue(f, RowOutput(f, mode, cv, words, (index, 0), |chunk|, shared))
            == ChunkCv(f, mode, chunk, index)
  {
    UnitsOfChunk(|chunk|);
    assert Split(index) == (index, 0);
    SharedChain(f, mode, chunk, index, shared);
  }

  // Message b's stretch of a `[B * full]` row.
  function MessageRow<T>(rows: seq<T>, b: nat, batch: nat, full: nat): (row: seq<T>)
    requires b < batch && |rows| == batch * full
    ensures |row| == full
    ensures forall i :: 0 <= i < full ==> b * full + i < |rows| && row[i] == rows[b * full + i]
  {
    MulMono(b + 1, batch, full);
    rows[b * full..(b + 1) * full]
  }

  // Row b of the finished table, read back per message.
  lemma TableRow(f: Compression, mode: Mode, message: seq<seq<byte>>, length: nat, full: nat, heads: seq<Cv>, b: nat)
    requires Batch(message, length) && full >= 1 && 1024 * full <= length <= 1024 * (full + 1)
    requires b < |message| && |heads| == |message| * full
    requires forall r :: 0 <= r < |heads| ==>
               heads[r] == ChunkCv(f, mode, HeadChunk(message, length, full, r), r % full)
    ensures MessageRow(heads, b, |message|, full) + [ChunkCv(f, mode, message[b][1024 * full..], full)]
         == Cvs(f, mode, message[b], full + 1)
  {
    hide ChunkCv, HeadChunk, MessageRow, ChunkAt, Cvs;
    var row, cvs := MessageRow(heads, b, |message|, full), Cvs(f, mode, message[b], full + 1);
    CvsAt(f, mode, message[b], full + 1, full);
    LastChunk(message[b], full);
    forall i | 0 <= i < full
      ensures row[i] == cvs[i]
    {
      RowIndex(b, i, full, |message|);
      assert row[i] == heads[b * full + i];
      CvsAt(f, mode, message[b], full + 1, i);
    }
    assert cvs == cvs[..full] + [cvs[full]];
  }

  lemma CvsAt(f: Compression, mode: Mode, msg: seq<byte>, n: nat, i: nat)
    requires i < n && 1024 * (n - 1) <= |msg|
    ensures Cvs(f, mode, msg, n)[i] == ChunkCv(f, mode, ChunkAt(msg, i), i)
  {
    hide ChunkCv, ChunkAt;
  }

  lemma LastChunk(msg: seq<byte>, n: nat)
    requires 1024 * n <= |msg| <= 1024 * (n + 1)
    ensures ChunkAt(msg, n) == msg[1024 * n..]
  {
  }

  // Row r's own chaining value, whichever kind of row it is.
  predicate RowsDone(f: Compression, mode: Mode, chunks: seq<seq<byte>>, counter: seq<Counter>, finished: seq<Cv>)
    requires |chunks| == |counter| && forall r :: 0 <= r < |chunks| ==> |chunks[r]| <= 1024
  {
    |finished| == |chunks|
    && forall r :: 0 <= r < |chunks| ==> finished[r] == ChunkCv(f, mode, chunks[r], counter[r].0)
  }

  predicate Numbered(counter: seq<Counter>)
  {
    forall r :: 0 <= r < |counter| ==> counter[r].1 == 0
  }

  // The middle of `_chunk_chaining_values`: the short chunks ride the full
  // chunks' chain as far as their own last block, and rejoin them for the
  // finishing call.
  method SharedRows(f: Compression, mode: Mode, head: seq<seq<byte>>, headCounter: seq<Counter>,
                    tail: seq<seq<byte>>, tailCounter: seq<Counter>, tailLen: nat)
    returns (heads: seq<Cv>, tails: seq<Cv>)
    requires |head| == |headCounter| && |tail| == |tailCounter| && Numbered(headCounter) && Numbered(tailCounter)
    requires Batch(head, 1024) && Batch(tail, tailLen) && 1 <= tailLen <= 1024
    ensures RowsDone(f, mode, head, headCounter, heads) && RowsDone(f, mode, tail, tailCounter, tails)
  {
    hide Units, BlockWords, ChainRow, RowOutput, ChunkCv;
    UnitsOfChunk(tailLen);
    FullChunkBlocks();
    var rows, batch := |head|, |tail|;
    var headWords := seq(rows, r requires 0 <= r < rows => BlockWords(head[r]));
    var tailWords := seq(batch, b requires 0 <= b < batch => BlockWords(tail[b]));
    var leaves := Units(tailLen, 64) - 1;

    var shared := Chain(f, mode, seq(rows + batch, _ => mode.keyWords),
                        seq(rows, r requires 0 <= r < rows => headWords[r][..leaves])
                        + seq(batch, b requires 0 <= b < batch => tailWords[b][..leaves]),
                        leaves, headCounter + tailCounter, 0);
    var headOutputs := ChunkFrom(f, mode, shared[..rows], headWords, 16, headCounter, 1024, leaves);
    var tailOutputs := ChunkFrom(f, mode, shared[rows..], tailWords, leaves + 1, tailCounter, tailLen, leaves);
    var stacked := headOutputs + tailOutputs;
    var finished := seq(rows + batch, r requires 0 <= r < rows + batch => ChainingValue(f, stacked[r]));
    heads, tails := finished[..rows], finished[rows..];
    forall r | 0 <= r < rows
      ensures heads[r] == ChunkCv(f, mode, head[r], headCounter[r].0)
    {
      RowCv(f, mode, head[r], headCounter[r].0, leaves);
    }
    forall b | 0 <= b < batch
      ensures tails[b] == ChunkCv(f, mode, tail[b], tailCounter[b].0)
    {
      RowCv(f, mode, tail[b], tailCounter[b].0, leaves);
    }
  }

  // `_chunk_chaining_values`: cut the batch, finish the rows, read them back.
  method ChunkChainingValues(f: Compression, mode: Mode, message: seq<seq<byte>>, length: nat, nchunks: nat)
    returns (values: Option<seq<seq<Cv>>>)
    requires Batch(message, length)
    requires nchunks == Units(length, 1024) && nchunks >= 2
    ensures values.Some? <==> nchunks <= 0x1_0000_0000
    ensures values.Some? ==> |values.value| == |message|
    ensures values.Some? ==> forall b :: 0 <= b < |message| ==>
              1024 * (nchunks - 1) <= length && values.value[b] == Cvs(f, mode, message[b], nchunks)
  {
    UnitsBounds(length, 1024);
    hide Units, ChunkCv, ChunkAt, HeadChunk, Cvs;
    var batch, full := |message|, nchunks - 1;
    var headCounter, tailCounter := Counters(batch, 0, full), Counters(batch, full, 1);
    if headCounter.None? || tailCounter.None? {
      return None;
    }
    var head := seq(batch * full, r requires 0 <= r < batch * full => HeadChunk(message, length, full, r));
    var tail := seq(batch, b requires 0 <= b < batch => message[b][1024 * full..]);
    var heads, tails := SharedRows(f, mode, head, headCounter.value, tail, tailCounter.value, length - 1024 * full);
    TableIsCvs(f, mode, message, length, full, head, headCounter.value, heads, tail, tailCounter.value, tails);
    return Some(Table(heads, tails, batch, full));
  }

  // The final reshape: each message's full chunks in order, the short one last.
  function Table<T>(heads: seq<T>, tails: seq<T>, batch: nat, full: nat): (table: seq<seq<T>>)
    requires |heads| == batch * full && |tails| == batch
    ensures |table| == batch
  {
    seq(batch, b requires 0 <= b < batch => MessageRow(heads, b, batch, full) + [tails[b]])
  }

  lemma TableIsCvs(f: Compression, mode: Mode, message: seq<seq<byte>>, length: nat, full: nat,
                   head: seq<seq<byte>>, headCounter: seq<Counter>, heads: seq<Cv>,
                   tail: seq<seq<byte>>, tailCounter: seq<Counter>, tails: seq<Cv>)
    requires Batch(message, length) && full >= 1 && 1024 * full <= length <= 1024 * (full + 1)
    requires |head| == |headCounter| == |message| * full && |tail| == |tailCounter| == |message|
    requires forall r :: 0 <= r < |head| ==>
               head[r] == HeadChunk(message, length, full, r) && headCounter[r].0 == r % full
    requires forall b :: 0 <= b < |tail| ==> tail[b] == message[b][1024 * full..] && tailCounter[b].0 == full
    requires Batch(head, 1024) && Batch(tail, length - 1024 * full)
    requires RowsDone(f, mode, head, headCounter, heads) && RowsDone(f, mode, tail, tailCounter, tails)
    ensures forall b :: 0 <= b < |message| ==>
              Table(heads, tails, |message|, full)[b] == Cvs(f, mode, message[b], full + 1)
  {
    hide ChunkCv, ChunkAt, HeadChunk, Cvs, MessageRow;
    forall b | 0 <= b < |message|
      ensures Table(heads, tails, |message|, full)[b] == Cvs(f, mode, message[b], full + 1)
    {
      TableRow(f, mode, message, length, full, heads, b);
    }
  }

  // ------------------------------------------------------------------------
  // The tree over the batch

  // One level of `tree_output`: the batch's pairs as one call, odd nodes riding.
  method BatchLevel(f: Compression, mode: Mode, nodes: seq<seq<Cv>>, width: nat, pairs: nat, odd: bool)
    returns (up: seq<seq<Cv>>)
    requires forall b :: 0 <= b < |nodes| ==> |nodes[b]| == width
    requires width >= 2 && pairs == width / 2 && odd == (width % 2 == 1)
    ensures |up| == |nodes|
    ensures forall b :: 0 <= b < |nodes| ==> up[b] == Level(f, mode, nodes[b])
  {
    var batch := |nodes|;
    var paired := seq(batch * pairs, r requires 0 <= r < batch * pairs => PairAt(nodes, width, pairs, r));
    var parents := seq(batch * pairs, r requires 0 <= r < batch * pairs =>
      ChainingValue(f, ParentOutput(paired[r].0, paired[r].1, mode)));
    LevelTable(f, mode, nodes, width, pairs, odd, parents);
    up := UpRows(nodes, width, pairs, odd, parents);
  }

  function UpRows(nodes: seq<seq<Cv>>, width: nat, pairs: nat, odd: bool, parents: seq<Cv>): (up: seq<seq<Cv>>)
    requires forall b :: 0 <= b < |nodes| ==> |nodes[b]| == width
    requires width >= 2 && |parents| == |nodes| * pairs
    ensures |up| == |nodes|
  {
    seq(|nodes|, b requires 0 <= b < |nodes| =>
      MessageRow(parents, b, |nodes|, pairs) + (if odd then [nodes[b][width - 1]] else []))
  }

  lemma LevelTable(f: Compression, mode: Mode, nodes: seq<seq<Cv>>, width: nat, pairs: nat, odd: bool, parents: seq<Cv>)
    requires forall b :: 0 <= b < |nodes| ==> |nodes[b]| == width
    requires odd == (width % 2 == 1)
    requires width >= 2 && pairs == width / 2 && |parents| == |nodes| * pairs
    requires forall r :: 0 <= r < |parents| ==>
               parents[r] == ParentCv(f, mode, PairAt(nodes, width, pairs, r).0, PairAt(nodes, width, pairs, r).1)
    ensures forall b :: 0 <= b < |nodes| ==> UpRows(nodes, width, pairs, odd, parents)[b] == Level(f, mode, nodes[b])
  {
    hide Level, MessageRow, ParentCv, PairAt;
    forall b | 0 <= b < |nodes|
      ensures UpRows(nodes, width, pairs, odd, parents)[b] == Level(f, mode, nodes[b])
    {
      LevelRow(f, mode, nodes, width, pairs, parents, b);
    }
  }

  function PairAt(nodes: seq<seq<Cv>>, width: nat, pairs: nat, r: nat): (p: (Cv, Cv))
    requires forall b :: 0 <= b < |nodes| ==> |nodes[b]| == width
    requires pairs >= 1 && 2 * pairs <= width && r < |nodes| * pairs
    ensures r / pairs < |nodes| && r % pairs < pairs
    ensures p == (nodes[r / pairs][2 * (r % pairs)], nodes[r / pairs][2 * (r % pairs) + 1])
  {
    (nodes[r / pairs][2 * (r % pairs)], nodes[r / pairs][2 * (r % pairs) + 1])
  }

  lemma LevelRow(f: Compression, mode: Mode, nodes: seq<seq<Cv>>, width: nat, pairs: nat, parents: seq<Cv>, b: nat)
    requires forall b :: 0 <= b < |nodes| ==> |nodes[b]| == width
    requires width >= 2 && pairs == width / 2
    requires b < |nodes| && |parents| == |nodes| * pairs
    requires forall r :: 0 <= r < |parents| ==>
               parents[r] == ParentCv(f, mode, PairAt(nodes, width, pairs, r).0, PairAt(nodes, width, pairs, r).1)
    ensures MessageRow(parents, b, |nodes|, pairs) + (if width % 2 == 1 then [nodes[b][width - 1]] else [])
         == Level(f, mode, nodes[b])
  {
    hide Level, MessageRow, ParentCv, PairAt;
    var row := MessageRow(parents, b, |nodes|, pairs);
    var up := Level(f, mode, nodes[b]);
    forall j | 0 <= j < pairs
      ensures row[j] == up[j]
    {
      RowIndex(b, j, pairs, |nodes|);
      assert row[j] == parents[b * pairs + j];
      LevelAt(f, mode, nodes[b], j);
    }
    if width % 2 == 1 {
      LevelAt(f, mode, nodes[b], pairs);
    }
  }

  // `tree_output`: the root node of every message, assembled but not run.
  method TreeOutput(f: Compression, mode: Mode, message: seq<seq<byte>>, length: nat)
    returns (roots: Option<seq<Output>>)
    requires Batch(message, length)
    ensures roots.Some? <==> Units(length, 1024) <= 0x1_0000_0000
    ensures roots.Some? ==> |roots.value| == |message|
    ensures roots.Some? ==> forall b :: 0 <= b < |message| ==> roots.value[b] == SpecOutput(f, mode, message[b])
    ensures roots.Some? && length > 1024 ==>
              forall b :: 0 <= b < |message| ==> HasSubtrees(f, mode, message[b], roots.value[b])
  {
    UnitsBounds(length, 1024);
    var nchunks := Units(length, 1024);
    if nchunks == 1 {
      var outs := OneChunkRoots(f, mode, message, length);
      return Some(outs);
    }
    var nodes := ChunkChainingValues(f, mode, message, length, nchunks);
    if nodes.None? {
      return None;
    }
    hide Units, Cvs, Tree, TreeRoot;
    var outs := ReduceRoots(f, mode, nodes.value, nchunks);
    forall b | 0 <= b < |message|
      ensures outs[b] == SpecOutput(f, mode, message[b]) && HasSubtrees(f, mode, message[b], outs[b])
    {
      TreeOperands(f, mode, Cvs(f, mode, message[b], nchunks));
    }
    return Some(outs);
  }

  // A root over two or more chunks: the left subtree takes the largest power of
  // two strictly below their number, the right one the rest.
  predicate HasSubtrees(f: Compression, mode: Mode, msg: seq<byte>, root: Output)
    requires |msg| > 1024
  {
    UnitsBounds(|msg|, 1024);
    var cvs := Cvs(f, mode, msg, Units(|msg|, 1024));
    var l := LeftLen(|cvs|);
    IsParent(mode, root, Tree(f, mode, cvs[..l]), Tree(f, mode, cvs[l..]))
  }

  // A one-chunk message is its own root: a chunk output, not a parent output.
  method OneChunkRoots(f: Compression, mode: Mode, message: seq<seq<byte>>, length: nat) returns (roots: seq<Output>)
    requires Batch(message, length) && length <= 1024
    ensures |roots| == |message|
    ensures forall b :: 0 <= b < |message| ==> roots[b] == ChunkOutput(f, mode, message[b], 0)
  {
    hide BlockWords, Units, ChainRow, ChunkOutput, RowOutput;
    UnitsOfChunk(length);
    var words := seq(|message|, b requires 0 <= b < |message| => BlockWords(message[b]));
    roots := ChunkFrom(f, mode, seq(|message|, _ => mode.keyWords), words, Units(length, 64),
                       seq(|message|, _ => (0, 0)), length, 0);
    forall b | 0 <= b < |message|
      ensures roots[b] == ChunkOutput(f, mode, message[b], 0)
    {
      WholeChunk(f, mode, message[b]);
    }
  }

  lemma WholeChunk(f: Compression, mode: Mode, chunk: seq<byte>)
    requires |chunk| <= 1024
    ensures 1 <= |BlockWords(chunk)| <= 16
    ensures 64 * (|BlockWords(chunk)| - 1) <= |chunk| <= 64 * |BlockWords(chunk)|
    ensures RowOutput(f, mode, mode.keyWords, BlockWords(chunk), (0, 0), |chunk|, 0) == ChunkOutput(f, mode, chunk, 0)
  {
    hide BlockWords, Units, ChunkOutput, RowOutput;
    UnitsOfChunk(|chunk|);
    SharedChain(f, mode, chunk, 0, 0);
    assert Split(0) == (0, 0);
  }

  // The `while` of `levels` drives one batched call per level; the last pair is
  // the root's.
  method ReduceRoots(f: Compression, mode: Mode, rows: seq<seq<Cv>>, nchunks: nat) returns (roots: seq<Output>)
    requires nchunks >= 2 && forall b :: 0 <= b < |rows| ==> |rows[b]| == nchunks
    ensures |roots| == |rows|
    ensures forall b :: 0 <= b < |rows| ==> roots[b] == TreeRoot(f, mode, rows[b])
  {
    hide TreeRoot, Level;
    var plan := Levels(nchunks);
    var nodes, width := rows, nchunks;
    for i := 0 to |plan.value|
      invariant width >= 2 && Plan(width) == plan.value[i..]
      invariant |nodes| == |rows|
      invariant forall b :: 0 <= b < |rows| ==> |nodes[b]| == width
      invariant forall b :: 0 <= b < |rows| ==> TreeRoot(f, mode, nodes[b]) == TreeRoot(f, mode, rows[b])
    {
      forall b | 0 <= b < |nodes|
        ensures TreeRoot(f, mode, Level(f, mode, nodes[b])) == TreeRoot(f, mode, nodes[b])
      {
        LevelKeepsTree(f, mode, nodes[b]);
      }
      nodes := BatchLevel(f, mode, nodes, width, plan.value[i].0, plan.value[i].1);
      width := width / 2 + width % 2;
    }
    roots := seq(|nodes|, b requires 0 <= b < |nodes| => ParentOutput(nodes[b][0], nodes[b][1], mode));
    forall b | 0 <= b < |rows|
      ensures roots[b] == TreeRoot(f, mode, rows[b])
    {
      RootOfPair(f, mode, nodes[b]);
    }
  }

  lemma RootOfPair(f: Compression, mode: Mode, nodes: seq<Cv>)
    requires |nodes| == 2
    ensures TreeRoot(f, mode, nodes) == ParentOutput(nodes[0], nodes[1], mode)
  {
    RunPlanIsTree(f, mode, nodes);
  }

  // ------------------------------------------------------------------------
  // The root's output

  // `_output_blocks` and `root_bytes`: every node's output blocks as the rows of
  // one call, split back per message. `None` is a rejected request.
  method RootBytes(f: Compression, roots: seq<Output>, outLen: int) returns (out: Option<seq<seq<byte>>>)
    ensures out.Some? <==> 1 <= outLen <= 0x1_0000_0000 * 64
    ensures out.Some? ==> |out.value| == |roots|
    ensures out.Some? ==> forall b :: 0 <= b < |roots| ==> out.value[b] == RootStream(f, roots[b], outLen)
  {
    if outLen < 1 {
      return None;
    }
    var batch, blocks := |roots|, Units(outLen, 64);
    UnitsBounds(outLen, 64);
    var counter := Counters(batch, 0, blocks);
    if counter.None? {
      return None;
    }
    hide Units, Counters;
    var bytes := seq(batch * blocks, r requires 0 <= r < batch * blocks => RootRow(f, roots, counter.value, blocks, r));
    var table := seq(batch, b requires 0 <= b < batch => Joined(MessageRow(bytes, b, batch, blocks))[..outLen]);
    RootTable(f, roots, counter.value, bytes, blocks, outLen);
    return Some(table);
  }

  // The 64 bytes of one output block.
  type OutBytes = s: seq<byte> | |s| == 64 witness Zeros(64)

  // One row of the root call: node r / blocks at its own output-block counter.
  function RootRow(f: Compression, roots: seq<Output>, counter: seq<Counter>, blocks: nat, r: nat): (bytes: OutBytes)
    requires blocks >= 1 && r < |roots| * blocks && |counter| == |roots| * blocks
  {
    var o := roots[r / blocks];
    UnpackLe(f(o.(counter := counter[r], flags := o.flags + {ROOT})))
  }

  lemma RootTable(f: Compression, roots: seq<Output>, counter: seq<Counter>, bytes: seq<OutBytes>, blocks: nat,
                  outLen: nat)
    requires 1 <= blocks <= 0x1_0000_0000 && outLen <= 64 * blocks
    requires |counter| == |bytes| == |roots| * blocks
    requires forall r :: 0 <= r < |counter| ==> counter[r] == (r % blocks, 0)
    requires forall r :: 0 <= r < |bytes| ==> bytes[r] == RootRow(f, roots, counter, blocks, r)
    ensures forall b :: 0 <= b < |roots| ==>
              Joined(MessageRow(bytes, b, |roots|, blocks))[..outLen] == RootStream(f, roots[b], outLen)
  {
    hide MessageRow, RootRow, RootStream, Joined;
    forall b | 0 <= b < |roots|
      ensures Joined(MessageRow(bytes, b, |roots|, blocks))[..outLen] == RootStream(f, roots[b], outLen)
    {
      var row := MessageRow(bytes, b, |roots|, blocks);
      forall i | 0 <= i < blocks
        ensures row[i] == UnpackLe(f(roots[b].(counter := Split(i), flags := roots[b].flags + {ROOT})))
      {
        RowIndex(b, i, blocks, |roots|);
        assert Split(i) == (i, 0);
        RootRowIs(f, roots, counter, blocks, b, i);
      }
      JoinedIsStream(f, roots[b], row, outLen);
    }
  }

  lemma RootRowIs(f: Compression, roots: seq<Output>, counter: seq<Counter>, blocks: nat, b: nat, i: nat)
    requires i < blocks && b < |roots| && |counter| == |roots| * blocks
    requires b * blocks + i < |counter| && (b * blocks + i) / blocks == b
    ensures RootRow(f, roots, counter, blocks, b * blocks + i)
         == UnpackLe(f(roots[b].(counter := counter[b * blocks + i], flags := roots[b].flags + {ROOT})))
  {
  }

  lemma JoinedIsStream(f: Compression, o: Output, row: seq<OutBytes>, outLen: nat)
    requires outLen <= 64 * |row|
    requires forall i :: 0 <= i < |row| ==>
               row[i] == UnpackLe(f(o.(counter := Split(i), flags := o.flags + {ROOT})))
    ensures Joined(row)[..outLen] == RootStream(f, o, outLen)
  {
    hide Split, ByteOf;
    forall i | 0 <= i < outLen
      ensures Joined(row)[i] == RootStream(f, o, outLen)[i]
    {
    }
  }

  // The trailing reshape: 64-byte rows end to end.
  function Joined(rows: seq<OutBytes>): (s: seq<byte>)
    ensures |s| == 64 * |rows|
  {
    seq(64 * |rows|, i requires 0 <= i < 64 * |rows| => rows[i / 64][i % 64])
  }

  // `unmarked_hash`: the whole hash of every message in the batch.
  method UnmarkedHash(f: Compression, mode: Mode, message: seq<seq<byte>>, length: nat, outLen: int)
    returns (out: Option<seq<seq<byte>>>)
    requires Batch(message, length)
    ensures out.Some? <==> Units(length, 1024) <= 0x1_0000_0000 && 1 <= outLen <= 0x1_0000_0000 * 64
    ensures out.Some? ==> |out.value| == |message|
    ensures out.Some? ==> forall b :: 0 <= b < |message| ==> out.value[b] == SpecHash(f, mode, message[b], outLen)
  {
    hide Units;
    var roots := TreeOutput(f, mode, message, length);
    if roots.None? {
      return None;
    }
    out := RootBytes(f, roots.value, outLen);
  }
}
