// A byte stream cut into blocks of words: what is whole, what is held back, and
// the read both incremental absorbs lay a resumed stream out with.
module Stream {
  import opened Words

  // The two packings, big-endian for the SHA-2 families, little-endian for
  // Keccak's lanes.
  function Pack(bigEndian: bool, data: seq<byte>): (words: seq<u32>)
    requires |data| % 4 == 0
  {
    if bigEndian then PackBe(data) else PackLe(data)
  }

  // `block_to_words`: the whole blocks, each packed.
  function Blocks(bigEndian: bool, block: nat, data: seq<byte>): (words: seq<seq<u32>>)
    requires block > 0 && block % 4 == 0
    decreases |data|
  {
    if |data| < block then [] else [Pack(bigEndian, data[..block])] + Blocks(bigEndian, block, data[block..])
  }

  // Whole blocks in front are cut first.
  lemma {:induction false} BlocksConcat(bigEndian: bool, block: nat, a: seq<byte>, k: nat, b: seq<byte>)
    requires block > 0 && block % 4 == 0 && |a| == k * block
    ensures |Blocks(bigEndian, block, a)| == k
    ensures Blocks(bigEndian, block, a + b) == Blocks(bigEndian, block, a) + Blocks(bigEndian, block, b)
  {
    hide Pack;
    if k == 0 {
      assert a + b == b;
    } else {
      MulMono(1, k, block);
      assert |a| - block == (k - 1) * block;
      BlocksConcat(bigEndian, block, a[block..], k - 1, b);
      assert (a + b)[..block] == a[..block];
      assert (a + b)[block..] == a[block..] + b;
    }
  }

  lemma BlocksSplit(bigEndian: bool, block: nat, data: seq<byte>, k: nat)
    requires block > 0 && block % 4 == 0 && k * block <= |data|
    ensures |Blocks(bigEndian, block, data[..k * block])| == k
    ensures Blocks(bigEndian, block, data)
         == Blocks(bigEndian, block, data[..k * block]) + Blocks(bigEndian, block, data[k * block..])
  {
    hide Blocks;
    BlocksConcat(bigEndian, block, data[..k * block], k, data[k * block..]);
    assert data == data[..k * block] + data[k * block..];
  }

  // A short last piece contributes nothing.
  lemma {:induction false} BlocksWhole(bigEndian: bool, block: nat, data: seq<byte>, k: nat)
    requires block > 0 && block % 4 == 0 && k * block <= |data| < (k + 1) * block
    ensures Blocks(bigEndian, block, data) == Blocks(bigEndian, block, data[..k * block])
  {
    BlocksSplit(bigEndian, block, data, k);
    assert (k + 1) * block == k * block + block;
  }

  lemma Subslice(data: seq<byte>, at: nat, n: nat, k: nat, m: nat)
    requires at + n <= |data| && k + m <= n
    ensures data[at..at + n][k..k + m] == data[at + k..at + k + m]
  {
    var inner, outer := data[at..at + n][k..k + m], data[at + k..at + k + m];
    forall x | 0 <= x < m
      ensures inner[x] == outer[x]
    {
      assert inner[x] == data[at..at + n][k + x];
    }
    assert inner == outer;
  }

  // Block i is packed from its own bytes.
  lemma {:induction false} BlockAt(bigEndian: bool, block: nat, data: seq<byte>, i: nat)
    requires block > 0 && block % 4 == 0 && (i + 1) * block <= |data|
    ensures i < |Blocks(bigEndian, block, data)| && 0 <= i * block && i * block + block <= |data|
    ensures Blocks(bigEndian, block, data)[i] == Pack(bigEndian, data[i * block..i * block + block])
  {
    hide Pack;
    if i == 0 {
      assert data[0..block] == data[..block];
    } else {
      NextBlock(i, block);
      BlockAt(bigEndian, block, data[block..], i - 1);
      var at: nat := (i - 1) * block;
      assert data[block..] == data[block..block + (|data| - block)];
      Subslice(data, block, |data| - block, at, block);
    }
  }

  lemma NextBlock(i: nat, block: nat)
    requires i > 0
    ensures 0 <= (i - 1) * block && i * block == (i - 1) * block + block && (i + 1) * block == i * block + block
  {
  }

  // Word j of it is its own four bytes, in the packing's order.
  lemma BlocksTell(bigEndian: bool, block: nat, data: seq<byte>, i: nat, j: nat)
    requires block > 0 && block % 4 == 0 && (i + 1) * block <= |data| && j < block / 4
    ensures i < |Blocks(bigEndian, block, data)| && |Blocks(bigEndian, block, data)[i]| == block / 4
    ensures i * block >= 0 && i * block + 4 * j + 4 <= |data|
    ensures var bytes := data[i * block + 4 * j..i * block + 4 * j + 4];
            Blocks(bigEndian, block, data)[i][j] == if bigEndian then BeValue(bytes) else LeValue(bytes)
  {
    hide Pack, Blocks, BeValue, LeValue;
    BlockAt(bigEndian, block, data, i);
    var at: nat := i * block;
    assert 4 * j + 4 <= block;
    PackTells(bigEndian, data[at..at + block], j);
    Subslice(data, at, block, 4 * j, 4);
  }

  lemma PackTells(bigEndian: bool, data: seq<byte>, j: nat)
    requires |data| % 4 == 0 && j < |data| / 4
    ensures |Pack(bigEndian, data)| == |data| / 4
    ensures var bytes := data[4 * j..4 * j + 4];
            Pack(bigEndian, data)[j] == if bigEndian then BeValue(bytes) else LeValue(bytes)
  {
    hide PackLe, PackBe, BeValue, LeValue;
    PacksTell(data, j);
  }

  // The partial block, zeroed past its valid prefix.
  function Held(block: nat, all: seq<byte>): (b: seq<byte>)
    requires block > 0
    ensures |b| == block
  {
    DivBounds(|all|, block);
    all[|all| / block * block..] + Zeros(block - |all| % block)
  }

  // The gap-skipping read both incremental absorbs lay a stream out with: slot
  // j reads source byte j before the pending length and past the gap after it,
  // clamped into range.
  function Gather(source: seq<byte>, pl: nat, block: nat, slots: nat): (stream: seq<byte>)
    requires |source| > 0 && pl <= block
    ensures |stream| == slots
  {
    seq(slots, j requires 0 <= j < slots =>
      var at := j + (if j < pl then 0 else block - pl);
      source[if at < |source| then at else |source| - 1])
  }

  // The clamp is never felt inside the stream: what it spoils lies past it.
  lemma GatherReads(pending: seq<byte>, pl: nat, data: seq<byte>, slots: nat)
    requires |pending| > 0 && pl <= |pending| && pl + |data| <= slots
    ensures Gather(pending + data, pl, |pending|, slots)[..pl + |data|] == pending[..pl] + data
  {
    var stream := Gather(pending + data, pl, |pending|, slots);
    forall j | 0 <= j < pl + |data|
      ensures stream[j] == (pending[..pl] + data)[j]
    {
      if j >= pl {
        assert (pending + data)[j + |pending| - pl] == data[j - pl];
      }
    }
  }

  // The live block count is one of the two static candidates.
  lemma Candidates(pl: nat, length: nat, block: nat)
    requires pl < block
    ensures length / block <= (pl + length) / block <= (block - 1 + length) / block <= length / block + 1
  {
    DivMono(length, pl + length, block);
    DivMono(pl + length, block - 1 + length, block);
    DivMono(block - 1 + length, length + block, block);
    AddMultipleDiv(length, 1, block);
  }

  // The slots past the stream feed only the discarded candidate.
  lemma StreamBlocks(bigEndian: bool, block: nat, stream: seq<byte>, all: seq<byte>, active: nat, maxBlocks: nat)
    requires block > 0 && block % 4 == 0
    requires active * block <= |all| < (active + 1) * block && active <= maxBlocks
    requires maxBlocks * block <= |stream| && |all| <= |stream|
    requires stream[..|all|] == all
    ensures |Blocks(bigEndian, block, stream[..maxBlocks * block])| == maxBlocks
    ensures Blocks(bigEndian, block, stream[..maxBlocks * block])[..active] == Blocks(bigEndian, block, all)
  {
    hide Blocks;
    var live := stream[..maxBlocks * block];
    MulMono(active, maxBlocks, block);
    BlocksSplit(bigEndian, block, live, active);
    BlocksSplit(bigEndian, block, stream, maxBlocks);
    BlocksWhole(bigEndian, block, all, active);
    BlocksSplit(bigEndian, block, all, active);
    assert live[..active * block] == stream[..|all|][..active * block];
  }

  lemma SlotsFit(newLen: nat, active: nat, maxBlocks: nat, block: nat)
    requires newLen < (active + 1) * block && active <= maxBlocks
    ensures newLen <= (maxBlocks + 1) * block && (active + 1) * block <= (maxBlocks + 1) * block
    ensures maxBlocks * block <= (maxBlocks + 1) * block
    ensures (active + 1) * block == active * block + block
  {
    MulMono(active + 1, maxBlocks + 1, block);
    MulMono(maxBlocks, maxBlocks + 1, block);
  }

  // The new partial block: the stream past its whole blocks, masked.
  function NextPending(block: nat, stream: seq<byte>, at: nat, tailLen: nat): (b: seq<byte>)
    requires at + block <= |stream|
    ensures |b| == block
  {
    seq(block, slot requires 0 <= slot < block => if slot < tailLen then stream[at + slot] else 0)
  }

  lemma NextPendingIsHeld(block: nat, stream: seq<byte>, all: seq<byte>, active: nat)
    requires block > 0 && |all| <= |stream| && stream[..|all|] == all
    requires active == |all| / block && active * block <= |all| && active * block + block <= |stream|
    ensures NextPending(block, stream, active * block, |all| - active * block) == Held(block, all)
  {
    DivBounds(|all|, block);
    var n := active * block;
    forall i | 0 <= i < |all| - n
      ensures stream[n + i] == all[n..][i]
    {
      assert stream[..|all|][n + i] == all[n + i];
    }
  }

  // One absorb's layout, whole: which block counts can be live, that the live
  // blocks are the stream's, and that the rest of it is held.
  lemma Layout(bigEndian: bool, pending: seq<byte>, pl: nat, data: seq<byte>, maxBlocks: nat, active: nat)
    requires |pending| > 0 && |pending| % 4 == 0 && pl < |pending|
    requires maxBlocks == (|pending| - 1 + |data|) / |pending| && active == (pl + |data|) / |pending|
    ensures |data| / |pending| <= active <= maxBlocks <= |data| / |pending| + 1
    ensures var block, all := |pending|, pending[..pl] + data;
            var stream := Gather(pending + data, pl, block, (maxBlocks + 1) * block);
            && maxBlocks * block <= |stream|
            && |Blocks(bigEndian, block, stream[..maxBlocks * block])| == maxBlocks
            && Blocks(bigEndian, block, stream[..maxBlocks * block])[..active] == Blocks(bigEndian, block, all)
            && active * block <= |all| && active * block + block <= |stream|
            && |all| - active * block == |all| % block
            && NextPending(block, stream, active * block, |all| - active * block) == Held(block, all)
  {
    hide Blocks, Gather, Held, NextPending;
    var block, all := |pending|, pending[..pl] + data;
    var stream := Gather(pending + data, pl, block, (maxBlocks + 1) * block);
    Candidates(pl, |data|, block);
    DivBounds(|all|, block);
    SlotsFit(|all|, active, maxBlocks, block);
    GatherReads(pending, pl, data, (maxBlocks + 1) * block);
    StreamBlocks(bigEndian, block, stream, all, active, maxBlocks);
    NextPendingIsHeld(block, stream, all, active);
  }

  // Bytes that follow join the partial block, never a block already folded.
  lemma BlocksResume(bigEndian: bool, block: nat, all: seq<byte>, more: seq<byte>, k: nat)
    requires block > 0 && block % 4 == 0 && k * block <= |all| < (k + 1) * block
    ensures Blocks(bigEndian, block, all + more)
         == Blocks(bigEndian, block, all) + Blocks(bigEndian, block, all[k * block..] + more)
  {
    hide Blocks;
    var front, rest := all[..k * block], all[k * block..];
    BlocksWhole(bigEndian, block, all, k);
    BlocksConcat(bigEndian, block, front, k, rest + more);
    assert all + more == front + (rest + more);
  }

  lemma HeldResume(block: nat, all: seq<byte>, more: seq<byte>, k: nat)
    requires block > 0 && k * block <= |all| && k == |all| / block
    ensures Held(block, all + more) == Held(block, all[k * block..] + more)
    ensures |all + more| % block == |all[k * block..] + more| % block
  {
    var at: nat := k * block;
    var rest := all[at..] + more;
    AddMultipleDiv(|rest|, k, block);
    assert |all + more| == at + |rest|;
    DivBounds(|rest|, block);
    DivBounds(|all + more|, block);
    assert (all + more)[at..] == rest;
    var q: nat := |rest| / block * block;
    assert (all + more)[at + q..] == rest[q..];
  }

  // The message a run of absorbs spells.
  function Joined(parts: seq<seq<byte>>): (msg: seq<byte>)
  {
    if |parts| == 0 then [] else Joined(parts[..|parts| - 1]) + parts[|parts| - 1]
  }
}
