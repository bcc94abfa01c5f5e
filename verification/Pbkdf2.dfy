// PBKDF2 (`pbkdf2.py`) over HMAC (`hmac.py`), by the hash itself or by the
// midstates of its two pad blocks.
module Pbkdf2 {
  import opened Words
  import opened Stream
  import opened Pad
  import opened Md
  import Word64

  function XorBytes(a: seq<byte>, b: seq<byte>): (c: seq<byte>)
    requires |a| == |b|
    ensures |c| == |a|
  {
    seq(|a|, i requires 0 <= i < |a| => Word64.Xor8(a[i], b[i]))
  }

  function XorPad(key: seq<byte>, pad: byte): (c: seq<byte>)
    ensures |c| == |key|
  {
    XorBytes(key, seq(|key|, _ => pad))
  }

  // ------------------------------------------------------------------------
  // FIPS 198-1

  datatype Mac = Mac(hash: seq<byte> -> seq<byte>, blockSize: nat, digestSize: nat) {
    ghost predicate Valid()
    {
      && 1 <= digestSize <= blockSize
      && forall m :: |hash(m)| == digestSize
    }
  }

  function BlockKey(mac: Mac, key: seq<byte>): (k0: seq<byte>)
    requires mac.Valid()
    ensures |k0| == mac.blockSize
  {
    var k := if |key| > mac.blockSize then mac.hash(key) else key;
    k + Zeros(mac.blockSize - |k|)
  }

  function Hmac(mac: Mac, key: seq<byte>, msg: seq<byte>): (d: seq<byte>)
    requires mac.Valid()
    ensures |d| == mac.digestSize
  {
    var k0 := BlockKey(mac, key);
    mac.hash(XorPad(k0, 0x5c) + mac.hash(XorPad(k0, 0x36) + msg))
  }

  // The construction byte by byte: a key of more than a block is hashed first,
  // zeros fill the block, and each pad's bytes are xored in.
  lemma HmacIs(mac: Mac, key: seq<byte>, msg: seq<byte>, ipad: seq<byte>, opad: seq<byte>)
    requires mac.Valid() && |ipad| == |opad| == mac.blockSize
    requires var k := if |key| <= mac.blockSize then key else mac.hash(key);
             forall i :: 0 <= i < mac.blockSize ==>
               && ipad[i] == Word64.Xor8(if i < |k| then k[i] else 0, 0x36)
               && opad[i] == Word64.Xor8(if i < |k| then k[i] else 0, 0x5c)
    ensures Hmac(mac, key, msg) == mac.hash(opad + mac.hash(ipad + msg))
  {
    hide Word64.Xor8;
    var k0 := BlockKey(mac, key);
    assert XorPad(k0, 0x36) == ipad && XorPad(k0, 0x5c) == opad;
  }

  // A key of at most a block and the key zero-filled to one authenticate alike.
  lemma ShortKeyFills(mac: Mac, key: seq<byte>, n: nat, msg: seq<byte>)
    requires mac.Valid() && |key| + n <= mac.blockSize
    ensures Hmac(mac, key + Zeros(n), msg) == Hmac(mac, key, msg)
  {
    assert BlockKey(mac, key + Zeros(n)) == BlockKey(mac, key);
  }

  // ------------------------------------------------------------------------
  // RFC 8018, section 5.2

  // U_j of block i.
  function U(mac: Mac, password: seq<byte>, salt: seq<byte>, i: nat, j: nat): (u: seq<byte>)
    requires mac.Valid() && j >= 1
    ensures |u| == mac.digestSize
  {
    Hmac(mac, password, if j == 1 then salt + BytesBe(i, 4) else U(mac, password, salt, i, j - 1))
  }

  // F(P, S, c, i) = U_1 xor ... xor U_c, byte by byte.
  function F(mac: Mac, password: seq<byte>, salt: seq<byte>, c: nat, i: nat): (t: seq<byte>)
    requires mac.Valid() && c >= 1
    ensures |t| == mac.digestSize
  {
    seq(mac.digestSize, k requires 0 <= k < mac.digestSize => FByte(mac, password, salt, c, i, k))
  }

  function FByte(mac: Mac, password: seq<byte>, salt: seq<byte>, c: nat, i: nat, k: nat): (b: byte)
    requires mac.Valid() && c >= 1 && k < mac.digestSize
  {
    var b := U(mac, password, salt, i, c)[k];
    if c == 1 then b else Word64.Xor8(FByte(mac, password, salt, c - 1, i, k), b)
  }

  lemma FSteps(mac: Mac, password: seq<byte>, salt: seq<byte>, c: nat, i: nat)
    requires mac.Valid() && c >= 1
    ensures F(mac, password, salt, 1, i) == U(mac, password, salt, i, 1)
    ensures F(mac, password, salt, c + 1, i)
         == XorBytes(F(mac, password, salt, c, i), U(mac, password, salt, i, c + 1))
  {
    hide U, Word64.Xor8;
  }

  // T_1 to T_n, concatenated.
  function Keystream(mac: Mac, password: seq<byte>, salt: seq<byte>, c: nat, n: nat): (t: seq<byte>)
    requires mac.Valid() && c >= 1
    ensures |t| == n * mac.digestSize
  {
    if n == 0 then []
    else
      assert n * mac.digestSize == (n - 1) * mac.digestSize + mac.digestSize;
      Keystream(mac, password, salt, c, n - 1) + F(mac, password, salt, c, n)
  }

  function DerivedKey(mac: Mac, password: seq<byte>, salt: seq<byte>, c: nat, dkLen: nat): (dk: seq<byte>)
    requires mac.Valid() && c >= 1
    ensures |dk| == dkLen
  {
    DerivedCovers(dkLen, mac.digestSize);
    Keystream(mac, password, salt, c, CeilDiv(dkLen, mac.digestSize))[..dkLen]
  }

  // ------------------------------------------------------------------------
  // The two bodies of one chain step

  function GenericStep(mac: Mac, kIpad: seq<byte>, kOpad: seq<byte>, u: seq<byte>): (r: seq<byte>)
  {
    mac.hash(kOpad + mac.hash(kIpad + u))
  }

  // `resumed`: one side of the MAC from the midstate of its pad block.
  function Resumed(md: Family, mid: Midstate, payload: seq<byte>, tail: seq<byte>): (d: seq<byte>)
    requires md.Valid()
  {
    UnpackBe(Fold(md.compress, mid, Blocks(true, md.rule.blockSize, payload + tail)))
  }

  function PadMidstate(md: Family, padBlock: seq<byte>): (mid: Midstate)
    requires md.Valid()
  {
    Fold(md.compress, md.h0, Blocks(true, md.rule.blockSize, padBlock))
  }

  // Resuming after one block is hashing that block and the payload, whatever
  // the payload's length.
  lemma ResumedIsDigest(md: Family, padBlock: seq<byte>, payload: seq<byte>)
    requires md.Valid() && |padBlock| == md.rule.blockSize
    ensures Resumed(md, PadMidstate(md, padBlock), payload, TailOf(md.rule, md.rule.blockSize + |payload|))
         == Digest(md, padBlock + payload)
  {
    hide Blocks, Fold, UnpackBe, TailOf;
    var block := md.rule.blockSize;
    var rest := payload + TailOf(md.rule, block + |payload|);
    BlocksConcat(true, block, padBlock, 1, rest);
    assert padBlock + payload + TailOf(md.rule, block + |payload|) == padBlock + rest;
    FoldConcat(md.compress, md.h0, Blocks(true, block, padBlock), Blocks(true, block, rest));
  }

  // The profile table's entry for a hash: the family the hash is.
  ghost predicate Profiles(md: Family, mac: Mac)
  {
    md.Valid() && forall m :: mac.hash(m) == Digest(md, m)
  }

  // The midstate step is the MAC.
  lemma MidstateStepIsHmac(md: Family, mac: Mac, password: seq<byte>, u: seq<byte>)
    requires mac.Valid() && Profiles(md, mac) && md.rule.blockSize == mac.blockSize
    requires |u| == mac.digestSize
    ensures var k0 := BlockKey(mac, password);
            var tail := TailOf(md.rule, mac.blockSize + mac.digestSize);
            var inner := Resumed(md, PadMidstate(md, XorPad(k0, 0x36)), u, tail);
            Resumed(md, PadMidstate(md, XorPad(k0, 0x5c)), inner, tail) == Hmac(mac, password, u)
  {
    hide Resumed, PadMidstate, XorPad, TailOf, BlockKey, Digest;
    var k0 := BlockKey(mac, password);
    ResumedIsDigest(md, XorPad(k0, 0x36), u);
    ResumedIsDigest(md, XorPad(k0, 0x5c), mac.hash(XorPad(k0, 0x36) + u));
  }

  // `pbkdf2`, one row. `None` is a ValueError: an iteration count below one or
  // a key length outside [1, (2^32 - 1) * hLen].
  method Derive(mac: Mac, profile: Option<Family>, password: seq<byte>, salt: seq<byte>, iterations: int, dkLen: int)
    returns (dk: Option<seq<byte>>)
    requires mac.Valid() && (profile.Some? ==> Profiles(profile.value, mac))
    ensures dk.Some? <==> iterations >= 1 && 1 <= dkLen <= 0xffff_ffff * mac.digestSize
    ensures dk.Some? ==> dk.value == DerivedKey(mac, password, salt, iterations, dkLen)
  {
    hide Hmac, BlockKey, XorPad, XorBytes, TailOf, Resumed, PadMidstate, Digest;
    if iterations < 1 || !(1 <= dkLen <= 0xffff_ffff * mac.digestSize) {
      return None;
    }
    var n := CeilDiv(dkLen, mac.digestSize);
    BlockIndexFits(dkLen, mac.digestSize);
    var blocks: seq<byte> := [];
    for i := 1 to n + 1
      invariant blocks == Keystream(mac, password, salt, iterations, i - 1)
    {
      var u1 := Hmac(mac, password, salt + BytesBe(i, 4));
      var t := Chain(mac, profile, password, salt, i, u1, iterations);
      blocks := blocks + t;
    }
    DerivedIs(mac, password, salt, iterations, dkLen);
    return Some(blocks[..dkLen]);
  }

  lemma DerivedIs(mac: Mac, password: seq<byte>, salt: seq<byte>, c: nat, dkLen: nat)
    requires mac.Valid() && c >= 1
    ensures var ks := Keystream(mac, password, salt, c, CeilDiv(dkLen, mac.digestSize));
            dkLen <= |ks| && DerivedKey(mac, password, salt, c, dkLen) == ks[..dkLen]
  {
    hide Keystream, CeilDiv;
    DerivedCovers(dkLen, mac.digestSize);
  }

  lemma DerivedCovers(dkLen: nat, hLen: nat)
    requires hLen >= 1
    ensures dkLen <= CeilDiv(dkLen, hLen) * hLen
  {
    UnitsBounds(dkLen, hLen);
    assert dkLen == 0 ==> CeilDiv(dkLen, hLen) >= 0;
  }

  // Every block index fits its four bytes.
  lemma BlockIndexFits(dkLen: nat, hLen: nat)
    requires hLen >= 1 && dkLen <= 0xffff_ffff * hLen
    ensures CeilDiv(dkLen, hLen) <= 0xffff_ffff
  {
    DivMono(dkLen + hLen - 1, 0xffff_ffff * hLen + (hLen - 1), hLen);
    DivModOf(0xffff_ffff, hLen - 1, hLen);
  }

  // The accumulator `fori_loop` of one block, by whichever body applies.
  method Chain(mac: Mac, profile: Option<Family>, password: seq<byte>, salt: seq<byte>, i: nat, u1: seq<byte>,
               iterations: nat) returns (t: seq<byte>)
    requires mac.Valid() && (profile.Some? ==> Profiles(profile.value, mac))
    requires iterations >= 1 && u1 == U(mac, password, salt, i, 1)
    ensures t == F(mac, password, salt, iterations, i)
  {
    hide BlockKey, XorPad, XorBytes, F, TailOf, Resumed, PadMidstate, Digest, Blocks, Fold;
    FSteps(mac, password, salt, 1, i);
    var k0 := BlockKey(mac, password);
    var kIpad, kOpad := XorPad(k0, 0x36), XorPad(k0, 0x5c);
    var u := u1;
    t := u1;
    var fast := profile.Some? && profile.value.rule.blockSize == mac.blockSize;
    var innerMid: Midstate, outerMid: Midstate, tail: seq<byte> := [], [], [];
    if fast {
      innerMid := PadMidstate(profile.value, kIpad);
      outerMid := PadMidstate(profile.value, kOpad);
      tail := TailOf(profile.value.rule, mac.blockSize + mac.digestSize);
    }
    for j := 1 to iterations
      invariant u == U(mac, password, salt, i, j)
      invariant t == F(mac, password, salt, j, i)
    {
      if fast {
        MidstateStepIsHmac(profile.value, mac, password, u);
        u := Resumed(profile.value, outerMid, Resumed(profile.value, innerMid, u, tail), tail);
      } else {
        u := GenericStep(mac, kIpad, kOpad, u);
      }
      FSteps(mac, password, salt, j, i);
      t := XorBytes(t, u);
    }
  }
}
