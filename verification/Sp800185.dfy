// The framing of NIST SP 800-185 (`encodings.py`), and the byte strings cSHAKE,
// TupleHash and KMAC absorb: what each of them determines.
module Sp800185 {
  import opened Words

  // ------------------------------------------------------------------------
  // Length encodings, section 2.3.1 of SP 800-185

  const MAX_ENCODE_BITS := 8 * 255

  // `0 <= x < 2^MAX_ENCODE_BITS`, read off the bit length (BitLengthWithin): the
  // byte count that goes with x is itself one byte.
  predicate Encodable(x: int)
  {
    x >= 0 && BitLength(x) <= MAX_ENCODE_BITS
  }

  lemma BitLengthWithin(x: nat, k: nat)
    ensures BitLength(x) <= k <==> x < Pow2(k)
  {
    BitLengthBounds(x);
    var bits := BitLength(x);
    if bits <= k {
      Pow2Mono(bits, k);
    } else {
      Pow2Mono(k + 1, bits);
    }
  }

  // The count of x's bytes fits one byte itself.
  lemma EncodableIs(x: int)
    ensures Encodable(x) <==> 0 <= x && x < Pow256(255)
  {
    if x >= 0 {
      BitLengthWithin(x, 8 * 255);
      Pow256IsPow2(255);
    }
  }

  // `_encode_length`; `None` is its ValueError.
  function EncodeLength(x: int): (n: Option<nat>)
    ensures n.Some? <==> Encodable(x)
  {
    if !Encodable(x) then None
    else
      var bytes := (BitLength(x) + 7) / 8;
      Some(if bytes > 1 then bytes else 1)
  }

  lemma {:induction false} Pow2Mono(a: nat, b: nat)
    requires a <= b
    ensures Pow2(a) <= Pow2(b)
  {
    if a < b {
      Pow2Mono(a, b - 1);
    }
  }

  lemma {:induction false} Pow256IsPow2(n: nat)
    ensures Pow256(n) == Pow2(8 * n)
  {
    if n > 0 {
      Pow256IsPow2(n - 1);
      var k := 8 * (n - 1);
      assert Pow2(k + 2) == 4 * Pow2(k);
      assert Pow2(k + 4) == 16 * Pow2(k);
      assert Pow2(k + 6) == 64 * Pow2(k);
      assert Pow2(k + 8) == 256 * Pow2(k);
    }
  }

  // The count is the smallest positive n with 256^n > x, and a single byte.
  lemma EncodeLengthIsLeast(x: int)
    requires Encodable(x)
    ensures var n := EncodeLength(x).value;
            && 1 <= n <= 255
            && x < Pow256(n)
            && (n > 1 ==> Pow256(n - 1) <= x)
  {
    hide Pow2, Pow256, BitLength;
    var n, bits := EncodeLength(x).value, BitLength(x);
    BitLengthBounds(x);
    Pow256IsPow2(n);
    Pow2Mono(bits, 8 * n);
    if n > 1 {
      Pow256IsPow2(n - 1);
      Pow2Mono(8 * (n - 1) + 1, bits);
      Pow2Next(8 * (n - 1));
    }
  }

  lemma Pow2Next(k: nat)
    ensures Pow2(k + 1) == 2 * Pow2(k)
  {
  }

  function LeftBytes(x: int): (b: seq<byte>)
    requires Encodable(x)
  {
    EncodeLengthIsLeast(x);
    var n := EncodeLength(x).value;
    [n] + BytesBe(x, n)
  }

  function RightBytes(x: int): (b: seq<byte>)
    requires Encodable(x)
  {
    EncodeLengthIsLeast(x);
    var n := EncodeLength(x).value;
    BytesBe(x, n) + [n]
  }

  // `left_encode` and `right_encode`
  function LeftEncode(x: int): (b: Option<seq<byte>>)
    ensures b.Some? <==> Encodable(x)
  {
    if Encodable(x) then Some(LeftBytes(x)) else None
  }

  function RightEncode(x: int): (b: Option<seq<byte>>)
    ensures b.Some? <==> Encodable(x)
  {
    if Encodable(x) then Some(RightBytes(x)) else None
  }

  // Either way the body is x in base 256, the most significant byte first, and
  // the count stands on the side the encoding is parsed from.
  lemma EncodingsTell(x: int)
    requires Encodable(x)
    ensures var b := LeftBytes(x); |b| - 1 == b[0] && BeValue(b[1..]) == x
    ensures var b := RightBytes(x); |b| - 1 == b[|b| - 1] && BeValue(b[..|b| - 1]) == x
  {
    hide BytesBe, Pow256, EncodeLength;
    EncodeLengthIsLeast(x);
    var n := EncodeLength(x).value;
    DigitsTell(x, n);
    assert LeftBytes(x)[1..] == BytesBe(x, n) && RightBytes(x)[..n] == BytesBe(x, n);
  }

  // Read from the beginning: a count, that many digits, and what follows.
  function ReadLeft(b: seq<byte>): (r: Option<(nat, seq<byte>)>)
    ensures r.Some? ==> |r.value.1| < |b|
  {
    var n: nat := if |b| == 0 then 0 else b[0];
    if n == 0 || |b| < 1 + n then None else Some((BeValue(b[1..1 + n]), b[1 + n..]))
  }

  // Read from the end: a count, that many digits before it, and what precedes.
  function ReadRight(b: seq<byte>): (r: Option<(nat, seq<byte>)>)
  {
    var end := |b| - 1;
    var n: nat := if |b| == 0 then 0 else b[end];
    if n == 0 || end < n then None else Some((BeValue(b[end - n..end]), b[..end - n]))
  }

  // An encoding reads back, on its own side, as its value and its neighbours.
  lemma LeftEncodeReads(x: int, a: seq<byte>)
    requires Encodable(x)
    ensures ReadLeft(LeftBytes(x) + a) == Some((x, a))
  {
    hide BytesBe, Pow256, EncodeLength;
    EncodeLengthIsLeast(x);
    var n := EncodeLength(x).value;
    DigitsTell(x, n);
    var whole := LeftBytes(x) + a;
    assert whole[1..1 + n] == BytesBe(x, n) && whole[1 + n..] == a;
  }

  lemma RightEncodeReads(x: int, a: seq<byte>)
    requires Encodable(x)
    ensures ReadRight(a + RightBytes(x)) == Some((x, a))
  {
    hide BytesBe, Pow256, EncodeLength;
    EncodeLengthIsLeast(x);
    var n := EncodeLength(x).value;
    DigitsTell(x, n);
    var whole := a + RightBytes(x);
    var end := |whole| - 1;
    assert whole[end - n..end] == BytesBe(x, n) && whole[..end - n] == a;
  }

  // ------------------------------------------------------------------------
  // Strings and padding, sections 2.3.2 and 2.3.3

  // The length is a bit count.
  function StringBytes(s: seq<byte>): (b: seq<byte>)
    requires Encodable(8 * |s|)
  {
    LeftBytes(8 * |s|) + s
  }

  // `encode_string`
  function EncodeString(s: seq<byte>): (b: Option<seq<byte>>)
    ensures b.Some? <==> Encodable(8 * |s|)
  {
    if Encodable(8 * |s|) then Some(StringBytes(s)) else None
  }

  function ReadString(b: seq<byte>): (r: Option<(seq<byte>, seq<byte>)>)
    ensures r.Some? ==> |r.value.1| < |b|
  {
    var l := ReadLeft(b);
    if l.None? || l.value.0 % 8 != 0 || |l.value.1| < l.value.0 / 8 then None
    else Some((l.value.1[..l.value.0 / 8], l.value.1[l.value.0 / 8..]))
  }

  lemma EncodeStringReads(s: seq<byte>, a: seq<byte>)
    requires Encodable(8 * |s|)
    ensures ReadString(StringBytes(s) + a) == Some((s, a))
  {
    hide LeftBytes, Encodable, ReadLeft;
    assert StringBytes(s) + a == LeftBytes(8 * |s|) + (s + a);
    LeftEncodeReads(8 * |s|, s + a);
    assert s == (s + a)[..|s|] && a == (s + a)[|s|..];
  }

  predicate AllEncodable(strings: seq<seq<byte>>)
  {
    forall i :: 0 <= i < |strings| ==> Encodable(8 * |strings[i]|)
  }

  // Each element behind its own length.
  function Strings(strings: seq<seq<byte>>): (b: seq<byte>)
    requires AllEncodable(strings)
  {
    if |strings| == 0 then [] else StringBytes(strings[0]) + Strings(strings[1..])
  }

  // n strings, and what follows them.
  function ReadSome(b: seq<byte>, n: nat): (r: Option<(seq<seq<byte>>, seq<byte>)>)
    ensures r.Some? ==> |r.value.1| <= |b|
  {
    if n == 0 then Some(([], b))
    else
      var s := ReadString(b);
      if s.None? then None
      else
        var more := ReadSome(s.value.1, n - 1);
        if more.None? then None else Some(([s.value.0] + more.value.0, more.value.1))
  }

  // Strings to the end.
  function ReadAll(b: seq<byte>): (r: Option<seq<seq<byte>>>)
    decreases |b|
  {
    if |b| == 0 then Some([])
    else
      var s := ReadString(b);
      if s.None? then None
      else
        var more := ReadAll(s.value.1);
        if more.None? then None else Some([s.value.0] + more.value)
  }

  // A sequence is told from its elements' bytes: counted, whatever follows;
  // uncounted, its arity included.
  lemma {:induction false} StringsRead(x: seq<seq<byte>>, a: seq<byte>)
    requires AllEncodable(x)
    ensures ReadSome(Strings(x) + a, |x|) == Some((x, a))
    ensures ReadAll(Strings(x)) == Some(x)
  {
    hide StringBytes, Encodable, ReadString;
    if |x| == 0 {
      assert [] + a == a;
    } else {
      var rest := Strings(x[1..]);
      assert Strings(x) + a == StringBytes(x[0]) + (rest + a);
      EncodeStringReads(x[0], rest + a);
      EncodeStringReads(x[0], rest);
      StringsRead(x[1..], a);
      assert x == [x[0]] + x[1..];
    }
  }

  // The standard's own examples, and the bit count where a byte count would give
  // another string of the same length.
  lemma StandardExamples()
    ensures Encodable(0) && LeftBytes(0) == [1, 0] && RightBytes(0) == [0, 1] && StringBytes([]) == [1, 0]
    ensures Encodable(32) && StringBytes([0x4b, 0x4d, 0x41, 0x43]) == [0x01, 0x20, 0x4b, 0x4d, 0x41, 0x43]
  {
  }

  // Python's `-n % w`
  function Fill(n: nat, w: nat): (f: nat)
    requires w > 0
    ensures f < w
  {
    var length: int := n;
    (-length) % w
  }

  function PadBytes(x: seq<byte>, w: nat): (b: seq<byte>)
    requires w > 0 && Encodable(w)
  {
    var z := LeftBytes(w) + x;
    z + Zeros(Fill(|z|, w))
  }

  // `bytepad`; `None` is a ValueError.
  function Bytepad(x: seq<byte>, w: int): (b: Option<seq<byte>>)
    ensures b.Some? <==> w > 0 && Encodable(w)
  {
    if w > 0 && Encodable(w) then Some(PadBytes(x, w)) else None
  }

  // Whole blocks, and never one more than the framed bytes need.
  lemma PadBytesFill(x: seq<byte>, w: nat)
    requires w > 0 && Encodable(w)
    ensures |PadBytes(x, w)| % w == 0
    ensures |PadBytes(x, w)| < |LeftBytes(w) + x| + w
  {
    hide LeftBytes;
    FillCompletes(|LeftBytes(w) + x|, w);
  }

  lemma FillCompletes(n: nat, w: nat)
    requires w > 0
    ensures (n + Fill(n, w)) % w == 0
  {
    var length: int := n;
    var q := (-length) / w;
    assert -length == q * w + Fill(n, w);
    assert n + Fill(n, w) == (-q) * w;
    if q > 0 {
      MulMono(1, q, w);
    }
    AddMultipleDiv(0, -q, w);
  }

  lemma OneBlockMore(q: nat, r: nat, f: nat, k: nat, w: nat)
    requires r < w && f < w && q * w + r + f == k * w
    ensures f == if r == 0 then 0 else w - r
  {
    if k < q {
      MulMono(k + 1, q, w);
    } else if k > q + 1 {
      MulMono(q + 2, k, w);
    } else if k == q + 1 {
      assert k * w == q * w + w;
    }
  }

  // The fewest zeros that complete a block.
  lemma FillIs(n: nat, w: nat)
    requires w > 0
    ensures Fill(n, w) == if n % w == 0 then 0 else w - n % w
  {
    hide Fill;
    FillCompletes(n, w);
    DivBounds(n, w);
    DivBounds(n + Fill(n, w), w);
    OneBlockMore(n / w, n % w, Fill(n, w), (n + Fill(n, w)) / w, w);
  }

  // A block of n strings behind its width, the zeros after them, and the rest.
  function ReadPadded(b: seq<byte>, w: nat, n: nat): (r: Option<(seq<seq<byte>>, seq<byte>)>)
    requires w > 0
  {
    var width := ReadLeft(b);
    if width.None? || width.value.0 != w then None
    else
      var strings := ReadSome(width.value.1, n);
      if strings.None? then None
      else
        var rest := strings.value.1;
        var used := (|b| - |rest|) % w;
        var zeros := if used == 0 then 0 else w - used;
        if |rest| < zeros || rest[..zeros] != Zeros(zeros) then None
        else Some((strings.value.0, rest[zeros..]))
  }

  lemma PadBytesReads(x: seq<seq<byte>>, w: nat, a: seq<byte>)
    requires w > 0 && Encodable(w) && AllEncodable(x)
    ensures ReadPadded(PadBytes(Strings(x), w) + a, w, |x|) == Some((x, a))
  {
    hide LeftBytes, Encodable, AllEncodable, Fill, Strings, ReadLeft, ReadSome;
    var head := LeftBytes(w) + Strings(x);
    var zeros := Zeros(Fill(|head|, w));
    var rest := zeros + a;
    assert PadBytes(Strings(x), w) + a == LeftBytes(w) + (Strings(x) + rest);
    LeftEncodeReads(w, Strings(x) + rest);
    StringsRead(x, rest);
    FillIs(|head|, w);
    assert |PadBytes(Strings(x), w) + a| - |rest| == |head|;
    assert rest[..|zeros|] == zeros && rest[|zeros|..] == a;
  }

  // `bytepad_encoded_split`: the bytes ahead of a payload known only by length,
  // and the zeros after it. `None` is an error.
  function BytepadEncodedSplit(payloadSize: int, w: int): (r: Option<(seq<byte>, nat)>)
    ensures r.Some? <==> payloadSize >= 0 && w > 0 && Encodable(w) && Encodable(8 * payloadSize)
  {
    if payloadSize < 0 || w <= 0 || !Encodable(w) || !Encodable(8 * payloadSize) then None
    else
      var head := LeftBytes(w) + LeftBytes(8 * payloadSize);
      Some((head, Fill(|head| + payloadSize, w)))
  }

  // The two halves reassemble the padding of the encoded payload.
  lemma SplitReassembles(s: seq<byte>, w: nat)
    requires w > 0 && Encodable(w) && Encodable(8 * |s|)
    ensures var r := BytepadEncodedSplit(|s|, w).value;
            r.0 + s + Zeros(r.1) == PadBytes(StringBytes(s), w)
  {
    hide LeftBytes, Encodable, Fill;
    var head := LeftBytes(w) + LeftBytes(8 * |s|);
    assert head + s == LeftBytes(w) + StringBytes(s);
  }

  // ------------------------------------------------------------------------
  // cSHAKE's prefix block, section 3.3

  predicate Named(name: seq<byte>, customization: seq<byte>, rate: nat)
  {
    rate > 0 && Encodable(rate) && Encodable(8 * |name|) && Encodable(8 * |customization|)
  }

  // `_prefix_block`
  function PrefixBlock(name: seq<byte>, customization: seq<byte>, rate: nat): (b: seq<byte>)
    requires Named(name, customization, rate)
  {
    if |name| == 0 && |customization| == 0 then []
    else PadBytes(StringBytes(name) + StringBytes(customization), rate)
  }

  // At a rate, a prefix that is not empty reads back as its name, its
  // customization and the message that follows.
  lemma PrefixReads(name: seq<byte>, customization: seq<byte>, rate: nat, a: seq<byte>)
    requires Named(name, customization, rate) && |name| + |customization| > 0
    ensures ReadPadded(PrefixBlock(name, customization, rate) + a, rate, 2) == Some(([name, customization], a))
  {
    hide StringBytes, PadBytes, Encodable, ReadPadded;
    var x := [name, customization];
    assert x[1..] == [customization] && [customization][1..] == [];
    assert Strings([customization]) == StringBytes(customization) + Strings([customization][1..]);
    assert Strings(x) == StringBytes(name) + StringBytes(customization);
    PadBytesReads(x, rate, a);
  }

  const CSHAKE_SUFFIX: byte := 0x04
  const SHAKE_SUFFIX: byte := 0x1f

  // `_CShake.__init__`: an empty prefix is the fallback to plain SHAKE.
  function CShakeSuffix(name: seq<byte>, customization: seq<byte>, rate: nat): (suffix: byte)
    requires Named(name, customization, rate)
  {
    if |PrefixBlock(name, customization, rate)| > 0 then CSHAKE_SUFFIX else SHAKE_SUFFIX
  }

  lemma SuffixTells(name: seq<byte>, customization: seq<byte>, rate: nat)
    requires Named(name, customization, rate)
    ensures CShakeSuffix(name, customization, rate) == if |name| == 0 && |customization| == 0 then 0x1f else 0x04
  {
    hide StringBytes, Encodable;
  }

  // What enters the sponge, domain byte and bytes, determines the name, the
  // customization and the message, the SHAKE fallback included.
  lemma CShakeDetermines(n1: seq<byte>, s1: seq<byte>, m1: seq<byte>, n2: seq<byte>, s2: seq<byte>, m2: seq<byte>,
                         rate: nat)
    requires Named(n1, s1, rate) && Named(n2, s2, rate)
    requires CShakeSuffix(n1, s1, rate) == CShakeSuffix(n2, s2, rate)
    requires PrefixBlock(n1, s1, rate) + m1 == PrefixBlock(n2, s2, rate) + m2
    ensures n1 == n2 && s1 == s2 && m1 == m2
  {
    hide Encodable, PadBytes, CShakeSuffix, ReadPadded;
    SuffixTells(n1, s1, rate);
    SuffixTells(n2, s2, rate);
    if |n1| + |s1| > 0 {
      PrefixReads(n1, s1, rate, m1);
      PrefixReads(n2, s2, rate, m2);
      assert [n1, s1][0] == [n2, s2][0] && [n1, s1][1] == [n2, s2][1];
    } else {
      assert [] + m1 == m1 && [] + m2 == m2;
    }
  }

  // L of a fixed-name function: zero for the XOF, else the output's bits.
  function LengthCode(outputSize: nat, xof: bool): (l: nat)
  {
    if xof then 0 else 8 * outputSize
  }

  // `derived_framing`; `None` is an error.
  function DerivedFraming(name: seq<byte>, customization: seq<byte>, rate: nat, outputSize: nat, xof: bool)
    : (r: Option<(seq<byte>, seq<byte>)>)
    ensures r.Some? <==> rate > 0 && Encodable(rate) && Encodable(8 * |name|) && Encodable(8 * |customization|)
                         && Encodable(if xof then 0 else 8 * outputSize)
  {
    if !Named(name, customization, rate) then None
    else
      var tail := RightEncode(LengthCode(outputSize, xof));
      if tail.None? then None else Some((PrefixBlock(name, customization, rate), tail.value))
  }

  // ------------------------------------------------------------------------
  // TupleHash, section 5.3

  const TUPLE_HASH_NAME: seq<byte> := [0x54, 0x75, 0x70, 0x6c, 0x65, 0x48, 0x61, 0x73, 0x68]

  const KMAC_NAME: seq<byte> := [0x4b, 0x4d, 0x41, 0x43]

  lemma {:induction false} StringsSnoc(strings: seq<seq<byte>>, s: seq<byte>)
    requires AllEncodable(strings) && Encodable(8 * |s|)
    ensures Strings(strings + [s]) == Strings(strings) + StringBytes(s)
  {
    hide StringBytes, Encodable;
    if |strings| == 0 {
      assert (strings + [s])[1..] == [];
    } else {
      StringsSnoc(strings[1..], s);
      assert (strings + [s])[1..] == strings[1..] + [s];
    }
  }

  // `_tuple_message`; `None` is the ValueError of an empty tuple or of an
  // element too long to encode.
  method TupleMessage(prefix: seq<byte>, strings: seq<seq<byte>>, tail: seq<byte>) returns (msg: Option<seq<byte>>)
    ensures msg.Some? <==> |strings| > 0 && AllEncodable(strings)
    ensures msg.Some? ==> msg.value == prefix + Strings(strings) + tail
  {
    hide LeftBytes, Encodable;
    if |strings| == 0 {
      return None;
    }
    var parts := prefix;
    for i := 0 to |strings|
      invariant AllEncodable(strings[..i])
      invariant parts == prefix + Strings(strings[..i])
    {
      var length := LeftEncode(8 * |strings[i]|);
      if length.None? {
        return None;
      }
      parts := parts + length.value;
      parts := parts + strings[i];
      StringsSnoc(strings[..i], strings[i]);
      assert strings[..i + 1] == strings[..i] + [strings[i]];
    }
    assert strings[..|strings|] == strings;
    return Some(parts + tail);
  }

  datatype TupleInput = TupleInput(customization: seq<byte>, strings: seq<seq<byte>>, outputSize: nat, xof: bool) {
    predicate Valid(rate: nat)
    {
      && |strings| > 0 && AllEncodable(strings) && outputSize >= 1
      && Named(TUPLE_HASH_NAME, customization, rate) && Encodable(LengthCode(outputSize, xof))
    }

    // The bytes the sponge absorbs.
    function Bytes(rate: nat): (b: seq<byte>)
      requires Valid(rate)
    {
      PrefixBlock(TUPLE_HASH_NAME, customization, rate) + Strings(strings) + RightBytes(LengthCode(outputSize, xof))
    }

    function Code(): (l: nat)
    {
      LengthCode(outputSize, xof)
    }
  }

  // Bytes as their ASCII characters.
  predicate Spells(b: seq<byte>, text: string)
  {
    |b| == |text| && forall i :: 0 <= i < |b| ==> b[i] as int == text[i] as int
  }

  // TupleHash's bytes, read by the standard: the name, the customization, the
  // elements and L.
  function ReadTuple(b: seq<byte>, rate: nat): (r: Option<(seq<seq<byte>>, seq<seq<byte>>, nat)>)
    requires rate > 0
  {
    var prefix := ReadPadded(b, rate, 2);
    if prefix.None? then None
    else
      var tail := ReadRight(prefix.value.1);
      if tail.None? then None
      else
        var strings := ReadAll(tail.value.1);
        if strings.None? then None else Some((prefix.value.0, strings.value, tail.value.0))
  }

  // L is the output's bits, and nothing for the XOF.
  lemma TupleHashReads(input: TupleInput, rate: nat)
    requires input.Valid(rate)
    ensures Spells(TUPLE_HASH_NAME, "TupleHash")
    ensures ReadTuple(input.Bytes(rate), rate)
         == Some(([TUPLE_HASH_NAME, input.customization], input.strings, if input.xof then 0 else 8 * input.outputSize))
  {
    hide PrefixBlock, RightBytes, Strings, Encodable, ReadPadded, ReadRight, ReadAll;
    var prefix, strings := PrefixBlock(TUPLE_HASH_NAME, input.customization, rate), Strings(input.strings);
    assert input.Bytes(rate) == prefix + (strings + RightBytes(input.Code()));
    PrefixReads(TUPLE_HASH_NAME, input.customization, rate, strings + RightBytes(input.Code()));
    RightEncodeReads(input.Code(), strings);
    StringsRead(input.strings, []);
  }

  // The absorbed bytes determine the customization, the tuple and L, which
  // tells the XOF from the fixed-length function.
  lemma TupleHashDetermines(a: TupleInput, b: TupleInput, rate: nat)
    requires a.Valid(rate) && b.Valid(rate) && a.Bytes(rate) == b.Bytes(rate)
    ensures a.customization == b.customization && a.strings == b.strings
    ensures a.Code() == b.Code() && a.xof == b.xof
  {
    hide ReadTuple, Encodable, AllEncodable, Named;
    TupleHashReads(a, rate);
    TupleHashReads(b, rate);
    assert [TUPLE_HASH_NAME, a.customization][1] == [TUPLE_HASH_NAME, b.customization][1];
  }

  // ------------------------------------------------------------------------
  // KMAC, section 4.3

  datatype KmacInput = KmacInput(customization: seq<byte>, key: seq<byte>, message: seq<byte>, outputSize: nat,
                                 xof: bool) {
    predicate Valid(rate: nat)
    {
      && outputSize >= 1 && Encodable(8 * |key|)
      && Named(KMAC_NAME, customization, rate) && Encodable(LengthCode(outputSize, xof))
    }

    // The row's head, message and tail.
    function Bytes(rate: nat): (b: seq<byte>)
      requires Valid(rate)
    {
      PrefixBlock(KMAC_NAME, customization, rate) + PadBytes(StringBytes(key), rate) + message
        + RightBytes(LengthCode(outputSize, xof))
    }

    function Code(): (l: nat)
    {
      LengthCode(outputSize, xof)
    }
  }

  // The row's constants: `_head`, the prefix and the key block, and `_tail`.
  // Around the message they are the bytes absorbed; `None` is an error.
  function KmacRow(input: KmacInput, rate: nat): (r: Option<(seq<byte>, seq<byte>)>)
    ensures r.Some?
       <==> Named(KMAC_NAME, input.customization, rate) && Encodable(input.Code()) && Encodable(8 * |input.key|)
    ensures r.Some? && input.outputSize >= 1 ==> r.value.0 + input.message + r.value.1 == input.Bytes(rate)
  {
    var framing := DerivedFraming(KMAC_NAME, input.customization, rate, input.outputSize, input.xof);
    var key := EncodeString(input.key);
    if framing.None? || key.None? then None
    else Some((framing.value.0 + Bytepad(key.value, rate).value, framing.value.1))
  }

  // KMAC's bytes, read by the standard: the name, the customization, the key,
  // the message and L.
  function ReadKmac(b: seq<byte>, rate: nat): (r: Option<(seq<seq<byte>>, seq<seq<byte>>, seq<byte>, nat)>)
    requires rate > 0
  {
    var prefix := ReadPadded(b, rate, 2);
    if prefix.None? then None
    else
      var key := ReadPadded(prefix.value.1, rate, 1);
      if key.None? then None
      else
        var tail := ReadRight(key.value.1);
        if tail.None? then None else Some((prefix.value.0, key.value.0, tail.value.1, tail.value.0))
  }

  lemma KmacReads(input: KmacInput, rate: nat)
    requires input.Valid(rate)
    ensures Spells(KMAC_NAME, "KMAC")
    ensures ReadKmac(input.Bytes(rate), rate)
         == Some(([KMAC_NAME, input.customization], [input.key], input.message,
                  if input.xof then 0 else 8 * input.outputSize))
  {
    hide PrefixBlock, PadBytes, StringBytes, RightBytes, Encodable, ReadPadded, ReadRight;
    var prefix := PrefixBlock(KMAC_NAME, input.customization, rate);
    var key, tail := PadBytes(StringBytes(input.key), rate), RightBytes(input.Code());
    assert input.Bytes(rate) == prefix + (key + (input.message + tail));
    PrefixReads(KMAC_NAME, input.customization, rate, key + (input.message + tail));
    assert [input.key][1..] == [];
    assert Strings([input.key]) == StringBytes(input.key) + [] == StringBytes(input.key);
    PadBytesReads([input.key], rate, input.message + tail);
    RightEncodeReads(input.Code(), input.message);
  }

  lemma KmacDetermines(a: KmacInput, b: KmacInput, rate: nat)
    requires a.Valid(rate) && b.Valid(rate) && a.Bytes(rate) == b.Bytes(rate)
    ensures a.customization == b.customization && a.key == b.key && a.message == b.message
    ensures a.Code() == b.Code() && a.xof == b.xof
  {
    hide ReadKmac, Encodable, Named;
    KmacReads(a, rate);
    KmacReads(b, rate);
    assert [KMAC_NAME, a.customization][1] == [KMAC_NAME, b.customization][1];
    assert [a.key][0] == [b.key][0];
  }

  // The two functions never absorb the same bytes at one rate.
  lemma NamesSeparate(a: TupleInput, b: KmacInput, rate: nat)
    requires a.Valid(rate) && b.Valid(rate)
    ensures a.Bytes(rate) != b.Bytes(rate)
  {
    hide ReadPadded, ReadRight, ReadAll, Encodable, AllEncodable, Named;
    TupleHashReads(a, rate);
    KmacReads(b, rate);
    assert [TUPLE_HASH_NAME, a.customization][0] != [KMAC_NAME, b.customization][0];
  }

  // `_operand_message`: the key an operand between two constants. Where the
  // row path would have written the key in, the same bytes come out.
  method OperandMessage(input: KmacInput, rate: nat) returns (msg: Option<seq<byte>>)
    ensures msg.Some?
       <==> Named(KMAC_NAME, input.customization, rate) && Encodable(input.Code()) && Encodable(8 * |input.key|)
    ensures msg.Some? && input.outputSize >= 1 ==> msg.value == input.Bytes(rate)
  {
    hide PrefixBlock, RightBytes, LeftBytes, PadBytes, StringBytes, Encodable;
    var framed := DerivedFraming(KMAC_NAME, input.customization, rate, input.outputSize, input.xof);
    var split := BytepadEncodedSplit(|input.key|, rate);
    if framed.None? || split.None? {
      return None;
    }
    var parts := framed.value.0 + split.value.0 + input.key;
    if split.value.1 > 0 {
      parts := parts + Zeros(split.value.1);
    }
    SplitReassembles(input.key, rate);
    assert parts == framed.value.0 + (split.value.0 + input.key + Zeros(split.value.1));
    parts := parts + input.message + framed.value.1;
    return Some(parts);
  }
}
