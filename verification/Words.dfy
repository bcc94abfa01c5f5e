// Bytes and 32-bit words as bounded integers, the four packings of
// `word.py`, and the ceiling counts every schedule sizes itself with.
module Words {

  type byte = b: int | 0 <= b < 256
  type u32 = w: int | 0 <= w < 0x1_0000_0000

  datatype Option<+T> = None | Some(value: T)

  function Zeros(n: nat): (s: seq<byte>)
    ensures |s| == n
    ensures forall i :: 0 <= i < n ==> s[i] == 0
  {
    seq(n, _ => 0)
  }

  // Python's `-(-a // b)`: the ceiling of a / b.
  function CeilDiv(a: nat, b: nat): (q: nat)
    requires b > 0
  {
    (a + b - 1) / b
  }

  // `tree.units`: a ceiling whose floor is one.
  function Units(length: nat, size: nat): (n: nat)
    requires size > 0
  {
    if length == 0 then 1 else CeilDiv(length, size)
  }

  // Nonlinear helpers, each proved once.

  lemma DivModOf(q: nat, r: nat, d: nat)
    requires r < d
    ensures (q * d + r) / d == q && (q * d + r) % d == r
  {
    var n := q * d + r;
    var k := n / d;
    assert n == k * d + n % d && 0 <= n % d < d;
    if k < q {
      MulMono(k + 1, q, d);
    } else if k > q {
      MulMono(q + 1, k, d);
    }
  }

  lemma MulMono(a: nat, b: nat, d: nat)
    requires a <= b
    ensures a * d <= b * d
  {
  }

  lemma AddMultipleDiv(x: nat, q: nat, d: nat)
    requires d > 0
    ensures (q * d + x) / d == q + x / d && (q * d + x) % d == x % d
  {
    DivModOf(q + x / d, x % d, d);
    assert q * d + x == (q + x / d) * d + x % d;
  }

  lemma DivBounds(n: nat, d: nat)
    requires d > 0
    ensures n / d >= 0
    ensures 0 <= n / d * d <= n < (n / d + 1) * d
    ensures n - n / d * d == n % d
  {
    assert (n / d + 1) * d == n / d * d + d;
  }

  lemma DivMono(a: nat, b: nat, d: nat)
    requires a <= b && d > 0
    ensures a / d <= b / d
  {
    DivBounds(a, d);
    DivBounds(b, d);
    if b / d < a / d {
      MulMono(b / d + 1, a / d, d);
    }
  }

  // Row-major addressing: row b * k + i of a [B * k] batch.
  lemma RowIndex(b: nat, i: nat, k: nat, rows: nat)
    requires i < k && b < rows
    ensures b * k + i < rows * k
    ensures (b * k + i) / k == b && (b * k + i) % k == i
  {
    DivModOf(b, i, k);
    MulMono(b + 1, rows, k);
  }

  lemma UnitsBounds(length: nat, size: nat)
    requires size > 0
    ensures length <= Units(length, size) * size
    ensures length > 0 ==> (Units(length, size) - 1) * size < length
    ensures Units(length, size) >= 1 && (length == 0 ==> Units(length, size) == 1)
  {
    if length > 0 {
      var n := (length + size - 1) / size;
      assert n * size + (length + size - 1) % size == length + size - 1;
      assert (n - 1) * size == n * size - size;
    }
  }

  lemma CeilBounds(x: nat, d: nat)
    requires d > 0
    ensures x / d <= CeilDiv(x, d) <= x / d + 1
    ensures x <= CeilDiv(x, d) * d
  {
    DivMono(x, x + d - 1, d);
    DivMono(x + d - 1, x + d, d);
    AddMultipleDiv(x, 1, d);
    DivBounds(x + d - 1, d);
  }

  // The count is the only one whose last unit is neither empty nor overfull.
  lemma UnitsUnique(length: nat, size: nat, n: nat)
    requires size > 0 && n >= 1
    requires length <= n * size
    requires n == 1 || (n - 1) * size < length
    ensures Units(length, size) == n
  {
    UnitsBounds(length, size);
    var u := Units(length, size);
    if u < n {
      MulMono(u, n - 1, size);
    } else if n < u {
      MulMono(n, u - 1, size);
    }
  }

  // Powers of two, by recognition and by exponent.
  predicate IsPow2(n: nat)
  {
    n == 1 || (n > 1 && n % 2 == 0 && IsPow2(n / 2))
  }

  function Pow2(k: nat): (p: nat)
    ensures p >= 1
  {
    if k == 0 then 1 else 2 * Pow2(k - 1)
  }

  lemma Pow2Of32()
    ensures Pow2(32) == 0x1_0000_0000
  {
    assert Pow2(8) == 0x100;
    assert Pow2(16) == 0x1_0000;
    assert Pow2(24) == 0x100_0000;
  }

  // Python's `int.bit_length`
  function BitLength(n: nat): (k: nat)
  {
    if n == 0 then 0 else 1 + BitLength(n / 2)
  }

  lemma {:induction false} BitLengthBounds(n: nat)
    ensures n < Pow2(BitLength(n))
    ensures n == 0 ==> BitLength(n) == 0
    ensures n > 0 ==> BitLength(n) > 0 && Pow2(BitLength(n)) <= 2 * n
    ensures IsPow2(Pow2(BitLength(n)))
  {
    if n > 0 {
      hide Pow2, IsPow2, BitLength;
      BitLengthBounds(n / 2);
      BitLengthStep(n);
    }
  }

  lemma BitLengthStep(n: nat)
    requires n > 0
    ensures Pow2(BitLength(n)) == 2 * Pow2(BitLength(n / 2))
    ensures IsPow2(Pow2(BitLength(n / 2))) ==> IsPow2(Pow2(BitLength(n)))
    ensures n / 2 == 0 ==> Pow2(BitLength(n / 2)) == 1
  {
    hide Pow2, IsPow2;
    assert BitLength(n) == BitLength(n / 2) + 1;
    Pow2Step(BitLength(n / 2));
  }

  lemma Pow2Step(k: nat)
    ensures Pow2(k + 1) == 2 * Pow2(k) && Pow2(0) == 1
    ensures IsPow2(Pow2(k)) ==> IsPow2(Pow2(k + 1))
  {
    var p := Pow2(k);
    assert 2 * p / 2 == p;
  }

  // ------------------------------------------------------------------------
  // Base-256 digits, written and read either way

  function BytesLe(v: nat, n: nat): (b: seq<byte>)
    ensures |b| == n
  {
    if n == 0 then [] else [v % 256] + BytesLe(v / 256, n - 1)
  }

  function BytesBe(v: nat, n: nat): (b: seq<byte>)
    ensures |b| == n
  {
    if n == 0 then [] else BytesBe(v / 256, n - 1) + [v % 256]
  }

  function LeValue(b: seq<byte>): (v: nat)
  {
    if |b| == 0 then 0 else b[0] + 256 * LeValue(b[1..])
  }

  function BeValue(b: seq<byte>): (v: nat)
  {
    if |b| == 0 then 0 else 256 * BeValue(b[..|b| - 1]) + b[|b| - 1]
  }

  function Pow256(n: nat): (p: nat)
    ensures p >= 1
  {
    if n == 0 then 1 else 256 * Pow256(n - 1)
  }

  // n digits tell every value below 256^n.
  lemma {:induction false} DigitsTell(v: nat, n: nat)
    requires v < Pow256(n)
    ensures LeValue(BytesLe(v, n)) == v && BeValue(BytesBe(v, n)) == v
  {
    if n > 0 {
      DigitsTell(v / 256, n - 1);
      assert BytesLe(v, n)[1..] == BytesLe(v / 256, n - 1);
      assert BytesBe(v, n)[..n - 1] == BytesBe(v / 256, n - 1);
    }
  }

  // ------------------------------------------------------------------------
  // Packing

  // The word whose bytes, least significant first, are b0..b3.
  function WordOf(b0: byte, b1: byte, b2: byte, b3: byte): (w: u32)
  {
    var lo: int := b0 as int + 0x100 * (b1 as int);
    var hi: int := b2 as int + 0x100 * (b3 as int);
    lo + 0x1_0000 * hi
  }

  function PackLe(data: seq<byte>): (words: seq<u32>)
    requires |data| % 4 == 0
    ensures |words| == |data| / 4
  {
    seq(|data| / 4, i requires 0 <= i < |data| / 4 =>
      WordOf(data[4 * i], data[4 * i + 1], data[4 * i + 2], data[4 * i + 3]))
  }

  function PackBe(data: seq<byte>): (words: seq<u32>)
    requires |data| % 4 == 0
    ensures |words| == |data| / 4
  {
    seq(|data| / 4, i requires 0 <= i < |data| / 4 =>
      WordOf(data[4 * i + 3], data[4 * i + 2], data[4 * i + 1], data[4 * i]))
  }

  // Byte k of a word, k = 0 the least significant.
  function ByteOf(w: u32, k: nat): (b: byte)
    requires k < 4
  {
    if k == 0 then w % 0x100
    else if k == 1 then w / 0x100 % 0x100
    else if k == 2 then w / 0x1_0000 % 0x100
    else w / 0x100_0000
  }

  function UnpackLe(words: seq<u32>): (data: seq<byte>)
    ensures |data| == 4 * |words|
  {
    seq(4 * |words|, j requires 0 <= j < 4 * |words| => ByteOf(words[j / 4], j % 4))
  }

  function UnpackBe(words: seq<u32>): (data: seq<byte>)
    ensures |data| == 4 * |words|
  {
    seq(4 * |words|, j requires 0 <= j < 4 * |words| => ByteOf(words[j / 4], 3 - j % 4))
  }

  lemma WordOfBytes(w: u32)
    ensures WordOf(ByteOf(w, 0), ByteOf(w, 1), ByteOf(w, 2), ByteOf(w, 3)) == w
  {
    var lo: int := w as int % 0x1_0000;
    var hi: int := w as int / 0x1_0000;
    assert ByteOf(w, 0) as int == lo % 0x100 && ByteOf(w, 1) as int == lo / 0x100;
    assert ByteOf(w, 2) as int == hi % 0x100 && ByteOf(w, 3) as int == hi / 0x100;
  }

  lemma UnpackedAt(words: seq<u32>, i: nat, k: nat)
    requires i < |words| && k < 4
    ensures UnpackLe(words)[4 * i + k] == ByteOf(words[i], k)
    ensures UnpackBe(words)[4 * i + k] == ByteOf(words[i], 3 - k)
  {
    hide ByteOf;
    assert (4 * i + k) / 4 == i && (4 * i + k) % 4 == k;
  }

  lemma UnpackedWord(words: seq<u32>, i: nat)
    requires i < |words|
    ensures var le, be := UnpackLe(words), UnpackBe(words);
            && WordOf(le[4 * i], le[4 * i + 1], le[4 * i + 2], le[4 * i + 3]) == words[i]
            && WordOf(be[4 * i + 3], be[4 * i + 2], be[4 * i + 1], be[4 * i]) == words[i]
  {
    hide ByteOf, WordOf, UnpackLe, UnpackBe;
    UnpackedAt(words, i, 0);
    UnpackedAt(words, i, 1);
    UnpackedAt(words, i, 2);
    UnpackedAt(words, i, 3);
    WordOfBytes(words[i]);
  }

  // A digest is the serialized midstate: reading it back resumes the stream.
  lemma PackBeUnpackBe(words: seq<u32>)
    ensures PackBe(UnpackBe(words)) == words
  {
    hide WordOf, UnpackBe;
    var back := PackBe(UnpackBe(words));
    forall i | 0 <= i < |words|
      ensures back[i] == words[i]
    {
      UnpackedWord(words, i);
    }
  }

  // Each packed word is the value of its four bytes, each unpacked word its
  // four digits, in its byte order.
  lemma PacksTell(data: seq<byte>, i: nat)
    requires |data| % 4 == 0 && i < |data| / 4
    ensures PackLe(data)[i] == LeValue(data[4 * i..4 * i + 4])
    ensures PackBe(data)[i] == BeValue(data[4 * i..4 * i + 4])
    ensures var b0: int, b1: int, b2: int, b3: int := data[4 * i], data[4 * i + 1], data[4 * i + 2], data[4 * i + 3];
            && PackLe(data)[i] == b0 + 0x100 * b1 + 0x1_0000 * b2 + 0x100_0000 * b3
            && PackBe(data)[i] == 0x100_0000 * b0 + 0x1_0000 * b1 + 0x100 * b2 + b3
  {
    var b := data[4 * i..4 * i + 4];
    LeValueOf4(b);
    BeValueOf4(b);
  }

  // Packed little-endian and unpacked, bytes come back.
  lemma UnpackLePackLe(data: seq<byte>)
    requires |data| % 4 == 0
    ensures UnpackLe(PackLe(data)) == data
  {
    hide WordOf, ByteOf;
    var words, back := PackLe(data), UnpackLe(PackLe(data));
    forall j | 0 <= j < |data|
      ensures back[j] == data[j]
    {
      var i := j / 4;
      BytesOfWord(data[4 * i], data[4 * i + 1], data[4 * i + 2], data[4 * i + 3]);
    }
  }

  lemma PackLeUnpackLe(words: seq<u32>)
    ensures PackLe(UnpackLe(words)) == words
  {
    hide WordOf, UnpackLe;
    var back := PackLe(UnpackLe(words));
    forall i | 0 <= i < |words|
      ensures back[i] == words[i]
    {
      UnpackedWord(words, i);
    }
  }

  lemma BytesOfWord(b0: byte, b1: byte, b2: byte, b3: byte)
    ensures var w := WordOf(b0, b1, b2, b3);
            ByteOf(w, 0) == b0 && ByteOf(w, 1) == b1 && ByteOf(w, 2) == b2 && ByteOf(w, 3) == b3
  {
    var lo: int, hi: int := b0 + 0x100 * (b1 as int), b2 + 0x100 * (b3 as int);
    var w: int := WordOf(b0, b1, b2, b3);
    assert w == lo + 0x1_0000 * hi;
    assert w % 0x100 == b0 && w / 0x100 == b1 + 0x100 * hi;
    assert w / 0x1_0000 == hi && w / 0x100_0000 == b3;
  }

  lemma LeValueOf4(b: seq<byte>)
    requires |b| == 4
    ensures LeValue(b) == WordOf(b[0], b[1], b[2], b[3])
  {
    assert LeValue(b[1..]) == b[1] + 256 * LeValue(b[2..]) by { assert b[1..][1..] == b[2..]; }
    assert LeValue(b[2..]) == b[2] + 256 * LeValue(b[3..]) by { assert b[2..][1..] == b[3..]; }
    assert LeValue(b[3..]) == b[3];
  }

  lemma BeValueOf4(b: seq<byte>)
    requires |b| == 4
    ensures BeValue(b) == WordOf(b[3], b[2], b[1], b[0])
  {
    assert BeValue(b[..3]) == 256 * BeValue(b[..2]) + b[2] by { assert b[..3][..2] == b[..2]; }
    assert BeValue(b[..2]) == 256 * BeValue(b[..1]) + b[1] by { assert b[..2][..1] == b[..1]; }
    assert BeValue(b[..1]) == b[0];
  }

  lemma UnpacksTell(words: seq<u32>, i: nat)
    requires i < |words|
    ensures LeValue(UnpackLe(words)[4 * i..4 * i + 4]) == words[i]
    ensures BeValue(UnpackBe(words)[4 * i..4 * i + 4]) == words[i]
  {
    hide WordOf, UnpackLe, UnpackBe;
    LeValueOf4(UnpackLe(words)[4 * i..4 * i + 4]);
    BeValueOf4(UnpackBe(words)[4 * i..4 * i + 4]);
    UnpackedWord(words, i);
  }

  // Eight bytes are the low four and the high four.
  lemma LeHalves(b: seq<byte>)
    requires |b| == 8
    ensures LeValue(b) == LeValue(b[..4]) + 0x1_0000_0000 * LeValue(b[4..])
  {
    hide WordOf;
    var b1, b2, b3 := b[1..], b[2..], b[3..];
    assert LeValue(b) == b[0] + 0x100 * LeValue(b1);
    assert LeValue(b1) == b[1] + 0x100 * LeValue(b2) by { assert b1[1..] == b2; }
    assert LeValue(b2) == b[2] + 0x100 * LeValue(b3) by { assert b2[1..] == b3; }
    assert LeValue(b3) == b[3] + 0x100 * LeValue(b[4..]) by { assert b3[1..] == b[4..]; }
    var c := b[..4];
    assert LeValue(c[1..]) == b[1] + 0x100 * LeValue(c[2..]) by { assert c[1..][1..] == c[2..]; }
    assert LeValue(c[2..]) == b[2] + 0x100 * LeValue(c[3..]) by { assert c[2..][1..] == c[3..]; }
    assert LeValue(c[3..]) == b[3];
  }
}
