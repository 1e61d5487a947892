/** What the operators and functions of the contract language compute, in terms of whole numbers,
    bits and bytes. */
module Meanings {
  import opened Options
  import opened Arithmetic
  import opened Machine
  import opened Codegen

  // ----- the number format

  /** Bytes are digits to the base 256, the lowest first. */
  lemma {:induction false} LittleEndian(v: Bytes, w: Bytes)
    ensures FromBytes(v + w) == FromBytes(v) + Power256(|v|) * FromBytes(w)
    decreases |v|
  {
    if v == [] {
      assert v + w == w;
    } else {
      assert (v + w)[1..] == v[1..] + w;
      LittleEndian(v[1..], w);
      assert 256 * (Power256(|v| - 1) * FromBytes(w)) == Power256(|v|) * FromBytes(w);
    }
  }

  /** Up to eight bytes are a number: as they stand, or less by two to the power 64 when the
      result would not be below two to the power 63. */
  lemma {:induction false} NumberFormat(v: Value)
    ensures AsInt64(v).Some? <==> |v.bytes| <= 8
    ensures AsInt64(v).Some? ==>
              && -0x8000_0000_0000_0000 <= AsInt64(v).value < 0x8000_0000_0000_0000
              && (AsInt64(v).value == FromBytes(v.bytes) || AsInt64(v).value == FromBytes(v.bytes) - 0x1_0000_0000_0000_0000)
  {
    if AsInt64(v).Some? {
      DecodedFits(v);
    }
  }

  /** A number is written without superfluous bytes, so zero is the empty string. */
  lemma {:induction false} ShortestBytes(n: nat)
    ensures ToBytes(n) == [] <==> n == 0
    ensures n > 0 ==> ToBytes(n)[|ToBytes(n)| - 1] != 0
  {
    if n >= 256 {
      ShortestBytes(n / 256);
    }
  }

  // ----- tests and sums

  /** A test gives the truth of the comparison, left operand first, or fails when an operand is
      not a number. */
  lemma {:induction false} TestsMean(ctx: Context, x: Value, y: Value)
    requires Standard(ctx)
    ensures ctx.decode(x).Some? && ctx.decode(y).Some? ==>
              var a, b := ctx.decode(x).value, ctx.decode(y).value;
              && BinaryMeaning(ctx, Greater, x, y) == Some(BoolBytes(a > b))
              && BinaryMeaning(ctx, Less, x, y) == Some(BoolBytes(a < b))
              && BinaryMeaning(ctx, GreaterEq, x, y) == Some(BoolBytes(a >= b))
              && BinaryMeaning(ctx, LessEq, x, y) == Some(BoolBytes(a <= b))
    ensures ctx.decode(x).None? || ctx.decode(y).None? ==>
              forall op :: op in {Greater, Less, GreaterEq, LessEq} ==> BinaryMeaning(ctx, op, x, y).None?
  {
  }

  /** The code of a test leaves the truth of the comparison. */
  lemma {:induction false} TestsRun(ctx: Context, op: BinaryOp, x: Value, y: Value, a: int, b: int, s: Stack)
    requires Standard(ctx) && ctx.decode(x) == Some(a) && ctx.decode(y) == Some(b)
    requires op in {Greater, Less, GreaterEq, LessEq}
    ensures Run(ctx, BinaryCode(op), [y, x] + s) ==
              Done([BoolBytes(if op.Greater? then a > b else if op.Less? then a < b else if op.GreaterEq? then a >= b else a <= b)] + s)
  {
    TestsMean(ctx, x, y);
    BinaryCodeRight(ctx, op, x, y, s);
  }

  lemma {:induction false} HeightMeans(ctx: Context, x: Value, h: Value, n: int, height: int)
    requires Standard(ctx) && ctx.call("BLOCKHEIGHT", []) == Some(h)
    requires ctx.decode(x) == Some(n) && ctx.decode(h) == Some(height)
    ensures BuiltinMeaning(ctx, Below, [x]) == Some(BoolBytes(height < n))
    ensures BuiltinMeaning(ctx, Above, [x]) == Some(BoolBytes(height > n))
  {
  }

  /** The chain is below a height that is greater than the block height, and above a smaller one. */
  lemma {:induction false} HeightRuns(ctx: Context, x: Value, h: Value, n: int, height: int, s: Stack)
    requires Standard(ctx) && ctx.call("BLOCKHEIGHT", []) == Some(h)
    requires ctx.decode(x) == Some(n) && ctx.decode(h) == Some(height)
    ensures Run(ctx, BuiltinCode(Below), [x] + s) == Done([BoolBytes(height < n)] + s)
    ensures Run(ctx, BuiltinCode(Above), [x] + s) == Done([BoolBytes(height > n)] + s)
  {
    HeightRight(ctx, false, x, s);
    HeightRight(ctx, true, x, s);
  }

  /** The result is the number `n` when `ok`, and there is none otherwise. */
  ghost predicate Computes(ctx: Context, r: Option<Value>, ok: bool, n: int) {
    if ok then r == Some(ctx.encode(n)) && ctx.decode(ctx.encode(n)) == Some(n) else r.None?
  }

  ghost predicate In64(n: int) {
    -0x8000_0000_0000_0000 <= n < 0x8000_0000_0000_0000
  }

  /** Sums, differences and products are those of the numbers, and fail when they need more than
      64 bits. */
  lemma {:induction false} SumsMean(ctx: Context, x: Value, y: Value, a: int, b: int)
    requires Standard(ctx) && ctx.decode(x) == Some(a) && ctx.decode(y) == Some(b)
    ensures Computes(ctx, BinaryMeaning(ctx, Plus, x, y), In64(a + b), a + b)
    ensures Computes(ctx, BinaryMeaning(ctx, Minus, x, y), In64(a - b), a - b)
    ensures Computes(ctx, BinaryMeaning(ctx, Times, x, y), In64(a * b), a * b)
  {
    RoundTripIn64(ctx, a + b);
    RoundTripIn64(ctx, a - b);
    RoundTripIn64(ctx, a * b);
  }

  lemma {:induction false} RoundTripIn64(ctx: Context, n: int)
    requires Standard(ctx)
    ensures In64(n) ==> ctx.decode(ctx.encode(n)) == Some(n)
  {
    if In64(n) {
      NumberRoundTrip(ctx, n);
    }
  }

  /** The smaller, the larger, the opposite and the absolute value. */
  lemma {:induction false} ExtremesMean(ctx: Context, x: Value, y: Value, a: int, b: int)
    requires Standard(ctx) && ctx.decode(x) == Some(a) && ctx.decode(y) == Some(b)
    ensures Computes(ctx, BuiltinMeaning(ctx, MinOf, [x, y]), true, if a < b then a else b)
    ensures Computes(ctx, BuiltinMeaning(ctx, MaxOf, [x, y]), true, if a > b then a else b)
    ensures Computes(ctx, UnaryMeaning(ctx, Negate, x), a != -0x8000_0000_0000_0000, 0 - a)
    ensures Computes(ctx, BuiltinMeaning(ctx, AbsOf, [x]), a != -0x8000_0000_0000_0000, if a > 0 then a else 0 - a)
    ensures UnaryMeaning(ctx, LogicalNot, x) == Some(BoolBytes(a == 0))
  {
    DecodedFits(x);
    DecodedFits(y);
    RoundTripIn64(ctx, a);
    RoundTripIn64(ctx, b);
    RoundTripIn64(ctx, 0 - a);
  }

  lemma {:induction false} QuotientMeans(a: int, b: int, left: int)
    requires b != 0 && left == a - Quotient(a, b) * b
    ensures -Abs(b) < left < Abs(b) && (left > 0 ==> a > 0) && (left < 0 ==> a < 0)
  {
    RemainderSize(a, b);
  }

  lemma {:induction false} QuotientOverflows(a: int, b: int)
    requires Fits(a) && Fits(b) && b != 0
    ensures Fits(Quotient(a, b)) <==> !(a == -TWO63 && b == -1)
  {
    DivExact(a, b);
  }

  /** Division drops the fraction: what is left over is smaller than the divisor and has the sign
      of the dividend. */
  lemma {:induction false} DivideMeans(ctx: Context, x: Value, y: Value, a: int, b: int)
    requires Standard(ctx) && ctx.decode(x) == Some(a) && ctx.decode(y) == Some(b)
    ensures BinaryMeaning(ctx, Divide, x, y).Some? <==> b != 0 && !(a == -0x8000_0000_0000_0000 && b == -1)
    ensures BinaryMeaning(ctx, Divide, x, y).Some? ==>
              var q := ctx.decode(BinaryMeaning(ctx, Divide, x, y).value);
              && q.Some? && -Abs(b) < a - q.value * b < Abs(b)
              && (a - q.value * b > 0 ==> a > 0) && (a - q.value * b < 0 ==> a < 0)
  {
    DecodedFits(x);
    DecodedFits(y);
    if b != 0 {
      var q := Quotient(a, b);
      DivExact(a, b);
      QuotientMeans(a, b, a - q * b);
      RoundTripIn64(ctx, q);
      QuotientOverflows(a, b);
    }
  }

  /** The remainder is smaller than the divisor, has its sign, and differs from the dividend by a
      multiple of it. */
  lemma {:induction false} ModuloMeans(ctx: Context, x: Value, y: Value, a: int, b: int)
    requires Standard(ctx) && ctx.decode(x) == Some(a) && ctx.decode(y) == Some(b)
    ensures BinaryMeaning(ctx, Modulo, x, y).Some? <==> b != 0 && !(a == -0x8000_0000_0000_0000 && b == -1)
    ensures BinaryMeaning(ctx, Modulo, x, y).Some? ==>
              var m := ctx.decode(BinaryMeaning(ctx, Modulo, x, y).value);
              && m.Some? && (if b > 0 then 0 <= m.value < b else b < m.value <= 0)
              && exists k :: a - m.value == k * b
  {
    DecodedFits(x);
    DecodedFits(y);
    if b != 0 {
      FloorModSize(a, b);
      RoundTripIn64(ctx, FloorMod(a, b));
      var k := FloorModCongruent(a, b);
    }
  }

  lemma {:induction false} FloorModCongruent(a: int, b: int) returns (k: int)
    requires b != 0
    ensures a - FloorMod(a, b) == k * b
  {
    var q := Quotient(a, b);
    assert (q - 1) * b == q * b - b;
    k := if FloorMod(a, b) == Remainder(a, b) then q else q - 1;
  }

  /** Shifts multiply by a power of two and divide by it, downwards; a negative distance fails. */
  lemma {:induction false} ShiftsMean(ctx: Context, x: Value, y: Value, a: int, b: int)
    requires Standard(ctx) && ctx.decode(x) == Some(a) && ctx.decode(y) == Some(b)
    ensures b < 0 ==> BinaryMeaning(ctx, ShiftLeft, x, y).None? && BinaryMeaning(ctx, ShiftRight, x, y).None?
    ensures b >= 0 ==> Computes(ctx, BinaryMeaning(ctx, ShiftLeft, x, y), In64(a * Power2(b)), a * Power2(b))
    ensures b >= 0 ==> exists n :: && Computes(ctx, BinaryMeaning(ctx, ShiftRight, x, y), true, n)
                                   && n * Power2(b) <= a < n * Power2(b) + Power2(b)
  {
    if b >= 0 {
      var n := a / Power2(b);
      DecodedFits(x);
      RoundTripIn64(ctx, a * Power2(b));
      ShiftFits(a, Power2(b));
      RoundTripIn64(ctx, n);
      assert Computes(ctx, BinaryMeaning(ctx, ShiftRight, x, y), true, n);
    }
  }

  lemma {:induction false} ShiftFits(a: int, p: int)
    requires Fits(a) && p > 0
    ensures Fits(a / p) && a / p * p <= a < a / p * p + p
  {
    var q, r := a / p, a % p;
    assert a == q * p + r;
    if q >= 0 {
      Monotone(1, p, q);
    } else {
      Monotone(1, p, -q);
      assert p * -q == -(q * p);
    }
  }

  // ----- truth

  /** The connectives go by whether the operands are zero. */
  lemma {:induction false} ConnectivesMean(ctx: Context, x: Value, y: Value)
    ensures BinaryMeaning(ctx, LogicalOr, x, y) == Some(BoolBytes(FromBytes(x.bytes) != 0 || FromBytes(y.bytes) != 0))
    ensures BinaryMeaning(ctx, LogicalAnd, x, y) == Some(BoolBytes(FromBytes(x.bytes) != 0 && FromBytes(y.bytes) != 0))
    ensures AsBool(BoolBytes(true)) && !AsBool(BoolBytes(false))
  {
    TrueIsNonZero(x.bytes);
    TrueIsNonZero(y.bytes);
    assert BoolBytes(true).bytes[0] != 0;
  }

  // ----- bits and bytes

  predicate Bit(n: nat, j: nat) {
    n / Power2(j) % 2 == 1
  }

  /** The byte at place `i`, zero past the end. */
  function ByteAt(v: Bytes, i: nat): (b: Byte) {
    if i < |v| then v[i] else 0
  }

  lemma {:induction false} HalfBit(n: nat, j: nat)
    requires j > 0
    ensures Bit(n, j) <==> Bit(n / 2, j - 1)
  {
    ShiftDownIs(n, j);
    ShiftDownIs(n / 2, j - 1);
  }

  lemma {:induction false} LowestBit(n: nat)
    ensures Bit(n, 0) <==> n % 2 == 1
  {
    assert Power2(0) == 1;
  }

  lemma {:induction false} ByBitsParts(f: (bool, bool) -> bool, a: nat, b: nat, n: nat)
    requires n > 0
    ensures var r := ByBits(f, a, b, n);
            (r % 2 == 1 <==> f(a % 2 == 1, b % 2 == 1)) && r / 2 == ByBits(f, a / 2, b / 2, n - 1)
  {
  }

  lemma {:induction false} ByBitsAt(f: (bool, bool) -> bool, a: nat, b: nat, n: nat, j: nat)
    requires j < n
    ensures Bit(ByBits(f, a, b, n), j) <==> f(Bit(a, j), Bit(b, j))
    decreases n
  {
    var r := ByBits(f, a, b, n);
    ByBitsParts(f, a, b, n);
    if j == 0 {
      LowestBit(r);
      LowestBit(a);
      LowestBit(b);
    } else {
      ByBitsAt(f, a / 2, b / 2, n - 1, j - 1);
      HalfBit(r, j);
      HalfBit(a, j);
      HalfBit(b, j);
    }
  }

  lemma {:induction false} InvertAt(v: Bytes, i: nat)
    requires i < |v|
    ensures |InvertBytes(v)| == |v| && InvertBytes(v)[i] == 255 - v[i]
  {
    if |v| > 1 {
      InvertAt(v[1..], if i > 0 then i - 1 else 0);
    }
  }

  lemma {:induction false} CommonAt(f: (bool, bool) -> bool, v: Bytes, w: Bytes, i: nat)
    ensures |CommonBytes(f, v, w)| == if |v| <= |w| then |v| else |w|
    ensures i < |v| && i < |w| ==> CommonBytes(f, v, w)[i] == CombineByte(f, v[i], w[i])
    decreases |v|
  {
    if v != [] && w != [] {
      CommonAt(f, v[1..], w[1..], if i > 0 then i - 1 else 0);
    }
  }

  lemma {:induction false} AllAt(f: (bool, bool) -> bool, v: Bytes, w: Bytes, i: nat)
    ensures |AllBytes(f, v, w)| == if |v| <= |w| then |w| else |v|
    ensures i < |v| || i < |w| ==> AllBytes(f, v, w)[i] == CombineByte(f, ByteAt(v, i), ByteAt(w, i))
    decreases |v| + |w|
  {
    if v != [] || w != [] {
      var v1, w1 := if v == [] then [] else v[1..], if w == [] then [] else w[1..];
      AllAt(f, v1, w1, if i > 0 then i - 1 else 0);
      if i > 0 {
        assert ByteAt(v1, i - 1) == ByteAt(v, i) && ByteAt(w1, i - 1) == ByteAt(w, i);
      }
    }
  }

  /** `&` works on each bit of each byte and stops at the end of the shorter string. */
  lemma {:induction false} AndMeans(ctx: Context, x: Value, y: Value, i: nat, j: nat)
    requires j < 8
    ensures var r := BinaryMeaning(ctx, BitAnd, x, y).value.bytes;
            && |r| == (if |x.bytes| <= |y.bytes| then |x.bytes| else |y.bytes|)
            && (i < |r| ==> (Bit(r[i], j) <==> Bit(x.bytes[i], j) && Bit(y.bytes[i], j)))
  {
    var both := (a, b) => a && b;
    CommonAt(both, x.bytes, y.bytes, i);
    ByBitsAt(both, ByteAt(x.bytes, i), ByteAt(y.bytes, i), 8, j);
  }

  lemma {:induction false} AllBitAt(f: (bool, bool) -> bool, v: Bytes, w: Bytes, i: nat, j: nat)
    requires j < 8
    ensures var r := AllBytes(f, v, w);
            && |r| == (if |v| <= |w| then |w| else |v|)
            && (i < |r| ==> (Bit(r[i], j) <==> f(Bit(ByteAt(v, i), j), Bit(ByteAt(w, i), j))))
  {
    AllAt(f, v, w, i);
    ByBitsAt(f, ByteAt(v, i), ByteAt(w, i), 8, j);
  }

  /** `|` and `^` work on each bit of each byte, as if the shorter string was followed by zeros. */
  lemma {:induction false} OrMeans(ctx: Context, x: Value, y: Value, i: nat, j: nat)
    requires j < 8
    ensures var r := BinaryMeaning(ctx, BitOr, x, y).value.bytes;
            && |r| == (if |x.bytes| <= |y.bytes| then |y.bytes| else |x.bytes|)
            && (i < |r| ==> (Bit(r[i], j) <==> Bit(ByteAt(x.bytes, i), j) || Bit(ByteAt(y.bytes, i), j)))
    ensures var r := BinaryMeaning(ctx, BitXor, x, y).value.bytes;
            && |r| == (if |x.bytes| <= |y.bytes| then |y.bytes| else |x.bytes|)
            && (i < |r| ==> (Bit(r[i], j) <==> Bit(ByteAt(x.bytes, i), j) != Bit(ByteAt(y.bytes, i), j)))
  {
    AllBitAt((a, b) => a || b, x.bytes, y.bytes, i, j);
    AllBitAt((a, b) => a != b, x.bytes, y.bytes, i, j);
  }

  /** `~` turns every byte round. */
  lemma {:induction false} InvertMeans(ctx: Context, x: Value, i: nat)
    requires i < |x.bytes|
    ensures UnaryMeaning(ctx, Invert, x).Some?
    ensures var r := UnaryMeaning(ctx, Invert, x).value.bytes; |r| == |x.bytes| && r[i] == 255 - x.bytes[i]
  {
    InvertAt(x.bytes, i);
  }

  lemma {:induction false} LengthBytesRight(n: nat, k: nat)
    requires n < Power256(k)
    ensures |LengthBytes(n, k)| == k && FromBytes(LengthBytes(n, k)) == n
    decreases k
  {
    if k > 0 {
      LengthBytesRight(n / 256, k - 1);
      assert LengthBytes(n, k)[1..] == LengthBytes(n / 256, k - 1);
    }
  }

  /** A length in four bytes is taken modulo two to the power 32. */
  lemma {:induction false} FourLengthBytes(n: nat)
    ensures |LengthBytes(n, 4)| == 4 && FromBytes(LengthBytes(n, 4)) == n % 0x1_0000_0000
  {
    var m := n % 0x1_0000_0000;
    assert Power256(4) == 0x1_0000_0000;
    LengthBytesRight(m, 4);
    SameDigits(n / 0x1_0000_0000, m, n);
    SameLengthBytes(n, m);
  }

  lemma {:induction false} SameDigits(q: nat, m: nat, n: nat)
    requires n == q * 0x1_0000_0000 + m
    ensures n % 256 == m % 256 && n / 256 % 256 == m / 256 % 256
    ensures n / 0x1_0000 % 256 == m / 0x1_0000 % 256 && n / 0x100_0000 % 256 == m / 0x100_0000 % 256
  {
    SecondDigit(q, m, n);
    ThirdDigit(q, m, n);
    FourthDigit(q, m, n);
  }

  lemma {:induction false} SecondDigit(q: nat, m: nat, n: nat)
    requires n == q * 0x1_0000_0000 + m
    ensures n / 256 % 256 == m / 256 % 256
  {
    assert n / 256 == q * 0x100_0000 + m / 256;
  }

  lemma {:induction false} ThirdDigit(q: nat, m: nat, n: nat)
    requires n == q * 0x1_0000_0000 + m
    ensures n / 0x1_0000 % 256 == m / 0x1_0000 % 256
  {
    assert n / 0x1_0000 == q * 0x1_0000 + m / 0x1_0000;
  }

  lemma {:induction false} FourthDigit(q: nat, m: nat, n: nat)
    requires n == q * 0x1_0000_0000 + m
    ensures n / 0x100_0000 % 256 == m / 0x100_0000 % 256
  {
    assert n / 0x100_0000 == q * 0x100 + m / 0x100_0000;
  }

  lemma {:induction false} SameLengthBytes(n: nat, m: nat)
    requires n % 256 == m % 256 && n / 256 % 256 == m / 256 % 256
    requires n / 0x1_0000 % 256 == m / 0x1_0000 % 256 && n / 0x100_0000 % 256 == m / 0x100_0000 % 256
    ensures LengthBytes(n, 4) == LengthBytes(m, 4)
  {
    LengthBytesAre(n);
    LengthBytesAre(m);
  }

  lemma {:induction false} LengthBytesAre(n: nat)
    ensures LengthBytes(n, 4) == [n % 256, n / 256 % 256, n / 0x1_0000 % 256, n / 0x100_0000 % 256]
  {
    var a := n / 256;
    var b := a / 256;
    var c := b / 256;
    assert b == n / 0x1_0000 && c == n / 0x100_0000;
    assert LengthBytes(c, 1) == [c % 256] + LengthBytes(c / 256, 0);
    assert LengthBytes(b, 2) == [b % 256] + LengthBytes(c, 1);
    assert LengthBytes(a, 3) == [a % 256] + LengthBytes(b, 2);
    assert LengthBytes(n, 4) == [n % 256] + LengthBytes(a, 3);
  }

  /** An instruction that pushes a byte string says its length and then holds the string: in the
      opcode up to 75 bytes, else in one, two or four bytes after the opcode. Four bytes are enough
      for less than two to the power 32. */
  lemma {:induction false} PushdataReads(v: Bytes)
    ensures var r := Pushdata(v);
            if |v| <= 75 then |r| == |v| + 1 && r[0] == |v| && r[1..] == v
            else if |v| < 0x100 then |r| == |v| + 2 && r[0] == 0x4c && FromBytes(r[1..2]) == |v| && r[2..] == v
            else if |v| < 0x1_0000 then |r| == |v| + 3 && r[0] == 0x4d && FromBytes(r[1..3]) == |v| && r[3..] == v
            else |r| == |v| + 5 && r[0] == 0x4e && FromBytes(r[1..5]) == |v| % 0x1_0000_0000 && r[5..] == v
  {
    var r := Pushdata(v);
    if 75 < |v| < 0x100 {
      assert r[1..2] == [|v|] && [|v|][1..] == [];
    } else if 0x100 <= |v| < 0x1_0000 {
      assert Power256(2) == 0x1_0000;
      LengthBytesRight(|v|, 2);
      assert r[1..3] == LengthBytes(|v|, 2);
    } else if 0x1_0000 <= |v| {
      FourLengthBytes(|v|);
      assert r[1..5] == LengthBytes(|v|, 4);
    }
  }

  /** Joining puts the second argument first, because the first one is on top of the stack. */
  lemma {:induction false} ConcatMeans(ctx: Context, x: Value, y: Value)
    ensures var r := BuiltinMeaning(ctx, Concat, [x, y]).value.bytes;
            |r| == |x.bytes| + |y.bytes| && r[..|y.bytes|] == y.bytes && r[|y.bytes|..] == x.bytes
    ensures var r := BuiltinMeaning(ctx, ConcatPush, [x, y]).value.bytes;
            |y.bytes| <= |r| && r[..|y.bytes|] == y.bytes && r[|y.bytes|..] == Pushdata(x.bytes)
  {
  }
}
