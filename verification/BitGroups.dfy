/** Regrouping bits: bytes that carry `from` bits each into bytes that carry `to` bits each. */
module BitGroups {
  import opened Options

  type Bits = seq<bool>

  // ----- bytes

  /** What the conversion does with a byte. `bit(b, i)` is bit `i` counted from the top, and
      `push(b, x)` shifts the bit `x` in from below. */
  datatype ByteOps<!B> = ByteOps(
    zero: B, shl: (B, nat) -> B, shr: (B, nat) -> B, or: (B, B) -> B,
    push: (B, bool) -> B, bit: (B, nat) -> bool)

  ghost predicate BitLaw<B(!new)>(o: ByteOps<B>, a: B, b: B, e: nat, i: nat, x: bool) {
    i < 8 && e <= 8 ==>
      && !o.bit(o.zero, i)
      && o.bit(o.shl(a, e), i) == (i + e < 8 && o.bit(a, i + e))
      && o.bit(o.shr(a, e), i) == (i >= e && o.bit(a, i - e))
      && o.bit(o.or(a, b), i) == (o.bit(a, i) || o.bit(b, i))
      && o.bit(o.push(a, x), i) == (if i == 7 then x else o.bit(a, i + 1))
  }

  ghost predicate SameBits<B(!new)>(o: ByteOps<B>, a: B, b: B) {
    forall i {:trigger o.bit(a, i)} :: 0 <= i < 8 ==> o.bit(a, i) == o.bit(b, i)
  }

  ghost predicate EqualLaw<B(!new)>(o: ByteOps<B>, a: B, b: B) {
    SameBits(o, a, b) ==> a == b
  }

  /** Bytes are their eight bits, and the operations do to them what they should. */
  ghost predicate Lawful<B(!new)>(o: ByteOps<B>) {
    && (forall a, b, e, i, x {:trigger BitLaw(o, a, b, e, i, x)} :: BitLaw(o, a, b, e, i, x))
    && (forall a, b {:trigger EqualLaw(o, a, b)} :: EqualLaw(o, a, b))
  }

  // ----- bits of bytes

  /** `k` bits of `b` from position `at` on. */
  function Slice<B>(o: ByteOps<B>, b: B, at: nat, k: nat): (s: Bits)
    ensures |s| == k
  {
    if k == 0 then [] else Slice(o, b, at, k - 1) + [o.bit(b, at + k - 1)]
  }

  lemma {:induction false} SliceAt<B>(o: ByteOps<B>, b: B, at: nat, k: nat, j: nat)
    requires j < k
    ensures Slice(o, b, at, k)[j] == o.bit(b, at + j)
    decreases k
  {
    if j < k - 1 {
      SliceAt(o, b, at, k - 1, j);
    }
  }

  /** The `k` lowest bits, top first. */
  function Low<B>(o: ByteOps<B>, b: B, k: nat): (s: Bits)
    requires k <= 8
    ensures |s| == k
  {
    Slice(o, b, 8 - k, k)
  }

  function ToByte<B>(o: ByteOps<B>, s: Bits): (b: B) {
    if s == [] then o.zero else o.push(ToByte(o, s[..|s| - 1]), s[|s| - 1])
  }

  lemma {:induction false} ToByteBit<B(!new)>(o: ByteOps<B>, s: Bits, i: nat)
    requires Lawful(o) && |s| <= 8 && i < 8
    ensures o.bit(ToByte(o, s), i) == (i + |s| >= 8 && s[i + |s| - 8])
    decreases |s|
  {
    if s == [] {
      assert BitLaw(o, o.zero, o.zero, 0, i, false);
    } else {
      var t, x := s[..|s| - 1], s[|s| - 1];
      assert BitLaw(o, ToByte(o, t), o.zero, 0, i, x);
      if i < 7 {
        ToByteBit(o, t, i + 1);
      }
    }
  }

  lemma {:induction false} ExtractBit<B(!new)>(o: ByteOps<B>, t: Bits, b: B, e: nat, i: nat)
    requires Lawful(o) && |t| + e <= 8 && i < 8
    ensures o.bit(o.or(o.shl(ToByte(o, t), e), o.shr(b, 8 - e)), i) ==
            (i + |t| + e >= 8 && if i + e < 8 then t[i + e + |t| - 8] else o.bit(b, i + e - 8))
  {
    var n := ToByte(o, t);
    assert BitLaw(o, o.shl(n, e), o.shr(b, 8 - e), 0, i, false);
    assert BitLaw(o, n, n, e, i, false);
    assert BitLaw(o, b, b, 8 - e, i, false);
    if i + e < 8 {
      ToByteBit(o, t, i + e);
    }
  }

  /** Shifting the `e` highest bits of `b` in from below appends them. */
  lemma {:induction false} Extract<B(!new)>(o: ByteOps<B>, t: Bits, b: B, e: nat)
    requires Lawful(o) && |t| + e <= 8
    ensures ToByte(o, t + Slice(o, b, 0, e)) == o.or(o.shl(ToByte(o, t), e), o.shr(b, 8 - e))
  {
    var s := t + Slice(o, b, 0, e);
    var r := o.or(o.shl(ToByte(o, t), e), o.shr(b, 8 - e));
    forall i | 0 <= i < 8 ensures o.bit(ToByte(o, s), i) == o.bit(r, i) {
      ToByteBit(o, s, i);
      ExtractBit(o, t, b, e, i);
      if i + e >= 8 {
        SliceAt(o, b, 0, e, i + e - 8);
      }
    }
    assert EqualLaw(o, ToByte(o, s), r);
  }

  /** Discarding the unused bits leaves the low ones on top. */
  lemma {:induction false} LowOnTop<B(!new)>(o: ByteOps<B>, b: B, k: nat)
    requires Lawful(o) && k <= 8
    ensures Slice(o, o.shl(b, 8 - k), 0, k) == Low(o, b, k)
  {
    forall j | 0 <= j < k ensures Slice(o, o.shl(b, 8 - k), 0, k)[j] == Low(o, b, k)[j] {
      SliceAt(o, o.shl(b, 8 - k), 0, k, j);
      SliceAt(o, b, 8 - k, k, j);
      assert BitLaw(o, b, b, 8 - k, j, false);
    }
  }

  lemma {:induction false} SliceShift<B(!new)>(o: ByteOps<B>, b: B, e: nat, r: nat)
    requires Lawful(o) && e + r <= 8
    ensures Slice(o, b, 0, e + r) == Slice(o, b, 0, e) + Slice(o, o.shl(b, e), 0, r)
  {
    var s, t := Slice(o, b, 0, e), Slice(o, o.shl(b, e), 0, r);
    forall j | 0 <= j < e + r ensures Slice(o, b, 0, e + r)[j] == (s + t)[j] {
      SliceAt(o, b, 0, e + r, j);
      if j < e {
        SliceAt(o, b, 0, e, j);
      } else {
        SliceAt(o, o.shl(b, e), 0, r, j - e);
        assert BitLaw(o, b, b, e, j - e, false);
      }
    }
  }

  lemma {:induction false} LowOfByte<B(!new)>(o: ByteOps<B>, s: Bits)
    requires Lawful(o) && |s| <= 8
    ensures Low(o, ToByte(o, s), |s|) == s
  {
    var b := ToByte(o, s);
    var low := Low(o, b, |s|);
    forall j | 0 <= j < |s| ensures low[j] == s[j] {
      ToByteBit(o, s, 8 - |s| + j);
      SliceAt(o, b, 8 - |s|, |s|, j);
    }
  }

  /** The byte carries no more than `k` bits. */
  ghost predicate Fits<B>(o: ByteOps<B>, b: B, k: nat)
    requires k <= 8
  {
    ToByte(o, Low(o, b, k)) == b
  }

  lemma {:induction false} ByteFits<B(!new)>(o: ByteOps<B>, s: Bits)
    requires Lawful(o) && |s| <= 8
    ensures Fits(o, ToByte(o, s), |s|)
  {
    LowOfByte(o, s);
  }

  lemma {:induction false} AllFit<B(!new)>(o: ByteOps<B>, b: B)
    requires Lawful(o)
    ensures Fits(o, b, 8)
  {
    forall i | 0 <= i < 8 ensures o.bit(ToByte(o, Low(o, b, 8)), i) == o.bit(b, i) {
      ToByteBit(o, Low(o, b, 8), i);
      SliceAt(o, b, 0, 8, i);
    }
    assert EqualLaw(o, ToByte(o, Low(o, b, 8)), b);
  }

  lemma {:induction false} ZeroByte<B(!new)>(o: ByteOps<B>, s: Bits)
    requires Lawful(o) && |s| <= 8
    ensures ToByte(o, s) == o.zero <==> true !in s
  {
    if ToByte(o, s) == o.zero {
      forall j | 0 <= j < |s| ensures !s[j] {
        ToByteBit(o, s, 8 - |s| + j);
        assert BitLaw(o, o.zero, o.zero, 0, 8 - |s| + j, false);
      }
    }
    if true !in s {
      forall i | 0 <= i < 8 ensures o.bit(ToByte(o, s), i) == o.bit(o.zero, i) {
        ToByteBit(o, s, i);
        assert BitLaw(o, o.zero, o.zero, 0, i, false);
      }
      assert EqualLaw(o, ToByte(o, s), o.zero);
    }
  }

  // ----- sequences of bytes

  function AllBits<B>(o: ByteOps<B>, data: seq<B>, k: nat): (s: Bits)
    requires k <= 8
  {
    if data == [] then [] else Low(o, data[0], k) + AllBits(o, data[1..], k)
  }

  /** The full groups of `k` bits, each as a byte. */
  function Pack<B>(o: ByteOps<B>, s: Bits, k: nat): (r: seq<B>)
    requires k >= 1
    decreases |s|
  {
    if |s| < k then [] else [ToByte(o, s[..k])] + Pack(o, s[k..], k)
  }

  /** The bits after the last full group. */
  function Leftover(s: Bits, k: nat): (r: Bits)
    requires k >= 1
    ensures |r| < k
    decreases |s|
  {
    if |s| < k then s else Leftover(s[k..], k)
  }

  function Falses(n: nat): (s: Bits)
    ensures |s| == n && true !in s
  {
    if n == 0 then [] else [false] + Falses(n - 1)
  }

  /** The conversion. Bits left over are padded to a group, or must be at most four and all zero. */
  function Convert<B>(o: ByteOps<B>, data: seq<B>, from: nat, to: nat, pad: bool): (r: Option<seq<B>>) {
    if from < 1 || from > 8 || to < 1 || to > 8 then None else
    var s := AllBits(o, data, from);
    var groups, rest := Pack(o, s, to), Leftover(s, to);
    if rest == [] then Some(groups)
    else if pad then Some(groups + [ToByte(o, rest + Falses(to - |rest|))])
    else if |rest| > 4 || true in rest then None
    else Some(groups)
  }

  lemma {:induction false} AllBitsSnoc<B>(o: ByteOps<B>, data: seq<B>, b: B, k: nat)
    requires k <= 8
    ensures AllBits(o, data + [b], k) == AllBits(o, data, k) + Low(o, b, k)
    decreases |data|
  {
    if data == [] {
      assert [] + [b] == [b];
      assert AllBits(o, [b][1..], k) == [];
    } else {
      assert (data + [b])[1..] == data[1..] + [b];
      AllBitsSnoc(o, data[1..], b, k);
    }
  }

  ghost predicate AllFits<B>(o: ByteOps<B>, data: seq<B>, k: nat)
    requires k <= 8
  {
    forall i :: 0 <= i < |data| ==> Fits(o, data[i], k)
  }

  lemma {:induction false} AllFitsAppend<B>(o: ByteOps<B>, a: seq<B>, b: seq<B>, k: nat)
    requires k <= 8 && AllFits(o, a, k) && AllFits(o, b, k)
    ensures AllFits(o, a + b, k)
  {
    forall i | 0 <= i < |a + b| ensures Fits(o, (a + b)[i], k) {
      assert (a + b)[i] == if i < |a| then a[i] else b[i - |a|];
    }
  }

  lemma {:induction false} Assoc(a: Bits, b: Bits, c: Bits)
    ensures a + b + c == a + (b + c)
  {
  }

  lemma {:induction false} PackFirst<B>(o: ByteOps<B>, a: Bits, rest: Bits, k: nat)
    requires k >= 1 && |a| == k
    ensures Pack(o, a + rest, k) == [ToByte(o, a)] + Pack(o, rest, k)
    ensures Leftover(a + rest, k) == Leftover(rest, k)
  {
    assert (a + rest)[..k] == a && (a + rest)[k..] == rest;
  }

  lemma {:induction false} PackCons<B>(o: ByteOps<B>, b: B, s: Bits, rest: Bits, k: nat)
    requires 1 <= k <= 8 && Fits(o, b, k)
    ensures Pack(o, Low(o, b, k) + s + rest, k) == [b] + Pack(o, s + rest, k)
    ensures Leftover(Low(o, b, k) + s + rest, k) == Leftover(s + rest, k)
  {
    Assoc(Low(o, b, k), s, rest);
    PackFirst(o, Low(o, b, k), s + rest, k);
  }

  lemma {:induction false} ConsAppend<B>(data: seq<B>, more: seq<B>)
    requires data != []
    ensures [data[0]] + (data[1..] + more) == data + more
  {
  }

  /** Packing gets bytes back from their bits and goes on with what follows. */
  lemma {:induction false} PackBits<B>(o: ByteOps<B>, data: seq<B>, rest: Bits, k: nat)
    requires 1 <= k <= 8 && AllFits(o, data, k)
    ensures Pack(o, AllBits(o, data, k) + rest, k) == data + Pack(o, rest, k)
    ensures Leftover(AllBits(o, data, k) + rest, k) == Leftover(rest, k)
    decreases |data|
  {
    if data == [] {
      assert [] + rest == rest;
    } else {
      PackBits(o, data[1..], rest, k);
      PackCons(o, data[0], AllBits(o, data[1..], k), rest, k);
      ConsAppend(data, Pack(o, rest, k));
    }
  }

  /** The groups and the bits left over are all there was. */
  lemma {:induction false} BitsPacked<B(!new)>(o: ByteOps<B>, s: Bits, k: nat)
    requires Lawful(o) && 1 <= k <= 8
    ensures AllBits(o, Pack(o, s, k), k) + Leftover(s, k) == s && AllFits(o, Pack(o, s, k), k)
    decreases |s|
  {
    if |s| >= k {
      var a, rest := s[..k], s[k..];
      assert s == a + rest;
      PackFirst(o, a, rest, k);
      BitsPacked(o, rest, k);
      LowOfByte(o, a);
      ByteFits(o, a);
      AllBitsCons(o, ToByte(o, a), Pack(o, rest, k), k);
      AllFitsAppend(o, [ToByte(o, a)], Pack(o, rest, k), k);
      Assoc(a, AllBits(o, Pack(o, rest, k), k), Leftover(rest, k));
    } else {
      assert [] + s == s;
    }
  }

  lemma {:induction false} AllBitsCons<B>(o: ByteOps<B>, b: B, data: seq<B>, k: nat)
    requires k <= 8
    ensures AllBits(o, [b] + data, k) == Low(o, b, k) + AllBits(o, data, k)
  {
    assert ([b] + data)[1..] == data;
  }

  // ----- there and back

  lemma {:induction false} BitCount<B>(o: ByteOps<B>, data: seq<B>, k: nat)
    requires k <= 8
    ensures |AllBits(o, data, k)| == |data| * k
    decreases |data|
  {
    if data != [] {
      BitCount(o, data[1..], k);
      assert (|data| - 1) * k + k == |data| * k;
    }
  }

  lemma {:induction false} ModStep(n: nat, k: nat)
    requires 1 <= k <= 8 && n >= k
    ensures (n - k) % k == n % k
  {
    var q := n / k;
    assert n == k * q + n % k;
    assert n - k == k * (q - 1) + n % k;
  }

  lemma {:induction false} LeftoverCount(s: Bits, k: nat)
    requires 1 <= k <= 8
    ensures |Leftover(s, k)| == |s| % k
    decreases |s|
  {
    if |s| >= k {
      LeftoverCount(s[k..], k);
      ModStep(|s|, k);
    }
  }

  /** How many zero bits complete the last group of `to` bits. */
  function Padding(bits: nat, to: nat): (n: nat)
    requires to >= 1
  {
    if bits % to == 0 then 0 else to - bits % to
  }

  /** Padded conversion keeps every bit and adds zeros up to a full group. */
  lemma {:induction false} Padded<B(!new)>(o: ByteOps<B>, data: seq<B>, from: nat, to: nat)
    requires Lawful(o) && 1 <= from <= 8 && 1 <= to <= 8
    ensures var r := Convert(o, data, from, to, true);
            && r.Some? && AllFits(o, r.value, to)
            && AllBits(o, r.value, to) == AllBits(o, data, from) + Falses(Padding(|data| * from, to))
  {
    var s := AllBits(o, data, from);
    var groups, rest := Pack(o, s, to), Leftover(s, to);
    BitCount(o, data, from);
    LeftoverCount(s, to);
    BitsPacked(o, s, to);
    if rest == [] {
      assert AllBits(o, groups, to) + [] == AllBits(o, groups, to);
      assert s + [] == s;
    } else {
      PaddedLast(o, groups, rest, to);
    }
  }

  lemma {:induction false} PaddedLast<B(!new)>(o: ByteOps<B>, groups: seq<B>, rest: Bits, to: nat)
    requires Lawful(o) && |rest| <= to <= 8 && AllFits(o, groups, to)
    ensures var r := groups + [ToByte(o, rest + Falses(to - |rest|))];
            AllFits(o, r, to) && AllBits(o, r, to) == AllBits(o, groups, to) + rest + Falses(to - |rest|)
  {
    var last := rest + Falses(to - |rest|);
    OneGroup(o, groups, last);
    Assoc(AllBits(o, groups, to), rest, Falses(to - |rest|));
  }

  lemma {:induction false} OneGroup<B(!new)>(o: ByteOps<B>, groups: seq<B>, last: Bits)
    requires Lawful(o) && |last| <= 8 && AllFits(o, groups, |last|)
    ensures AllFits(o, groups + [ToByte(o, last)], |last|)
    ensures AllBits(o, groups + [ToByte(o, last)], |last|) == AllBits(o, groups, |last|) + last
  {
    AllBitsSnoc(o, groups, ToByte(o, last), |last|);
    LowOfByte(o, last);
    ByteFits(o, last);
    AllFitsAppend(o, groups, [ToByte(o, last)], |last|);
  }

  lemma {:induction false} FalsesRegroup<B>(o: ByteOps<B>, n: nat, k: nat)
    requires k >= 1
    ensures n < k ==> Pack(o, Falses(n), k) == [] && Leftover(Falses(n), k) == Falses(n)
    ensures n >= k ==> Pack(o, Falses(n), k) != []
  {
  }

  /** Regrouping with padding and back without gives the data again exactly when the padding is
      shorter than a group of the original and at most four bits. */
  lemma {:induction false} RegroupBack<B(!new)>(o: ByteOps<B>, data: seq<B>, from: nat, to: nat)
    requires Lawful(o) && 1 <= from <= 8 && 1 <= to <= 8 && AllFits(o, data, from)
    ensures var r := Convert(o, data, from, to, true);
            var n := Padding(|data| * from, to);
            r.Some? && (Convert(o, r.value, to, from, false) == Some(data) <==> n < from && n <= 4)
  {
    var n := Padding(|data| * from, to);
    Padded(o, data, from, to);
    PackBits(o, data, Falses(n), from);
    FalsesRegroup(o, n, from);
    assert data + [] == data;
    if n >= from {
      assert |data + Pack(o, Falses(n), from)| > |data|;
    }
  }

  /** Bytes in groups of five bits and back, whatever the bytes. */
  lemma {:induction false} EightFive<B(!new)>(o: ByteOps<B>, data: seq<B>)
    requires Lawful(o)
    ensures var r := Convert(o, data, 8, 5, true);
            && r.Some? && |r.value| == (8 * |data| + 4) / 5 && AllFits(o, r.value, 5)
            && Convert(o, r.value, 5, 8, false) == Some(data)
  {
    forall i | 0 <= i < |data| ensures Fits(o, data[i], 8) {
      AllFit(o, data[i]);
    }
    RegroupBack(o, data, 8, 5);
    Padded(o, data, 8, 5);
    BitCount(o, data, 8);
    BitCount(o, Convert(o, data, 8, 5, true).value, 5);
  }

  // ----- the conversion as it runs

  lemma {:induction false} PackMore<B>(o: ByteOps<B>, s: Bits, x: Bits, k: nat)
    requires k >= 1 && |Leftover(s, k)| + |x| <= k
    ensures var rest := Leftover(s, k) + x;
            && Pack(o, s + x, k) == Pack(o, s, k) + (if |rest| == k then [ToByte(o, rest)] else [])
            && Leftover(s + x, k) == if |rest| == k then [] else rest
    decreases |s|
  {
    if |s| >= k {
      assert (s + x)[..k] == s[..k] && (s + x)[k..] == s[k..] + x;
      PackMore(o, s[k..], x, k);
    } else if |s + x| == k {
      assert (s + x)[..k] == s + x && (s + x)[k..] == [];
    }
  }

  /** The output so far and the byte being filled, after the bits `s`. */
  ghost predicate Held<B>(o: ByteOps<B>, s: Bits, k: nat, regrouped: seq<B>, nextByte: B, filledBits: nat)
    requires k >= 1
  {
    regrouped == Pack(o, s, k) && nextByte == ToByte(o, Leftover(s, k)) && filledBits == |Leftover(s, k)|
  }

  lemma {:induction false} PadLast<B(!new)>(o: ByteOps<B>, rest: Bits, to: nat)
    requires Lawful(o) && |rest| <= to <= 8
    ensures o.shl(ToByte(o, rest), to - |rest|) == ToByte(o, rest + Falses(to - |rest|))
  {
    var e := to - |rest|;
    var n, s := ToByte(o, rest), rest + Falses(e);
    forall i | 0 <= i < 8 ensures o.bit(o.shl(n, e), i) == o.bit(ToByte(o, s), i) {
      assert BitLaw(o, n, n, e, i, false);
      ToByteBit(o, s, i);
      if i + e < 8 {
        ToByteBit(o, rest, i + e);
      }
    }
    assert EqualLaw(o, o.shl(n, e), ToByte(o, s));
  }

  method ConvertBits<B(==, !new)>(o: ByteOps<B>, data: seq<B>, fromBits: nat, toBits: nat, pad: bool) returns (r: Option<seq<B>>)
    requires Lawful(o)
    ensures r == Convert(o, data, fromBits, toBits, pad)
  {
    if fromBits < 1 || fromBits > 8 || toBits < 1 || toBits > 8 {
      return None;
    }
    var regrouped: seq<B> := [];
    var nextByte := o.zero;
    var filledBits := 0;
    for i := 0 to |data|
      invariant Held(o, AllBits(o, data[..i], fromBits), toBits, regrouped, nextByte, filledBits)
    {
      AllBitsSnoc(o, data[..i], data[i], fromBits);
      assert data[..i] + [data[i]] == data[..i + 1];
      ghost var seen := AllBits(o, data[..i], fromBits);
      regrouped, nextByte, filledBits := AddByte(o, data[i], fromBits, toBits, regrouped, nextByte, filledBits, seen);
    }
    assert data[..|data|] == data;
    ghost var rest := Leftover(AllBits(o, data, fromBits), toBits);
    if pad && filledBits > 0 {
      PadLast(o, rest, toBits);
      return Some(regrouped + [o.shl(nextByte, toBits - filledBits)]);
    }
    ZeroByte(o, rest);
    if filledBits > 0 && (filledBits > 4 || nextByte != o.zero) {
      return None;
    }
    r := Some(regrouped);
  }

  /** One byte of input: its bits go to the byte being filled, which is put out whenever it is full. */
  method AddByte<B(==, !new)>(o: ByteOps<B>, input: B, fromBits: nat, toBits: nat, regrouped0: seq<B>, nextByte0: B, filledBits0: nat, ghost seen: Bits)
    returns (regrouped: seq<B>, nextByte: B, filledBits: nat)
    requires Lawful(o) && 1 <= fromBits <= 8 && 1 <= toBits <= 8
    requires Held(o, seen, toBits, regrouped0, nextByte0, filledBits0)
    ensures Held(o, seen + Low(o, input, fromBits), toBits, regrouped, nextByte, filledBits)
  {
    regrouped, nextByte, filledBits := regrouped0, nextByte0, filledBits0;
    LowOnTop(o, input, fromBits);
    var b := o.shl(input, 8 - fromBits);
    var remFromBits := fromBits;
    ghost var s := seen;
    while remFromBits > 0
      invariant 0 <= remFromBits <= 8
      invariant Held(o, s, toBits, regrouped, nextByte, filledBits)
      invariant s + Slice(o, b, 0, remFromBits) == seen + Low(o, input, fromBits)
    {
      var remToBits := toBits - filledBits;
      var toExtract := if remToBits < remFromBits then remToBits else remFromBits;
      Extract(o, Leftover(s, toBits), b, toExtract);
      PackMore(o, s, Slice(o, b, 0, toExtract), toBits);
      MoveBits(o, s, b, toExtract, remFromBits);
      nextByte := o.or(o.shl(nextByte, toExtract), o.shr(b, 8 - toExtract));
      s := s + Slice(o, b, 0, toExtract);
      b := o.shl(b, toExtract);
      remFromBits := remFromBits - toExtract;
      filledBits := filledBits + toExtract;
      if filledBits == toBits {
        regrouped := regrouped + [nextByte];
        filledBits, nextByte := 0, o.zero;
      }
    }
    assert s + [] == s;
  }

  lemma {:induction false} MoveBits<B(!new)>(o: ByteOps<B>, s: Bits, b: B, e: nat, r: nat)
    requires Lawful(o) && e <= r <= 8
    ensures s + Slice(o, b, 0, r) == s + Slice(o, b, 0, e) + Slice(o, o.shl(b, e), 0, r - e)
  {
    SliceShift(o, b, e, r - e);
  }

  // ----- machine bytes

  function ShlOctet(b: bv8, n: nat): (r: bv8) {
    if n == 0 then b else if n == 1 then b << 1 else if n == 2 then b << 2 else if n == 3 then b << 3
    else if n == 4 then b << 4 else if n == 5 then b << 5 else if n == 6 then b << 6 else if n == 7 then b << 7 else 0
  }

  function ShrOctet(b: bv8, n: nat): (r: bv8) {
    if n == 0 then b else if n == 1 then b >> 1 else if n == 2 then b >> 2 else if n == 3 then b >> 3
    else if n == 4 then b >> 4 else if n == 5 then b >> 5 else if n == 6 then b >> 6 else if n == 7 then b >> 7 else 0
  }

  function OrOctets(a: bv8, b: bv8): (r: bv8) {
    a | b
  }

  function PushOctet(b: bv8, x: bool): (r: bv8) {
    (b << 1) | (if x then 1 else 0)
  }

  predicate BitOfOctet(b: bv8, i: nat) {
    if i == 0 then b & 128 != 0 else if i == 1 then b & 64 != 0 else if i == 2 then b & 32 != 0 else if i == 3 then b & 16 != 0
    else if i == 4 then b & 8 != 0 else if i == 5 then b & 4 != 0 else if i == 6 then b & 2 != 0 else i == 7 && b & 1 != 0
  }

  function Octet(): (o: ByteOps<bv8>) {
    ByteOps(0, ShlOctet, ShrOctet, OrOctets, PushOctet, BitOfOctet)
  }

  lemma {:induction false} OctetShl(b: bv8, e: nat, i: nat)
    requires i < 8 && e <= 8
    ensures BitOfOctet(ShlOctet(b, e), i) == (i + e < 8 && BitOfOctet(b, i + e))
  {
  }

  lemma {:induction false} OctetShr(b: bv8, e: nat, i: nat)
    requires i < 8 && e <= 8
    ensures BitOfOctet(ShrOctet(b, e), i) == (i >= e && BitOfOctet(b, i - e))
  {
  }

  lemma {:induction false} OctetOr(a: bv8, b: bv8, i: nat)
    requires i < 8
    ensures BitOfOctet(OrOctets(a, b), i) == (BitOfOctet(a, i) || BitOfOctet(b, i))
    ensures !BitOfOctet(0, i)
  {
    OrMask(a, b, if i == 0 then 128 else if i == 1 then 64 else if i == 2 then 32 else if i == 3 then 16
                 else if i == 4 then 8 else if i == 5 then 4 else if i == 6 then 2 else 1);
  }

  lemma {:induction false} OrMask(a: bv8, b: bv8, m: bv8)
    ensures (a | b) & m != 0 <==> a & m != 0 || b & m != 0
  {
    assert (a | b) & m == (a & m) | (b & m);
  }

  lemma {:induction false} OctetPush(b: bv8, x: bool, i: nat)
    requires i < 8
    ensures BitOfOctet(PushOctet(b, x), i) == (if i == 7 then x else BitOfOctet(b, i + 1))
  {
  }

  lemma {:induction false} OctetBits(a: bv8, b: bv8, e: nat, i: nat, x: bool)
    ensures BitLaw(Octet(), a, b, e, i, x)
  {
    if i < 8 && e <= 8 {
      OctetShl(a, e, i);
      OctetShr(a, e, i);
      OctetOr(a, b, i);
      OctetPush(a, x, i);
    }
  }

  lemma {:induction false} OctetEqual(a: bv8, b: bv8)
    ensures EqualLaw(Octet(), a, b)
  {
    var o := Octet();
    if SameBits(o, a, b) {
      assert o.bit(a, 0) == o.bit(b, 0) && o.bit(a, 1) == o.bit(b, 1) && o.bit(a, 2) == o.bit(b, 2) && o.bit(a, 3) == o.bit(b, 3);
      assert o.bit(a, 4) == o.bit(b, 4) && o.bit(a, 5) == o.bit(b, 5) && o.bit(a, 6) == o.bit(b, 6) && o.bit(a, 7) == o.bit(b, 7);
    }
  }

  lemma {:induction false} OctetLawful()
    ensures Lawful(Octet())
  {
    forall a, b, e, i, x ensures BitLaw(Octet(), a, b, e, i, x) {
      OctetBits(a, b, e, i, x);
    }
    forall a, b ensures EqualLaw(Octet(), a, b) {
      OctetEqual(a, b);
    }
  }
}
