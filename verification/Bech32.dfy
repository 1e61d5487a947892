/** Bech32 strings, section "Bech32" of BIP 173. Strings and data are sequences of bytes. */
module Bech32 {

  type Octets = seq<bv8>

  // ----- the checksum

  function Generator(i: nat): (g: bv32)
    requires i < 5
  {
    if i == 0 then 0x3b6a57b2 else if i == 1 then 0x26508e6d else if i == 2 then 0x1ea119fa
    else if i == 3 then 0x3d4233dd else 0x2a1462b3
  }

  predicate BitSet(b: bv32, i: nat)
    requires i < 5
  {
    if i == 0 then b & 1 == 1 else if i == 1 then (b >> 1) & 1 == 1 else if i == 2 then (b >> 2) & 1 == 1
    else if i == 3 then (b >> 3) & 1 == 1 else (b >> 4) & 1 == 1
  }

  /** `chk` with the generators of the first `n` bits of `b` added. */
  function Fed(chk: bv32, b: bv32, n: nat): (r: bv32)
    requires n <= 5
  {
    if n == 0 then chk
    else if BitSet(b, n - 1) then Fed(chk, b, n - 1) ^ Generator(n - 1)
    else Fed(chk, b, n - 1)
  }

  /** The generators selected by the bits of `b`. */
  function Feed(b: bv32): (r: bv32) {
    Fed(0, b, 5)
  }

  lemma {:induction false} FedBound(b: bv32, n: nat)
    requires n <= 5
    ensures Fed(0, b, n) < 0x40000000
  {
    if n > 0 {
      FedBound(b, n - 1);
      BoundXor(Fed(0, b, n - 1), Generator(n - 1));
    }
  }

  lemma {:induction false} BoundXor(x: bv32, y: bv32)
    requires x < 0x40000000 && y < 0x40000000
    ensures x ^ y < 0x40000000
  {
  }

  lemma {:induction false} FedXor(chk: bv32, b: bv32, n: nat)
    requires n <= 5
    ensures Fed(chk, b, n) == chk ^ Fed(0, b, n)
  {
    if n > 0 {
      FedXor(chk, b, n - 1);
    }
  }

  /** One step of the checksum, with the feedback left open. */
  function StepWith(feed: bv32 -> bv32, chk: bv32, v: bv32): (r: bv32) {
    (((chk & 0x1ffffff) << 5) ^ v) ^ feed(chk >> 25)
  }

  function Fold<W>(step: (W, W) -> W, chk: W, values: seq<W>): (r: W)
    decreases |values|
  {
    if values == [] then chk else Fold(step, step(chk, values[0]), values[1..])
  }

  function Polymod(values: seq<bv32>): (r: bv32) {
    Fold(Words(Feed).step, 1, values)
  }

  lemma {:induction false} FoldAppend<W>(step: (W, W) -> W, chk: W, a: seq<W>, b: seq<W>)
    ensures Fold(step, chk, a + b) == Fold(step, Fold(step, chk, a), b)
    decreases |a|
  {
    if a == [] {
      assert a + b == b;
    } else {
      assert (a + b)[1..] == a[1..] + b;
      FoldAppend(step, step(chk, a[0]), a[1..], b);
    }
  }

  // ----- linearity: differences are carried through the last steps by shifts

  /** Words with addition, a shift by one symbol and a step; a symbol as a word, and the last symbol
      of a word and what is left without it. */
  datatype Algebra<!W> = Algebra(
    zero: W, plus: (W, W) -> W, shift: W -> W, step: (W, W) -> W,
    wide: bv8 -> W, low: W -> bv8, upper: W -> W)

  /** `small(e, n)`: the difference `e` still leaves room for `n` symbols. */
  ghost predicate LawAt<W(!new)>(a: Algebra<W>, small: (W, nat) -> bool, symbol: W -> bool, z: W, e: W, v: W, n: nat) {
    n >= 1 && small(e, n) && symbol(v) ==>
      && a.step(a.plus(z, e), v) == a.plus(a.step(z, a.zero), a.plus(a.shift(e), v))
      && small(a.plus(a.shift(e), v), n - 1)
  }

  ghost predicate Lawful<W(!new)>(a: Algebra<W>, small: (W, nat) -> bool, symbol: W -> bool) {
    forall z, e, v, n {:trigger LawAt(a, small, symbol, z, e, v, n)} :: LawAt(a, small, symbol, z, e, v, n)
  }

  /** A symbol joined to a word can be taken off again, and the parts of a word make the word. */
  ghost predicate PeelAt<W(!new)>(a: Algebra<W>, small: (W, nat) -> bool, symbol: W -> bool, x: W, v: bv8, q: W, n: nat) {
    && (n >= 1 && small(x, n) && v < 32 ==>
          && symbol(a.wide(v))
          && a.upper(a.plus(a.shift(x), a.wide(v))) == x
          && a.low(a.plus(a.shift(x), a.wide(v))) == v)
    && a.plus(a.shift(a.upper(q)), a.wide(a.low(q))) == q
  }

  ghost predicate Peels<W(!new)>(a: Algebra<W>, small: (W, nat) -> bool, symbol: W -> bool) {
    forall x, v, q, n {:trigger PeelAt(a, small, symbol, x, v, q, n)} :: PeelAt(a, small, symbol, x, v, q, n)
  }

  function Carried<W>(a: Algebra<W>, e: W, cs: seq<W>): (r: W)
    decreases |cs|
  {
    if cs == [] then e else Carried(a, a.plus(a.shift(e), cs[0]), cs[1..])
  }

  function Zeros<W>(zero: W, n: nat): (z: seq<W>)
    ensures |z| == n
  {
    if n == 0 then [] else [zero] + Zeros(zero, n - 1)
  }

  /** Symbols appended in place of zeros add exactly themselves, side by side, to the result. */
  lemma {:induction false} FoldShift<W(!new)>(a: Algebra<W>, small: (W, nat) -> bool, symbol: W -> bool, z: W, e: W, cs: seq<W>)
    requires Lawful(a, small, symbol) && small(e, |cs|) && forall i :: 0 <= i < |cs| ==> symbol(cs[i])
    ensures Fold(a.step, a.plus(z, e), cs) == a.plus(Fold(a.step, z, Zeros(a.zero, |cs|)), Carried(a, e, cs))
    decreases |cs|
  {
    if cs != [] {
      assert Zeros(a.zero, |cs|)[1..] == Zeros(a.zero, |cs| - 1);
      assert LawAt(a, small, symbol, z, e, cs[0], |cs|);
      FoldShift(a, small, symbol, a.step(z, a.zero), a.plus(a.shift(e), cs[0]), cs[1..]);
    }
  }

  /** The same behind any input. */
  lemma {:induction false} FoldTail<W(!new)>(a: Algebra<W>, small: (W, nat) -> bool, symbol: W -> bool, chk: W, vs: seq<W>, cs: seq<W>)
    requires Lawful(a, small, symbol) && small(a.zero, |cs|) && forall i :: 0 <= i < |cs| ==> symbol(cs[i])
    requires var s := Fold(a.step, chk, vs); a.plus(s, a.zero) == s
    ensures Fold(a.step, chk, vs + cs) == a.plus(Fold(a.step, chk, vs + Zeros(a.zero, |cs|)), Carried(a, a.zero, cs))
  {
    FoldAppend(a.step, chk, vs, cs);
    FoldAppend(a.step, chk, vs, Zeros(a.zero, |cs|));
    FoldShift(a, small, symbol, Fold(a.step, chk, vs), a.zero, cs);
  }

  function Xor(x: bv32, y: bv32): (r: bv32) {
    x ^ y
  }

  function NextSymbol(x: bv32): (r: bv32) {
    x << 5
  }

  function Widened(v: bv8): (r: bv32) {
    v as bv32
  }

  function LastSymbol(q: bv32): (v: bv8) {
    (q & 31) as bv8
  }

  function WithoutLast(q: bv32): (r: bv32) {
    q >> 5
  }

  predicate IsSymbol(c: bv32) {
    c < 32
  }

  function Words(feed: bv32 -> bv32): (a: Algebra<bv32>) {
    Algebra(0, Xor, NextSymbol, (chk, v) => StepWith(feed, chk, v), Widened, LastSymbol, WithoutLast)
  }

  /** A bound on differences that leave room for `n` more symbols, at most six in all. */
  predicate Room(e: bv32, n: nat) {
    if n == 6 then e < 1 else if n == 5 then e < 0x20 else if n == 4 then e < 0x400
    else if n == 3 then e < 0x8000 else if n == 2 then e < 0x100000 else if n == 1 then e < 0x2000000 else n == 0 && e < 0x40000000
  }

  lemma {:induction false} RoomStep(e: bv32, c: bv32, n: nat)
    requires n >= 1 && Room(e, n) && c < 32
    ensures Room((e << 5) ^ c, n - 1) && e < 0x2000000
  {
  }

  lemma {:induction false} TopUnchanged(a: bv32, d: bv32)
    requires d < 0x2000000
    ensures (a ^ d) >> 25 == a >> 25
  {
  }

  lemma {:induction false} SameFeed(feed: bv32 -> bv32, a: bv32, d: bv32)
    requires d < 0x2000000
    ensures feed((a ^ d) >> 25) == feed(a >> 25)
  {
    TopUnchanged(a, d);
  }

  lemma {:induction false} LowXor(a: bv32, d: bv32, v: bv32, g: bv32)
    requires d < 0x2000000
    ensures ((((a ^ d) & 0x1ffffff) << 5) ^ v) ^ g == ((((a & 0x1ffffff) << 5) ^ 0) ^ g) ^ ((d << 5) ^ v)
  {
  }

  lemma {:induction false} LowXorSame(a: bv32, d: bv32, v: bv32, g: bv32, h: bv32)
    requires d < 0x2000000 && g == h
    ensures ((((a ^ d) & 0x1ffffff) << 5) ^ v) ^ g == ((((a & 0x1ffffff) << 5) ^ 0) ^ h) ^ ((d << 5) ^ v)
  {
    LowXor(a, d, v, g);
  }

  lemma {:induction false} StepWithShift(feed: bv32 -> bv32, a: bv32, d: bv32, v: bv32)
    requires d < 0x2000000
    ensures StepWith(feed, a ^ d, v) == StepWith(feed, a, 0) ^ ((d << 5) ^ v)
  {
    SameFeed(feed, a, d);
    LowXorSame(a, d, v, feed((a ^ d) >> 25), feed(a >> 25));
  }

  lemma {:induction false} StepShift(feed: bv32 -> bv32, z: bv32, e: bv32, v: bv32)
    requires e < 0x2000000
    ensures var w := Words(feed); w.step(w.plus(z, e), v) == w.plus(w.step(z, w.zero), w.plus(w.shift(e), v))
  {
    StepWithShift(feed, z, e, v);
  }

  lemma {:induction false} WordsLawAt(feed: bv32 -> bv32, z: bv32, e: bv32, v: bv32, n: nat)
    ensures LawAt(Words(feed), Room, IsSymbol, z, e, v, n)
  {
    if n >= 1 && Room(e, n) && IsSymbol(v) {
      RoomStep(e, v, n);
      StepShift(feed, z, e, v);
    }
  }

  lemma {:induction false} WordsLawful(feed: bv32 -> bv32)
    ensures Lawful(Words(feed), Room, IsSymbol)
  {
    forall z, e, v, n ensures LawAt(Words(feed), Room, IsSymbol, z, e, v, n) {
      WordsLawAt(feed, z, e, v, n);
    }
  }

  lemma {:induction false} UpperJoined(feed: bv32 -> bv32, x: bv32, v: bv8)
    requires v < 32 && x < 0x2000000
    ensures var w := Words(feed); w.upper(w.plus(w.shift(x), w.wide(v))) == x
  {
  }

  lemma {:induction false} LowJoined(feed: bv32 -> bv32, x: bv32, v: bv8)
    requires v < 32
    ensures var w := Words(feed); w.low(w.plus(w.shift(x), w.wide(v))) == v
  {
  }

  lemma {:induction false} PartsJoined(feed: bv32 -> bv32, q: bv32)
    ensures var w := Words(feed); w.plus(w.shift(w.upper(q)), w.wide(w.low(q))) == q
  {
  }

  lemma {:induction false} RoomBelow(x: bv32, v: bv8, n: nat)
    requires n >= 1 && Room(x, n) && v < 32
    ensures x < 0x2000000 && IsSymbol(Widened(v))
  {
  }

  lemma {:induction false} WordsPeelAt(feed: bv32 -> bv32, x: bv32, v: bv8, q: bv32, n: nat)
    ensures PeelAt(Words(feed), Room, IsSymbol, x, v, q, n)
  {
    PartsJoined(feed, q);
    if n >= 1 && Room(x, n) && v < 32 {
      RoomBelow(x, v, n);
      UpperJoined(feed, x, v);
      LowJoined(feed, x, v);
    }
  }

  lemma {:induction false} WordsPeel(feed: bv32 -> bv32)
    ensures Peels(Words(feed), Room, IsSymbol)
  {
    forall x, v, q, n ensures PeelAt(Words(feed), Room, IsSymbol, x, v, q, n) {
      WordsPeelAt(feed, x, v, q, n);
    }
  }

  // ----- words and their symbols

  function Map<W>(f: bv8 -> W, data: Octets): (ws: seq<W>)
    ensures |ws| == |data| && forall i :: 0 <= i < |data| ==> ws[i] == f(data[i])
  {
    if data == [] then [] else [f(data[0])] + Map(f, data[1..])
  }

  lemma {:induction false} MapAppend<W>(wide: bv8 -> W, a: Octets, b: Octets)
    ensures Map(wide, a + b) == Map(wide, a) + Map(wide, b)
  {
  }

  predicate AllSymbols(data: Octets) {
    forall i :: 0 <= i < |data| ==> data[i] < 32
  }

  /** The last `n` symbols of a word. */
  function Symbols<W>(a: Algebra<W>, q: W, n: nat): (c: Octets)
    ensures |c| == n
  {
    if n == 0 then [] else Symbols(a, a.upper(q), n - 1) + [a.low(q)]
  }

  /** What is left of a word without its last `n` symbols. */
  function Above<W>(a: Algebra<W>, q: W, n: nat): (r: W) {
    if n == 0 then q else Above(a, a.upper(q), n - 1)
  }

  lemma {:induction false} CarriedSnoc<W>(a: Algebra<W>, e: W, cs: seq<W>, c: W)
    ensures Carried(a, e, cs + [c]) == a.plus(a.shift(Carried(a, e, cs)), c)
    decreases |cs|
  {
    if cs == [] {
      assert [] + [c] == [c];
      assert [c][1..] == [];
      assert Carried(a, e, [c]) == Carried(a, a.plus(a.shift(e), c), []);
    } else {
      assert (cs + [c])[1..] == cs[1..] + [c];
      CarriedSnoc(a, a.plus(a.shift(e), cs[0]), cs[1..], c);
    }
  }

  /** The word made of symbols. */
  function Word<W>(a: Algebra<W>, c: Octets): (r: W) {
    Carried(a, a.zero, Map(a.wide, c))
  }

  lemma {:induction false} WordSnoc<W>(a: Algebra<W>, c: Octets, v: bv8)
    ensures Word(a, c + [v]) == a.plus(a.shift(Word(a, c)), a.wide(v))
  {
    MapAppend(a.wide, c, [v]);
    assert Map(a.wide, [v]) == [a.wide(v)];
    CarriedSnoc(a, a.zero, Map(a.wide, c), a.wide(v));
  }

  lemma {:induction false} SnocEqual<T>(a: seq<T>, x: T, b: seq<T>, y: T)
    requires |a| == |b|
    ensures a + [x] == b + [y] <==> a == b && x == y
  {
    if a + [x] == b + [y] {
      assert a == (a + [x])[..|a|] == (b + [y])[..|b|] == b;
      assert x == (a + [x])[|a|] == (b + [y])[|b|] == y;
    }
  }

  /** Up to six symbols make a word exactly when they are all the symbols of the word. */
  lemma {:induction false} WordIs<W(!new)>(a: Algebra<W>, small: (W, nat) -> bool, symbol: W -> bool, c: Octets, q: W)
    requires Lawful(a, small, symbol) && Peels(a, small, symbol) && small(a.zero, 6)
    requires |c| <= 6 && AllSymbols(c)
    ensures small(Word(a, c), 6 - |c|)
    ensures Word(a, c) == q <==> c == Symbols(a, q, |c|) && Above(a, q, |c|) == a.zero
    decreases |c|
  {
    if c == [] {
      assert Map(a.wide, c) == [];
    } else {
      var k := |c| - 1;
      var d, v := c[..k], c[k];
      assert c == d + [v];
      WordIs(a, small, symbol, d, a.upper(q));
      WordSnoc(a, d, v);
      assert PeelAt(a, small, symbol, Word(a, d), v, q, 6 - k);
      assert LawAt(a, small, symbol, a.zero, Word(a, d), a.wide(v), 6 - k);
      SnocEqual(d, v, Symbols(a, a.upper(q), k), a.low(q));
    }
  }

  /** Input that ends in six symbols folds to `one` exactly for one choice of these. */
  lemma {:induction false} EndsIn<W(!new)>(a: Algebra<W>, small: (W, nat) -> bool, symbol: W -> bool, chk: W, vs: seq<W>, c: Octets, one: W)
    requires Lawful(a, small, symbol) && Peels(a, small, symbol) && small(a.zero, 6) && |c| == 6 && AllSymbols(c)
    requires var s := Fold(a.step, chk, vs); a.plus(s, a.zero) == s
    requires var z := Fold(a.step, chk, vs + Zeros(a.zero, 6));
             a.plus(z, Word(a, c)) == one <==> Word(a, c) == a.plus(z, one)
    ensures var q := a.plus(Fold(a.step, chk, vs + Zeros(a.zero, 6)), one);
            Fold(a.step, chk, vs + Map(a.wide, c)) == one <==> c == Symbols(a, q, 6) && Above(a, q, 6) == a.zero
  {
    forall i | 0 <= i < 6 ensures symbol(Map(a.wide, c)[i]) {
      assert PeelAt(a, small, symbol, a.zero, c[i], a.zero, 6);
    }
    FoldTail(a, small, symbol, chk, vs, Map(a.wide, c));
    WordIs(a, small, symbol, c, a.plus(Fold(a.step, chk, vs + Zeros(a.zero, 6)), one));
  }

  lemma {:induction false} SymbolsAreSymbols(q: bv32, n: nat)
    ensures AllSymbols(Symbols(Words(Feed), q, n))
  {
    if n > 0 {
      SymbolsAreSymbols(q >> 5, n - 1);
      assert (q & 31) as bv8 < 32;
    }
  }

  lemma {:induction false} AboveSix<W>(a: Algebra<W>, q: W)
    ensures Above(a, q, 6) == a.upper(a.upper(a.upper(a.upper(a.upper(a.upper(q))))))
  {
    var x := a.upper(a.upper(a.upper(q)));
    assert Above(a, q, 6) == Above(a, a.upper(q), 5) == Above(a, a.upper(a.upper(q)), 4) == Above(a, x, 3);
    assert Above(a, x, 3) == Above(a, a.upper(x), 2) == Above(a, a.upper(a.upper(x)), 1);
  }

  lemma {:induction false} ThirtyBits(q: bv32)
    ensures Above(Words(Feed), q, 6) == 0 <==> q < 0x40000000
  {
    AboveSix(Words(Feed), q);
    assert (((((q >> 5) >> 5) >> 5) >> 5) >> 5) >> 5 == q >> 30;
  }

  // ----- the checksum of a string

  function HighParts(hrp: Octets): (ws: seq<bv32>) {
    if hrp == [] then [] else [(hrp[0] >> 5) as bv32] + HighParts(hrp[1..])
  }

  function LowParts(hrp: Octets): (ws: seq<bv32>) {
    if hrp == [] then [] else [(hrp[0] & 31) as bv32] + LowParts(hrp[1..])
  }

  function Expand(hrp: Octets): (ws: seq<bv32>) {
    HighParts(hrp) + [0] + LowParts(hrp)
  }

  function Input(hrp: Octets, data: Octets): (ws: seq<bv32>) {
    Expand(hrp) + Map(Widened, data)
  }

  function Checksum(hrp: Octets, data: Octets): (c: Octets) {
    Symbols(Words(Feed), Target(Input(hrp, data)), 6)
  }

  predicate Verifies(hrp: Octets, data: Octets) {
    Polymod(Input(hrp, data)) == 1
  }

  lemma {:induction false} NoDifference(s: bv32)
    ensures Words(Feed).plus(s, 0) == s
  {
  }

  lemma {:induction false} StepBound(feed: bv32 -> bv32, z: bv32)
    requires feed(z >> 25) < 0x40000000
    ensures Words(feed).step(z, 0) < 0x40000000
  {
  }

  lemma {:induction false} ZerosBound(s: bv32, n: nat)
    requires n > 0
    ensures Fold(Words(Feed).step, s, Zeros(0, n)) < 0x40000000
    decreases n
  {
    var step := Words(Feed).step;
    assert Zeros(0 as bv32, n)[1..] == Zeros(0, n - 1);
    if n == 1 {
      FedBound(s >> 25, 5);
      StepBound(Feed, s);
      assert Fold(step, s, Zeros(0, 1)) == Fold(step, step(s, 0), []);
    } else {
      ZerosBound(step(s, 0), n - 1);
    }
  }

  lemma {:induction false} XorIsOne(feed: bv32 -> bv32, z: bv32, k: bv32)
    ensures Words(feed).plus(z, k) == 1 <==> k == Words(feed).plus(z, 1)
  {
    if z ^ k == 1 {
      XorCancels(z, k);
    }
    if k == z ^ 1 {
      XorCancels(z, 1);
    }
  }

  lemma {:induction false} StillThirtyBits(z: bv32)
    requires z < 0x40000000
    ensures z ^ 1 < 0x40000000
  {
  }

  lemma {:induction false} XorCancels(z: bv32, k: bv32)
    ensures z ^ (z ^ k) == k
  {
  }

  /** A string's data verifies exactly when its last six symbols are the checksum of the others. */
  lemma {:induction false} ChecksumExact(hrp: Octets, data: Octets, c: Octets)
    requires |c| == 6 && AllSymbols(c)
    ensures Verifies(hrp, data + c) <==> c == Checksum(hrp, data)
  {
    InputAppend(hrp, data, c);
    LastSixExact(Input(hrp, data), c);
  }

  lemma {:induction false} InputAppend(hrp: Octets, data: Octets, c: Octets)
    ensures Input(hrp, data + c) == Input(hrp, data) + Map(Widened, c)
  {
    MapAppend(Widened, data, c);
  }

  lemma {:induction false} LastSixExact(vs: seq<bv32>, c: Octets)
    requires |c| == 6 && AllSymbols(c)
    ensures Polymod(vs + Map(Widened, c)) == 1 <==> c == Symbols(Words(Feed), Target(vs), 6)
  {
    LastSix(vs, c);
    NothingAbove(vs);
  }

  /** The word whose symbols the checksum is. */
  function Target(vs: seq<bv32>): (q: bv32) {
    Words(Feed).plus(Polymod(vs + Zeros(0, 6)), 1)
  }

  lemma {:induction false} LastSix(vs: seq<bv32>, c: Octets)
    requires |c| == 6 && AllSymbols(c)
    ensures Polymod(vs + Map(Widened, c)) == 1 <==> c == Symbols(Words(Feed), Target(vs), 6) && Above(Words(Feed), Target(vs), 6) == 0
  {
    WordsLawful(Feed);
    WordsPeel(Feed);
    NoDifference(Polymod(vs));
    XorIsOne(Feed, Polymod(vs + Zeros(0, 6)), Word(Words(Feed), c));
    EndsIn(Words(Feed), Room, IsSymbol, 1, vs, c, 1);
  }

  lemma {:induction false} NothingAbove(vs: seq<bv32>)
    ensures Above(Words(Feed), Target(vs), 6) == 0
  {
    PolymodBound(vs);
    StillThirtyBits(Polymod(vs + Zeros(0, 6)));
    ThirtyBits(Target(vs));
  }

  lemma {:induction false} PolymodBound(vs: seq<bv32>)
    ensures Polymod(vs + Zeros(0, 6)) < 0x40000000
  {
    FoldAppend(Words(Feed).step, 1, vs, Zeros(0, 6));
    ZerosBound(Polymod(vs), 6);
  }

  /** The checksum made for any prefix and any data verifies. */
  lemma {:induction false} ChecksumVerifies(hrp: Octets, data: Octets)
    ensures |Checksum(hrp, data)| == 6 && AllSymbols(Checksum(hrp, data))
    ensures Verifies(hrp, data + Checksum(hrp, data))
  {
    SymbolsAreSymbols(Target(Input(hrp, data)), 6);
    ChecksumExact(hrp, data, Checksum(hrp, data));
  }

  // ----- errors

  /** A step tells two good states apart and leads to good ones. */
  ghost predicate ApartAt<W(!new)>(step: (W, W) -> W, good: W -> bool, a: W, b: W, v: W) {
    good(a) && good(b) && good(v) ==> good(step(a, v)) && (step(a, v) == step(b, v) ==> a == b)
  }

  ghost predicate Apart<W(!new)>(step: (W, W) -> W, good: W -> bool) {
    forall a, b, v {:trigger ApartAt(step, good, a, b, v)} :: ApartAt(step, good, a, b, v)
  }

  ghost predicate AllGood<W>(good: W -> bool, vs: seq<W>) {
    forall i :: 0 <= i < |vs| ==> good(vs[i])
  }

  lemma {:induction false} FoldApart<W(!new)>(step: (W, W) -> W, good: W -> bool, a: W, b: W, vs: seq<W>)
    requires Apart(step, good) && good(a) && good(b) && AllGood(good, vs) && a != b
    ensures Fold(step, a, vs) != Fold(step, b, vs)
    decreases |vs|
  {
    if vs != [] {
      assert ApartAt(step, good, a, b, vs[0]) && ApartAt(step, good, b, a, vs[0]);
      FoldApart(step, good, step(a, vs[0]), step(b, vs[0]), vs[1..]);
    }
  }

  lemma {:induction false} FoldGood<W(!new)>(step: (W, W) -> W, good: W -> bool, a: W, vs: seq<W>)
    requires Apart(step, good) && good(a) && AllGood(good, vs)
    ensures good(Fold(step, a, vs))
    decreases |vs|
  {
    if vs != [] {
      assert ApartAt(step, good, a, a, vs[0]);
      FoldGood(step, good, step(a, vs[0]), vs[1..]);
    }
  }

  predicate Thirty(w: bv32) {
    w < 0x40000000
  }

  function Fed5(b: bv32): (r: bv32) {
    ((((if b & 1 == 1 then 0x3b6a57b2 else 0) ^ (if (b >> 1) & 1 == 1 then 0x26508e6d else 0))
      ^ (if (b >> 2) & 1 == 1 then 0x1ea119fa else 0)) ^ (if (b >> 3) & 1 == 1 then 0x3d4233dd else 0))
      ^ (if (b >> 4) & 1 == 1 then 0x2a1462b3 else 0)
  }

  lemma {:induction false} FeedIs(b: bv32)
    ensures Feed(b) == Fed5(b)
  {
    assert Fed(0, b, 1) == if b & 1 == 1 then 0x3b6a57b2 else 0;
    assert Fed(0, b, 2) == Fed(0, b, 1) ^ (if (b >> 1) & 1 == 1 then 0x26508e6d else 0);
    assert Fed(0, b, 3) == Fed(0, b, 2) ^ (if (b >> 2) & 1 == 1 then 0x1ea119fa else 0);
    assert Fed(0, b, 4) == Fed(0, b, 3) ^ (if (b >> 3) & 1 == 1 then 0x3d4233dd else 0);
    assert Fed(0, b, 5) == Fed(0, b, 4) ^ (if (b >> 4) & 1 == 1 then 0x2a1462b3 else 0);
  }

  /** The last symbol of the feedback tells which bits were fed back. */
  lemma {:induction false} FeedApart(x: bv32, y: bv32)
    requires x < 32 && y < 32 && Fed5(x) & 31 == Fed5(y) & 31
    ensures x == y
  {
  }

  lemma {:induction false} StepParts(a: bv32, b: bv32, v: bv32, f: bv32, g: bv32)
    requires (((a & 0x1ffffff) << 5) ^ v) ^ f == (((b & 0x1ffffff) << 5) ^ v) ^ g
    ensures f & 31 == g & 31 && (f == g ==> a & 0x1ffffff == b & 0x1ffffff)
  {
  }

  lemma {:induction false} TopIsSymbol(a: bv32)
    requires a < 0x40000000
    ensures a >> 25 < 32
  {
  }

  lemma {:induction false} PartsAgree(a: bv32, b: bv32)
    requires a >> 25 == b >> 25 && a & 0x1ffffff == b & 0x1ffffff
    ensures a == b
  {
  }

  lemma {:induction false} StepThirty(a: bv32, v: bv32, f: bv32)
    requires v < 0x40000000 && f < 0x40000000
    ensures (((a & 0x1ffffff) << 5) ^ v) ^ f < 0x40000000
  {
  }

  lemma {:induction false} StepTop(feed: bv32 -> bv32, a: bv32, b: bv32, v: bv32)
    requires StepWith(feed, a, v) == StepWith(feed, b, v)
    ensures feed(a >> 25) & 31 == feed(b >> 25) & 31
    ensures a >> 25 == b >> 25 ==> a == b
  {
    StepParts(a, b, v, feed(a >> 25), feed(b >> 25));
    if a >> 25 == b >> 25 {
      PartsAgree(a, b);
    }
  }

  lemma {:induction false} FeedInjective(x: bv32, y: bv32)
    requires x < 32 && y < 32 && Feed(x) & 31 == Feed(y) & 31
    ensures x == y
  {
    FeedIs(x);
    FeedIs(y);
    FeedApart(x, y);
  }

  lemma {:induction false} StepInjective(a: bv32, b: bv32, v: bv32)
    requires Thirty(a) && Thirty(b) && StepWith(Feed, a, v) == StepWith(Feed, b, v)
    ensures a == b
  {
    StepTop(Feed, a, b, v);
    TopIsSymbol(a);
    TopIsSymbol(b);
    FeedInjective(a >> 25, b >> 25);
  }

  lemma {:induction false} WordsApart()
    ensures Apart(Words(Feed).step, Thirty)
  {
    forall a, b, v ensures ApartAt(Words(Feed).step, Thirty, a, b, v) {
      if Thirty(a) && Thirty(b) && Thirty(v) {
        FedBound(a >> 25, 5);
        StepThirty(a, v, Feed(a >> 25));
        if StepWith(Feed, a, v) == StepWith(Feed, b, v) {
          StepInjective(a, b, v);
        }
      }
    }
  }

  /** Up to six different symbols lead to different states. */
  lemma {:induction false} SymbolsApart<W(!new)>(a: Algebra<W>, small: (W, nat) -> bool, symbol: W -> bool, s: W, c: Octets, d: Octets)
    requires Lawful(a, small, symbol) && Peels(a, small, symbol) && small(a.zero, 6) && small(a.zero, |c|) && a.plus(s, a.zero) == s
    requires |c| == |d| <= 6 && AllSymbols(c) && AllSymbols(d)
    requires forall z, x, y :: a.plus(z, x) == a.plus(z, y) ==> x == y
    requires Fold(a.step, s, Map(a.wide, c)) == Fold(a.step, s, Map(a.wide, d))
    ensures c == d
  {
    forall i | 0 <= i < |c| ensures symbol(Map(a.wide, c)[i]) && symbol(Map(a.wide, d)[i]) {
      assert PeelAt(a, small, symbol, a.zero, c[i], a.zero, 6) && PeelAt(a, small, symbol, a.zero, d[i], a.zero, 6);
    }
    FoldShift(a, small, symbol, s, a.zero, Map(a.wide, c));
    FoldShift(a, small, symbol, s, a.zero, Map(a.wide, d));
    WordIs(a, small, symbol, c, Word(a, d));
    WordIs(a, small, symbol, d, Word(a, d));
  }

  lemma {:induction false} ZeroRoom(n: nat)
    requires n <= 6
    ensures Room(0, n)
  {
  }

  lemma {:induction false} XorSame(z: bv32, x: bv32, y: bv32)
    requires z ^ x == z ^ y
    ensures x == y
  {
  }

  /** Two inputs that differ within six symbols in a row end in different words. */
  lemma {:induction false} BurstWords(pre: seq<bv32>, c: Octets, d: Octets, post: seq<bv32>)
    requires AllGood(Thirty, pre) && AllGood(Thirty, post) && |c| == |d| <= 6 && AllSymbols(c) && AllSymbols(d) && c != d
    ensures Polymod(pre + Map(Widened, c) + post) != Polymod(pre + Map(Widened, d) + post)
  {
    var step, s := Words(Feed).step, Polymod(pre);
    WordsLawful(Feed);
    WordsPeel(Feed);
    WordsApart();
    ZeroRoom(|c|);
    NoDifference(s);
    forall z, x, y | Words(Feed).plus(z, x) == Words(Feed).plus(z, y) ensures x == y {
      XorSame(z, x, y);
    }
    SymbolsThirty(c);
    SymbolsThirty(d);
    FoldGood(step, Thirty, 1, pre);
    FoldGood(step, Thirty, s, Map(Widened, c));
    FoldGood(step, Thirty, s, Map(Widened, d));
    var a, b := Fold(step, s, Map(Widened, c)), Fold(step, s, Map(Widened, d));
    if a == b {
      SymbolsApart(Words(Feed), Room, IsSymbol, s, c, d);
    }
    FoldApart(step, Thirty, a, b, post);
    FoldAppend(step, 1, pre + Map(Widened, c), post);
    FoldAppend(step, 1, pre, Map(Widened, c));
    FoldAppend(step, 1, pre + Map(Widened, d), post);
    FoldAppend(step, 1, pre, Map(Widened, d));
  }

  lemma {:induction false} OctetThirty(v: bv8)
    ensures Thirty(Widened(v))
  {
  }

  lemma {:induction false} SymbolsThirty(data: Octets)
    ensures AllGood(Thirty, Map(Widened, data))
  {
    forall i | 0 <= i < |data| ensures Thirty(Map(Widened, data)[i]) {
      OctetThirty(data[i]);
    }
  }

  lemma {:induction false} PartsThirty(hrp: Octets)
    ensures AllGood(Thirty, HighParts(hrp)) && AllGood(Thirty, LowParts(hrp))
    decreases |hrp|
  {
    if hrp != [] {
      PartsThirty(hrp[1..]);
      PartThirty(hrp[0]);
    }
  }

  lemma {:induction false} PartThirty(c: bv8)
    ensures Thirty((c >> 5) as bv32) && Thirty((c & 31) as bv32)
  {
  }

  /** A change within six symbols in a row never goes unnoticed. */
  lemma {:induction false} BurstDetected(hrp: Octets, front: Octets, c: Octets, d: Octets, back: Octets)
    requires |c| == |d| <= 6 && AllSymbols(c) && AllSymbols(d) && c != d
    ensures !(Verifies(hrp, front + c + back) && Verifies(hrp, front + d + back))
  {
    PartsThirty(hrp);
    SymbolsThirty(front);
    SymbolsThirty(back);
    BurstWords(Expand(hrp) + Map(Widened, front), c, d, Map(Widened, back));
    BurstInput(hrp, front, c, back);
    BurstInput(hrp, front, d, back);
  }

  lemma {:induction false} BurstInput(hrp: Octets, front: Octets, c: Octets, back: Octets)
    ensures Input(hrp, front + c + back) == Expand(hrp) + Map(Widened, front) + Map(Widened, c) + Map(Widened, back)
  {
    MapAppend(Widened, front + c, back);
    MapAppend(Widened, front, c);
  }

  // ----- capitals in the prefix

  function HighPart(c: bv8): (v: bv8) {
    c >> 5
  }

  lemma {:induction false} HighPartsAre(hrp: Octets)
    ensures HighParts(hrp) == Map(Widened, Map(HighPart, hrp))
    decreases |hrp|
  {
    if hrp != [] {
      HighPartsAre(hrp[1..]);
      assert Map(HighPart, hrp)[1..] == Map(HighPart, hrp[1..]);
    }
  }

  lemma {:induction false} HighPartSmall(c: bv8)
    ensures HighPart(c) < 32
  {
  }

  lemma {:induction false} HighPartsSmall(hrp: Octets)
    ensures AllSymbols(Map(HighPart, hrp))
  {
    forall i | 0 <= i < |hrp| ensures Map(HighPart, hrp)[i] < 32 {
      HighPartSmall(hrp[i]);
    }
  }

  lemma {:induction false} LowerParts(c: bv8)
    ensures LowerOf(c) & 31 == c & 31 && (IsUpper(c) ==> HighPart(LowerOf(c)) != HighPart(c))
  {
  }

  lemma {:induction false} LowPartsLower(hrp: Octets)
    ensures LowParts(Map(LowerOf, hrp)) == LowParts(hrp)
    decreases |hrp|
  {
    if hrp != [] {
      LowPartsLower(hrp[1..]);
      LowerParts(hrp[0]);
      assert Map(LowerOf, hrp)[1..] == Map(LowerOf, hrp[1..]);
    }
  }

  /** A prefix of up to six characters has another checksum in capitals. */
  lemma {:induction false} CapitalsDiffer(hrp: Octets, data: Octets)
    requires |hrp| <= 6 && exists i :: 0 <= i < |hrp| && IsUpper(hrp[i])
    ensures Checksum(Map(LowerOf, hrp), data) != Checksum(hrp, data)
  {
    var low := Map(LowerOf, hrp);
    var c, d := Map(HighPart, hrp), Map(HighPart, low);
    var i :| 0 <= i < |hrp| && IsUpper(hrp[i]);
    LowerParts(hrp[i]);
    assert c[i] != d[i];
    var sum := Checksum(hrp, data);
    ChecksumVerifies(hrp, data);
    ChecksumExact(low, data, sum);
    CapitalsApart(hrp, low, data + sum, c, d);
  }

  /** What follows the high parts of the prefix. */
  function AfterHigh(hrp: Octets, all: Octets): (ws: seq<bv32>) {
    [0] + LowParts(hrp) + Map(Widened, all)
  }

  lemma {:induction false} InputSplit(hrp: Octets, all: Octets)
    ensures Input(hrp, all) == [] + Map(Widened, Map(HighPart, hrp)) + AfterHigh(hrp, all)
  {
    HighPartsAre(hrp);
  }

  lemma {:induction false} AfterThirty(hrp: Octets, all: Octets)
    ensures AllGood(Thirty, AfterHigh(hrp, all))
  {
    PartsThirty(hrp);
    SymbolsThirty(all);
    GoodAppend(Thirty, [0], LowParts(hrp));
    GoodAppend(Thirty, [0] + LowParts(hrp), Map(Widened, all));
  }

  lemma {:induction false} GoodAppend<W>(good: W -> bool, a: seq<W>, b: seq<W>)
    requires AllGood(good, a) && AllGood(good, b)
    ensures AllGood(good, a + b)
  {
  }

  lemma {:induction false} CapitalsApart(hrp: Octets, low: Octets, all: Octets, c: Octets, d: Octets)
    requires |hrp| <= 6 && low == Map(LowerOf, hrp) && c == Map(HighPart, hrp) && d == Map(HighPart, low) && c != d
    ensures Polymod(Input(hrp, all)) != Polymod(Input(low, all))
  {
    InputSplit(hrp, all);
    InputSplit(low, all);
    LowPartsLower(hrp);
    HighPartsSmall(hrp);
    HighPartsSmall(low);
    AfterThirty(hrp, all);
    BurstWords([], c, d, AfterHigh(hrp, all));
  }

  // ----- characters

  /** The character set "qpzry9x8gf2tvdw0s3jn54khce6mua7l". */
  function CharOf(v: bv8): (c: bv8) {
    if v == 0 then 113 else if v == 1 then 112 else if v == 2 then 122 else if v == 3 then 114 else if v == 4 then 121
    else if v == 5 then 57 else if v == 6 then 120 else if v == 7 then 56 else if v == 8 then 103 else if v == 9 then 102
    else if v == 10 then 50 else if v == 11 then 116 else if v == 12 then 118 else if v == 13 then 100 else if v == 14 then 119
    else if v == 15 then 48 else if v == 16 then 115 else if v == 17 then 51 else if v == 18 then 106 else if v == 19 then 110
    else if v == 20 then 53 else if v == 21 then 52 else if v == 22 then 107 else if v == 23 then 104 else if v == 24 then 99
    else if v == 25 then 101 else if v == 26 then 54 else if v == 27 then 109 else if v == 28 then 117 else if v == 29 then 97
    else if v == 30 then 55
    else 108
  }

  const NOT_FOUND: bv8 := 255

  function ValueOf(c: bv8): (v: bv8) {
    if c == 113 then 0 else if c == 112 then 1 else if c == 122 then 2 else if c == 114 then 3
    else if c == 121 then 4 else if c == 57 then 5 else if c == 120 then 6 else if c == 56 then 7
    else if c == 103 then 8 else if c == 102 then 9 else if c == 50 then 10 else if c == 116 then 11
    else if c == 118 then 12 else if c == 100 then 13 else if c == 119 then 14 else if c == 48 then 15
    else if c == 115 then 16 else if c == 51 then 17 else if c == 106 then 18 else if c == 110 then 19
    else if c == 53 then 20 else if c == 52 then 21 else if c == 107 then 22 else if c == 104 then 23
    else if c == 99 then 24 else if c == 101 then 25 else if c == 54 then 26 else if c == 109 then 27
    else if c == 117 then 28 else if c == 97 then 29 else if c == 55 then 30 else if c == 108 then 31
    else NOT_FOUND
  }

  const ONE: bv8 := 49

  predicate Printable(c: bv8) {
    33 <= c <= 126
  }

  predicate IsUpper(c: bv8) {
    65 <= c <= 90
  }

  predicate IsLower(c: bv8) {
    97 <= c <= 122
  }

  function LowerOf(c: bv8): (r: bv8) {
    if IsUpper(c) then c + 32 else c
  }

  function UpperOf(c: bv8): (r: bv8) {
    if IsLower(c) then c - 32 else c
  }

  lemma {:induction false} CharRoundTripLow(v: bv8)
    requires v < 16
    ensures ValueOf(CharOf(v)) == v
  {
  }

  lemma {:induction false} CharRoundTripHigh(v: bv8)
    requires 16 <= v < 32
    ensures ValueOf(CharOf(v)) == v
  {
  }

  lemma {:induction false} CharRoundTrip(v: bv8)
    requires v < 32
    ensures ValueOf(CharOf(v)) == v
  {
    if v < 16 {
      CharRoundTripLow(v);
    } else {
      CharRoundTripHigh(v);
    }
  }

  lemma {:induction false} CharKind(v: bv8)
    requires v < 32
    ensures CharOf(v) != ONE && Printable(CharOf(v)) && !IsUpper(CharOf(v))
  {
  }

  lemma {:induction false} ValueRoundTripPart(c: bv8, lo: bv8)
    requires lo <= ValueOf(c) < lo + 8 && (lo == 0 || lo == 8 || lo == 16 || lo == 24)
    ensures CharOf(ValueOf(c)) == c
  {
  }

  lemma {:induction false} ValueRange(c: bv8)
    requires ValueOf(c) != NOT_FOUND
    ensures ValueOf(c) < 32
  {
  }

  lemma {:induction false} ValueRoundTrip(c: bv8)
    requires ValueOf(c) != NOT_FOUND
    ensures ValueOf(c) < 32 && CharOf(ValueOf(c)) == c
  {
    ValueRange(c);
    var v := ValueOf(c);
    ValueRoundTripPart(c, if v < 8 then 0 else if v < 16 then 8 else if v < 24 then 16 else 24);
  }
}
