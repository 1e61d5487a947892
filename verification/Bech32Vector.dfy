/** The alphabet, and a string of BIP 173 that uses every generator of the checksum. */
module Bech32Vector {
  import opened Options
  import opened Bech32
  import opened Bech32Strings

  const ALPHABET: string := "qpzry9x8gf2tvdw0s3jn54khce6mua7l"

  /** The symbols are written with the letters of the alphabet. */
  lemma {:induction false} Alphabet(v: bv8)
    requires v < 32
    ensures CharOf(v) as int == ALPHABET[v as int] as int
  {
  }

  // ----- following the checksum step by step

  /** One step of the checksum, spelled out. */
  function Stepped(chk: bv32, v: bv32): (r: bv32) {
    (((chk & 0x1ffffff) << 5) ^ v) ^ Fed5(chk >> 25)
  }

  lemma {:induction false} StepIs(chk: bv32, v: bv32)
    ensures Words(Feed).step(chk, v) == Stepped(chk, v)
  {
    FeedIs(chk >> 25);
  }

  /** Every state follows from the one before it. */
  ghost predicate Traced<W>(step: (W, W) -> W, vs: seq<W>, states: seq<W>) {
    |states| == |vs| + 1 && forall i :: 0 <= i < |vs| ==> step(states[i], vs[i]) == states[i + 1]
  }

  lemma {:induction false} TraceFolds<W>(step: (W, W) -> W, vs: seq<W>, states: seq<W>)
    requires Traced(step, vs, states)
    ensures Fold(step, states[0], vs) == states[|vs|]
    decreases |vs|
  {
    if vs != [] {
      TraceFolds(step, vs[1..], states[1..]);
    }
  }

  /** A trace of spelled-out steps is one of the checksum. */
  lemma {:induction false} StateAfter(vs: seq<bv32>, states: seq<bv32>)
    requires Traced(Stepped, vs, states)
    ensures Fold(Words(Feed).step, states[0], vs) == states[|vs|]
  {
    forall i | 0 <= i < |vs| ensures Words(Feed).step(states[i], vs[i]) == states[i + 1] {
      StepIs(states[i], vs[i]);
    }
    TraceFolds(Words(Feed).step, vs, states);
  }

  // ----- the string

  /** The prefix "a" and the checksum over no data. */
  const PREFIX: Octets := [97]
  const SUM: Octets := [10, 28, 25, 31, 20, 31]

  lemma {:induction false} InputIs()
    ensures Input(PREFIX, [] + SUM) == [3, 0, 1, 10, 28, 25, 31, 20, 31]
  {
    var p := PREFIX;
    assert p[1..] == [] && [] + SUM == SUM;
    assert HighParts(p) == [3] && LowParts(p) == [1];
  }

  lemma {:induction false} SumVerifies()
    ensures Verifies(PREFIX, [] + SUM)
  {
    InputIs();
    StateAfter([3, 0, 1, 10, 28, 25, 31, 20, 31],
               [1, 0x23, 0x460, 0x8c01, 0x11802a, 0x230055c, 0x3d6afc2b, 0x2f84386, 0x24622766, 1]);
  }

  lemma {:induction false} LettersAre()
    ensures Map(CharOf, SUM) == [50, 117, 101, 108, 53, 108]
  {
  }

  /** The string "a12uel5l" carries no data: its last six letters are the checksum of the prefix. */
  lemma {:induction false} VectorHolds()
    ensures Checksum(PREFIX, []) == SUM
    ensures Map(CharOf, SUM) == [50, 117, 101, 108, 53, 108]
  {
    Bip173Lawful();
    SumVerifies();
    assert SumLaw(Bip173(), PREFIX, [], SUM);
    LettersAre();
  }
}
