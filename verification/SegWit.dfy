/** Segregated-witness addresses, section "Segwit address format" of BIP 173. */
module SegWit {
  import opened Options
  import opened Bech32
  import Text = Bech32Strings
  import Groups = BitGroups

  type Codec = Text.Codec
  type ByteOps = Groups.ByteOps<bv8>

  /** What is needed of the string codec and of bytes. */
  ghost predicate Lawful(k: Codec, o: ByteOps) {
    && Text.Lawful(k) && Groups.Lawful(o)
    && (forall b {:trigger Groups.Fits(o, b, 5)} :: Groups.Fits(o, b, 5) ==> b < 32)
  }

  predicate GoodLength(version: bv8, n: nat) {
    2 <= n <= 40 && (version == 0 ==> n == 20 || n == 32)
  }

  /** The witness version and the witness program of an address. */
  function DecodeSegWit(k: Codec, o: ByteOps, address: Octets): (r: Option<(bv8, Octets)>) {
    var d :- Text.Decode(k, address);
    if |d.1| < 1 || d.1[0] > 16 then None else
    var program :- Groups.Convert(o, d.1[1..], 5, 8, false);
    if GoodLength(d.1[0], |program|) then Some((d.1[0], program)) else None
  }

  /** The string that carries a version and a program. */
  function Carrier(k: Codec, o: ByteOps, hrp: Octets, version: bv8, program: Octets): (r: Option<Octets>) {
    var converted :- Groups.Convert(o, program, 8, 5, true);
    Text.Encode(k, hrp, [version] + converted)
  }

  /** An address is given out only if it decodes to the version and the program it was made for. */
  function EncodeSegWit(k: Codec, o: ByteOps, hrp: Octets, version: bv8, program: Octets): (r: Option<Octets>) {
    var s :- Carrier(k, o, hrp, version, program);
    if DecodeSegWit(k, o, s) == Some((version, program)) then Some(s) else None
  }

  /** What an address can carry under a prefix. */
  predicate Encodable(hrp: Octets, version: bv8, n: nat) {
    && Text.GoodPrefix(hrp) && version <= 16 && GoodLength(version, n)
    && |hrp| + (8 * n + 4) / 5 + 8 <= 90
  }

  lemma {:induction false} Symbolic(k: Codec, o: ByteOps, version: bv8, program: Octets)
    requires Lawful(k, o)
    ensures var r := Groups.Convert(o, program, 8, 5, true);
            && r.Some? && |r.value| == (8 * |program| + 4) / 5 && AllSymbols(r.value)
            && Groups.Convert(o, r.value, 5, 8, false) == Some(program)
            && (AllSymbols([version] + r.value) <==> version < 32)
  {
    Groups.EightFive(o, program);
    var r := Groups.Convert(o, program, 8, 5, true).value;
    forall i | 0 <= i < |r| ensures r[i] < 32 {
      assert Groups.Fits(o, r[i], 5);
    }
    Text.SymbolsAppend([version], r);
    assert AllSymbols([version]) <==> version < 32 by {
      assert [version][0] == version;
    }
  }

  /** The check inside the encoder never fails for what an address can carry. */
  lemma {:induction false} SelfCheck(k: Codec, o: ByteOps, hrp: Octets, version: bv8, program: Octets)
    requires Lawful(k, o) && Encodable(hrp, version, |program|)
    ensures var s := Carrier(k, o, hrp, version, program);
            s.Some? && EncodeSegWit(k, o, hrp, version, program) == s && DecodeSegWit(k, o, s.value) == Some((version, program))
  {
    Symbolic(k, o, version, program);
    var r := Groups.Convert(o, program, 8, 5, true).value;
    Text.DecodeEncode(k, hrp, [version] + r);
    assert ([version] + r)[1..] == r;
  }

  /** What an address can carry under any prefix: with capitals in the prefix, only if the string is
      in capitals all through and its checksum does not see the difference. */
  predicate Carries(k: Codec, o: ByteOps, hrp: Octets, version: bv8, program: Octets) {
    var converted := Groups.Convert(o, program, 8, 5, true);
    && hrp != [] && Text.AllPrintable(hrp) && version <= 16 && GoodLength(version, |program|)
    && |hrp| + (8 * |program| + 4) / 5 + 8 <= 90
    && (Text.NoUpper(hrp) || (converted.Some? && Text.CapitalsPass(k, hrp, [version] + converted.value)))
  }

  /** An address is made exactly for what it can carry. */
  lemma {:induction false} AddressExact(k: Codec, o: ByteOps, hrp: Octets, version: bv8, program: Octets)
    requires Lawful(k, o)
    ensures EncodeSegWit(k, o, hrp, version, program).Some? <==> Carries(k, o, hrp, version, program)
  {
    Symbolic(k, o, version, program);
    var r := Groups.Convert(o, program, 8, 5, true).value;
    var data := [version] + r;
    assert data[1..] == r;
    if version < 32 {
      Text.DecodesExactly(k, hrp, data);
    } else {
      TooLarge(k, hrp, version, r);
    }
  }

  lemma {:induction false} TooLarge(k: Codec, hrp: Octets, version: bv8, r: Octets)
    requires version >= 32
    ensures Text.Encode(k, hrp, [version] + r).None?
  {
    var all := [version] + r + k.checksum(hrp, [version] + r);
    assert all[0] == version;
  }

  /** Under a prefix of up to six characters that is: printable, without capitals, and the versions
      and lengths allowed. */
  lemma {:induction false} ShortPrefixExact(hrp: Octets, version: bv8, program: Octets)
    requires |hrp| <= 6
    ensures EncodeSegWit(Text.Bip173(), Groups.Octet(), hrp, version, program).Some? <==> Encodable(hrp, version, |program|)
  {
    Bip173Lawful();
    AddressExact(Text.Bip173(), Groups.Octet(), hrp, version, program);
    var converted := Groups.Convert(Groups.Octet(), program, 8, 5, true);
    if !Text.NoUpper(hrp) && converted.Some? {
      Text.ShortCapitals(hrp, [version] + converted.value);
    }
  }

  /** The same in numbers: a prefix of printable characters that are no capitals, a version up to
      16, and a program of 2 to 40 bytes, for version 0 of 20 or 32. */
  lemma {:induction false} AddressLimits(hrp: Octets, version: bv8, program: Octets)
    requires |hrp| <= 6
    ensures EncodeSegWit(Text.Bip173(), Groups.Octet(), hrp, version, program).Some? <==>
              && 1 <= |hrp| && (forall i :: 0 <= i < |hrp| ==> 33 <= hrp[i] <= 126 && !(65 <= hrp[i] <= 90))
              && version <= 16 && 2 <= |program| <= 40 && (version == 0 ==> |program| == 20 || |program| == 32)
  {
    ShortPrefixExact(hrp, version, program);
  }

  lemma {:induction false} FiveBits(b: bv8)
    ensures Groups.Fits(Groups.Octet(), b, 5) ==> b < 32
  {
    if Groups.Fits(Groups.Octet(), b, 5) {
      var low := Groups.Low(Groups.Octet(), b, 5);
      Groups.OctetLawful();
      Groups.ToByteBit(Groups.Octet(), low, 0);
      Groups.ToByteBit(Groups.Octet(), low, 1);
      Groups.ToByteBit(Groups.Octet(), low, 2);
    }
  }

  lemma {:induction false} Bip173Lawful()
    ensures Lawful(Text.Bip173(), Groups.Octet())
  {
    Text.Bip173Lawful();
    Groups.OctetLawful();
    forall b ensures Groups.Fits(Groups.Octet(), b, 5) ==> b < 32 {
      FiveBits(b);
    }
  }

  /** For the two program lengths in use, under any lower-case prefix that leaves room. */
  lemma {:induction false} VersionZero(hrp: Octets, program: Octets)
    requires Text.GoodPrefix(hrp) && ((|program| == 20 && |hrp| <= 50) || (|program| == 32 && |hrp| <= 30))
    ensures var s := EncodeSegWit(Text.Bip173(), Groups.Octet(), hrp, 0, program);
            s.Some? && DecodeSegWit(Text.Bip173(), Groups.Octet(), s.value) == Some((0, program))
  {
    Bip173Lawful();
    SelfCheck(Text.Bip173(), Groups.Octet(), hrp, 0, program);
  }
}
