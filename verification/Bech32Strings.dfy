/** Encoding and decoding Bech32 strings, over any alphabet and checksum that fit together, and for
    those of BIP 173. */
module Bech32Strings {
  import opened Options
  import opened Bech32

  /** An alphabet for symbols and a checksum of six symbols. */
  datatype Codec = Codec(
    letter: bv8 -> bv8, value: bv8 -> bv8,
    verifies: (Octets, Octets) -> bool, checksum: (Octets, Octets) -> Octets)

  function Bip173(): (k: Codec) {
    Codec(CharOf, ValueOf, Verifies, Checksum)
  }

  ghost predicate CharLaw(k: Codec, v: bv8) {
    v < 32 ==> k.value(k.letter(v)) == v && k.letter(v) != ONE && Printable(k.letter(v)) && !IsUpper(k.letter(v))
  }

  ghost predicate ValueLaw(k: Codec, c: bv8) {
    k.value(c) != NOT_FOUND ==> k.value(c) < 32 && k.letter(k.value(c)) == c
  }

  ghost predicate SumLaw(k: Codec, hrp: Octets, data: Octets, c: Octets) {
    && |k.checksum(hrp, data)| == 6 && AllSymbols(k.checksum(hrp, data))
    && (|c| == 6 && AllSymbols(c) ==> (k.verifies(hrp, data + c) <==> c == k.checksum(hrp, data)))
  }

  ghost predicate Lawful(k: Codec) {
    && (forall v {:trigger CharLaw(k, v)} :: CharLaw(k, v))
    && (forall c {:trigger ValueLaw(k, c)} :: ValueLaw(k, c))
    && (forall hrp, data, c {:trigger SumLaw(k, hrp, data, c)} :: SumLaw(k, hrp, data, c))
  }

  lemma {:induction false} Bip173Lawful()
    ensures Lawful(Bip173())
  {
    forall v ensures CharLaw(Bip173(), v) {
      Bip173Char(v);
    }
    forall c ensures ValueLaw(Bip173(), c) {
      Bip173Value(c);
    }
    forall hrp, data, c ensures SumLaw(Bip173(), hrp, data, c) {
      Bip173Sum(hrp, data, c);
    }
  }

  lemma {:induction false} Bip173Char(v: bv8)
    ensures CharLaw(Bip173(), v)
  {
    if v < 32 {
      CharRoundTrip(v);
      CharKind(v);
    }
  }

  lemma {:induction false} Bip173Value(c: bv8)
    ensures ValueLaw(Bip173(), c)
  {
    if ValueOf(c) != NOT_FOUND {
      ValueRoundTrip(c);
    }
  }

  lemma {:induction false} Bip173Sum(hrp: Octets, data: Octets, c: Octets)
    ensures SumLaw(Bip173(), hrp, data, c)
  {
    ChecksumVerifies(hrp, data);
    if |c| == 6 && AllSymbols(c) {
      ChecksumExact(hrp, data, c);
    }
  }

  // ----- characters of data

  predicate AllFound(k: Codec, s: Octets) {
    forall i :: 0 <= i < |s| ==> k.value(s[i]) != NOT_FOUND
  }

  function Values(k: Codec, s: Octets): (r: Option<Octets>) {
    if AllFound(k, s) then Some(Map(k.value, s)) else None
  }

  lemma {:induction false} ValuesOfChars(k: Codec, data: Octets)
    requires Lawful(k) && AllSymbols(data)
    ensures Values(k, Map(k.letter, data)) == Some(data)
    ensures forall i :: 0 <= i < |data| ==>
      Map(k.letter, data)[i] != ONE && Printable(Map(k.letter, data)[i]) && !IsUpper(Map(k.letter, data)[i])
  {
    forall i | 0 <= i < |data| ensures k.value(k.letter(data[i])) == data[i] && data[i] != NOT_FOUND && CharLaw(k, data[i]) {
      assert CharLaw(k, data[i]);
    }
    assert Map(k.value, Map(k.letter, data)) == data;
  }

  lemma {:induction false} CharsOfValues(k: Codec, s: Octets)
    requires Lawful(k) && AllFound(k, s)
    ensures AllSymbols(Map(k.value, s)) && Map(k.letter, Map(k.value, s)) == s
  {
    forall i | 0 <= i < |s| ensures k.value(s[i]) < 32 && k.letter(k.value(s[i])) == s[i] {
      assert ValueLaw(k, s[i]);
    }
  }

  // ----- strings

  predicate AllPrintable(s: Octets) {
    forall i :: 0 <= i < |s| ==> Printable(s[i])
  }

  predicate NoUpper(s: Octets) {
    forall i :: 0 <= i < |s| ==> !IsUpper(s[i])
  }

  predicate NoLower(s: Octets) {
    forall i :: 0 <= i < |s| ==> !IsLower(s[i])
  }

  /** The last separator, or -1. */
  function LastOne(s: Octets): (r: int)
    ensures -1 <= r < |s|
    ensures r >= 0 ==> s[r] == ONE
    ensures forall i :: r < i < |s| ==> s[i] != ONE
  {
    if s == [] then -1
    else if s[|s| - 1] == ONE then |s| - 1
    else LastOne(s[..|s| - 1])
  }

  function Encode(k: Codec, hrp: Octets, data: Octets): (r: Option<Octets>) {
    var all := data + k.checksum(hrp, data);
    if AllSymbols(all) then Some(hrp + [ONE] + Map(k.letter, all)) else None
  }

  /** The prefix and the data of a string in lower case, checksum taken off. */
  function DecodeLower(k: Codec, low: Octets): (r: Option<(Octets, Octets)>) {
    var one := LastOne(low);
    if one < 1 || one + 7 > |low| then None else
    var data := Values(k, low[one + 1..]);
    if data.None? || !k.verifies(low[..one], data.value) then None
    else Some((low[..one], data.value[..|data.value| - 6]))
  }

  function Decode(k: Codec, s: Octets): (r: Option<(Octets, Octets)>) {
    var low := Map(LowerOf, s);
    if |s| < 8 || |s| > 90 || !AllPrintable(s) || (s != low && s != Map(UpperOf, s)) then None
    else DecodeLower(k, low)
  }

  lemma {:induction false} LowerHasNoUpper(c: bv8)
    ensures !IsUpper(LowerOf(c)) && (!IsUpper(c) ==> LowerOf(c) == c)
  {
  }

  lemma {:induction false} LowerSame(s: Octets)
    ensures NoUpper(Map(LowerOf, s))
    ensures NoUpper(s) ==> Map(LowerOf, s) == s
  {
    forall i | 0 <= i < |s| ensures !IsUpper(LowerOf(s[i])) && (!IsUpper(s[i]) ==> LowerOf(s[i]) == s[i]) {
      LowerHasNoUpper(s[i]);
    }
  }

  lemma {:induction false} SplitAtLastOne(hrp: Octets, chars: Octets)
    requires forall i :: 0 <= i < |chars| ==> chars[i] != ONE
    ensures var low := hrp + [ONE] + chars;
            LastOne(low) == |hrp| && low[..|hrp|] == hrp && low[|hrp| + 1..] == chars
  {
    var low := hrp + [ONE] + chars;
    assert low[|hrp|] == ONE;
    forall i | |hrp| < i < |low| ensures low[i] != ONE {
      assert low[i] == chars[i - |hrp| - 1];
    }
  }

  /** The prefixes BIP 173 allows an encoder to use. */
  predicate GoodPrefix(hrp: Octets) {
    hrp != [] && AllPrintable(hrp) && NoUpper(hrp)
  }

  lemma {:induction false} EncodedFine(hrp: Octets, chars: Octets)
    requires AllPrintable(chars) && NoUpper(chars)
    ensures var s := hrp + [ONE] + chars; (AllPrintable(hrp) ==> AllPrintable(s)) && (NoUpper(hrp) ==> NoUpper(s))
  {
    var s := hrp + [ONE] + chars;
    forall i | 0 <= i < |s| ensures s[i] == if i < |hrp| then hrp[i] else if i == |hrp| then ONE else chars[i - |hrp| - 1] {
    }
  }

  lemma {:induction false} SymbolsAppend(a: Octets, b: Octets)
    ensures AllSymbols(a + b) <==> AllSymbols(a) && AllSymbols(b)
  {
    if AllSymbols(a + b) {
      forall i | 0 <= i < |a| ensures a[i] < 32 {
        assert a[i] == (a + b)[i];
      }
      forall i | 0 <= i < |b| ensures b[i] < 32 {
        assert b[i] == (a + b)[|a| + i];
      }
    }
  }

  lemma {:induction false} DecodesTo(k: Codec, hrp: Octets, data: Octets)
    requires Lawful(k) && AllSymbols(data) && hrp != []
    ensures Encode(k, hrp, data).Some? && DecodeLower(k, Encode(k, hrp, data).value) == Some((hrp, data))
  {
    var c := k.checksum(hrp, data);
    var all := data + c;
    assert SumLaw(k, hrp, data, c);
    SymbolsAppend(data, c);
    ValuesOfChars(k, all);
    SplitAtLastOne(hrp, Map(k.letter, all));
    assert all[..|all| - 6] == data;
  }

  lemma {:induction false} EncodedLength(k: Codec, hrp: Octets, data: Octets)
    requires Lawful(k) && AllSymbols(data)
    ensures Encode(k, hrp, data).Some? && |Encode(k, hrp, data).value| == |hrp| + |data| + 7
    ensures Encode(k, hrp, data).value[..|hrp|] == hrp
    ensures AllPrintable(hrp) ==> AllPrintable(Encode(k, hrp, data).value)
    ensures NoUpper(hrp) ==> NoUpper(Encode(k, hrp, data).value)
  {
    var c := k.checksum(hrp, data);
    assert SumLaw(k, hrp, data, c);
    SymbolsAppend(data, c);
    ValuesOfChars(k, data + c);
    EncodedFine(hrp, Map(k.letter, data + c));
  }

  lemma {:induction false} EmptyPrefix(k: Codec, data: Octets)
    requires Lawful(k) && AllSymbols(data)
    ensures Encode(k, [], data).Some? && Decode(k, Encode(k, [], data).value).None?
  {
    var c := k.checksum([], data);
    assert SumLaw(k, [], data, c);
    SymbolsAppend(data, c);
    ValuesOfChars(k, data + c);
    EncodedLength(k, [], data);
    EmptyLower(k, Map(k.letter, data + c));
    DecodeOfLower(k, Encode(k, [], data).value);
  }

  lemma {:induction false} EmptyLower(k: Codec, chars: Octets)
    requires forall i :: 0 <= i < |chars| ==> chars[i] != ONE
    ensures DecodeLower(k, [] + [ONE] + chars).None?
  {
    SplitAtLastOne([], chars);
  }

  lemma {:induction false} DecodeOfLower(k: Codec, s: Octets)
    requires NoUpper(s)
    ensures Decode(k, s) == DecodeLower(k, s) || Decode(k, s).None?
  {
    LowerSame(s);
  }

  /** Decoding undoes encoding for exactly these prefixes and lengths. */
  lemma {:induction false} DecodeEncode(k: Codec, hrp: Octets, data: Octets)
    requires Lawful(k) && AllSymbols(data)
    ensures Encode(k, hrp, data).Some?
    ensures Decode(k, Encode(k, hrp, data).value) == Some((hrp, data)) <==> GoodPrefix(hrp) && |hrp| + |data| + 7 <= 90
  {
    EncodedLength(k, hrp, data);
    var s := Encode(k, hrp, data).value;
    if GoodPrefix(hrp) && |s| <= 90 {
      LowerSame(s);
      DecodesTo(k, hrp, data);
    }
    if Decode(k, s) == Some((hrp, data)) {
      DecodedPrefix(k, s);
      forall i | 0 <= i < |hrp| ensures Printable(hrp[i]) {
        assert s[..|hrp|][i] == s[i];
      }
    }
  }

  lemma {:induction false} DecodedPrefix(k: Codec, s: Octets)
    requires Decode(k, s).Some?
    ensures Decode(k, s).value.0 != [] && NoUpper(Decode(k, s).value.0) && AllPrintable(s) && |s| <= 90
  {
    LowerSame(s);
  }

  lemma {:induction false} ReEncodes(k: Codec, hrp: Octets, chars: Octets)
    requires Lawful(k) && AllFound(k, chars) && |chars| >= 6 && k.verifies(hrp, Map(k.value, chars))
    ensures Encode(k, hrp, Map(k.value, chars)[..|chars| - 6]) == Some(hrp + [ONE] + chars)
  {
    var all := Map(k.value, chars);
    var data, c := all[..|all| - 6], all[|all| - 6..];
    CharsOfValues(k, chars);
    assert all == data + c;
    SymbolsAppend(data, c);
    assert SumLaw(k, hrp, data, c);
  }

  lemma {:induction false} ReEncodesLower(k: Codec, low: Octets)
    requires Lawful(k) && DecodeLower(k, low).Some?
    ensures var (hrp, data) := DecodeLower(k, low).value; Encode(k, hrp, data) == Some(low)
  {
    var one := LastOne(low);
    ReEncodes(k, low[..one], low[one + 1..]);
    assert low == low[..one] + [ONE] + low[one + 1..];
  }

  /** Whatever decodes is, in lower case, the encoding of what it decodes to. */
  lemma {:induction false} EncodeDecode(k: Codec, s: Octets)
    requires Lawful(k) && Decode(k, s).Some?
    ensures var (hrp, data) := Decode(k, s).value; Encode(k, hrp, data) == Some(Map(LowerOf, s))
  {
    ReEncodesLower(k, Map(LowerOf, s));
  }

  // ----- prefixes with capitals

  lemma {:induction false} UpperKeeps(c: bv8)
    ensures (UpperOf(c) == c <==> !IsLower(c)) && (LowerOf(c) == c <==> !IsUpper(c)) && (IsUpper(c) ==> !IsLower(c))
    ensures !IsLower(ONE) && !IsUpper(ONE) && LowerOf(ONE) == ONE
  {
  }

  lemma {:induction false} MapSame(f: bv8 -> bv8, s: Octets)
    ensures Map(f, s) == s <==> forall i :: 0 <= i < |s| ==> f(s[i]) == s[i]
  {
    if Map(f, s) == s {
      assert forall i :: 0 <= i < |s| ==> Map(f, s)[i] == f(s[i]);
    }
  }

  lemma {:induction false} CaseSame(s: Octets)
    ensures (Map(LowerOf, s) == s <==> NoUpper(s)) && (Map(UpperOf, s) == s <==> NoLower(s))
  {
    MapSame(LowerOf, s);
    MapSame(UpperOf, s);
    forall i | 0 <= i < |s|
      ensures (UpperOf(s[i]) == s[i] <==> !IsLower(s[i])) && (LowerOf(s[i]) == s[i] <==> !IsUpper(s[i]))
    {
      UpperKeeps(s[i]);
    }
  }

  lemma {:induction false} CaseOfParts(hrp: Octets, chars: Octets)
    ensures var s := hrp + [ONE] + chars;
            (NoUpper(s) <==> NoUpper(hrp) && NoUpper(chars)) && (NoLower(s) <==> NoLower(hrp) && NoLower(chars))
  {
    var s := hrp + [ONE] + chars;
    UpperKeeps(ONE);
    assert forall i :: 0 <= i < |hrp| ==> s[i] == hrp[i];
    assert forall i :: 0 <= i < |chars| ==> s[|hrp| + 1 + i] == chars[i];
    assert s[|hrp|] == ONE;
  }

  lemma {:induction false} LowerOfParts(hrp: Octets, chars: Octets)
    requires NoUpper(chars)
    ensures Map(LowerOf, hrp + [ONE] + chars) == Map(LowerOf, hrp) + [ONE] + chars
  {
    UpperKeeps(ONE);
    CaseSame(chars);
    MapAppend(LowerOf, hrp + [ONE], chars);
    MapAppend(LowerOf, hrp, [ONE]);
    assert Map(LowerOf, [ONE]) == [ONE];
  }

  /** The characters of data with its checksum. */
  function Chars(k: Codec, hrp: Octets, data: Octets): (cs: Octets) {
    Map(k.letter, data + k.checksum(hrp, data))
  }

  /** When a string in one case decodes although its prefix has capitals: no character of the data is
      a letter, and the checksum is the same for the prefix in lower case. */
  predicate CapitalsPass(k: Codec, hrp: Octets, data: Octets) {
    NoLower(hrp) && NoLower(Chars(k, hrp, data)) && k.checksum(Map(LowerOf, hrp), data) == k.checksum(hrp, data)
  }

  lemma {:induction false} LowerDecodes(k: Codec, hrp: Octets, data: Octets)
    requires Lawful(k) && AllSymbols(data)
    ensures var low := Map(LowerOf, hrp);
            DecodeLower(k, low + [ONE] + Chars(k, hrp, data)) ==
              if hrp != [] && k.checksum(low, data) == k.checksum(hrp, data) then Some((low, data)) else None
  {
    var low, c := Map(LowerOf, hrp), k.checksum(hrp, data);
    var all := data + c;
    assert SumLaw(k, hrp, data, c) && SumLaw(k, low, data, c);
    SymbolsAppend(data, c);
    ValuesOfChars(k, all);
    SplitAtLastOne(low, Map(k.letter, all));
    assert all[..|all| - 6] == data;
  }

  lemma {:induction false} DecodeByCase(k: Codec, s: Octets)
    ensures Decode(k, s) == if 8 <= |s| <= 90 && AllPrintable(s) && (NoUpper(s) || NoLower(s)) then DecodeLower(k, Map(LowerOf, s)) else None
  {
    CaseSame(s);
  }

  /** What an encoded string decodes to, whatever the prefix. */
  lemma {:induction false} DecodesExactly(k: Codec, hrp: Octets, data: Octets)
    requires Lawful(k) && AllSymbols(data)
    ensures Encode(k, hrp, data).Some?
    ensures Decode(k, Encode(k, hrp, data).value) ==
              if hrp != [] && AllPrintable(hrp) && |hrp| + |data| + 7 <= 90 && (NoUpper(hrp) || CapitalsPass(k, hrp, data))
              then Some((Map(LowerOf, hrp), data)) else None
  {
    EncodedShape(k, hrp, data);
    var s := Encode(k, hrp, data).value;
    EncodedCase(k, hrp, data);
    DecodeByCase(k, s);
    LowerDecodes(k, hrp, data);
    if NoUpper(hrp) {
      LowerSame(hrp);
    }
  }

  lemma {:induction false} EncodedShape(k: Codec, hrp: Octets, data: Octets)
    requires Lawful(k) && AllSymbols(data)
    ensures Encode(k, hrp, data).Some?
    ensures var s := Encode(k, hrp, data).value; |s| == |hrp| + |data| + 7 && (AllPrintable(s) <==> AllPrintable(hrp))
  {
    EncodedLength(k, hrp, data);
    var s := Encode(k, hrp, data).value;
    if AllPrintable(s) {
      PrintablePrefix(s, hrp);
    }
  }

  lemma {:induction false} PrintablePrefix(s: Octets, hrp: Octets)
    requires |hrp| <= |s| && s[..|hrp|] == hrp && AllPrintable(s)
    ensures AllPrintable(hrp)
  {
    forall i | 0 <= i < |hrp| ensures Printable(hrp[i]) {
      assert s[..|hrp|][i] == s[i];
    }
  }

  lemma {:induction false} EncodedCase(k: Codec, hrp: Octets, data: Octets)
    requires Lawful(k) && AllSymbols(data)
    ensures Encode(k, hrp, data).Some?
    ensures var s, chars := Encode(k, hrp, data).value, Chars(k, hrp, data);
            && s == hrp + [ONE] + chars && Map(LowerOf, s) == Map(LowerOf, hrp) + [ONE] + chars
            && (NoUpper(s) <==> NoUpper(hrp)) && (NoLower(s) <==> NoLower(hrp) && NoLower(chars))
  {
    var c := k.checksum(hrp, data);
    assert SumLaw(k, hrp, data, c);
    SymbolsAppend(data, c);
    ValuesOfChars(k, data + c);
    LowerOfParts(hrp, Chars(k, hrp, data));
    CaseOfParts(hrp, Chars(k, hrp, data));
  }

  /** Short prefixes with capitals never pass. */
  lemma {:induction false} ShortCapitals(hrp: Octets, data: Octets)
    requires |hrp| <= 6 && !NoUpper(hrp)
    ensures !CapitalsPass(Bip173(), hrp, data)
  {
    CapitalsDiffer(hrp, data);
  }
}
