/** The Bech32 routines as they run, loop by loop, for the alphabet and the checksum of BIP 173. */
module Bech32Codec {
  import opened Options
  import opened Bech32
  import opened Bech32Strings

  method PolymodStep(before: bv32, v: bv32) returns (chk: bv32)
    ensures chk == StepWith(Feed, before, v)
  {
    var b := before >> 25;
    chk := ((before & 0x1ffffff) << 5) ^ v;
    ghost var start := chk;
    for i := 0 to 5
      invariant chk == Fed(start, b, i)
    {
      if BitSet(b, i) {
        chk := chk ^ Generator(i);
      }
    }
    FedXor(start, b, 5);
  }

  method ComputePolymod(values: seq<bv32>) returns (chk: bv32)
    ensures chk == Polymod(values)
  {
    chk := 1;
    assert values[0..] == values;
    for k := 0 to |values|
      invariant Fold(Words(Feed).step, chk, values[k..]) == Polymod(values)
    {
      assert values[k..][1..] == values[k + 1..];
      chk := PolymodStep(chk, values[k]);
    }
  }

  method ExpandPrefix(hrp: Octets) returns (v: seq<bv32>)
    ensures v == Expand(hrp)
  {
    v := [];
    assert hrp[0..] == hrp;
    for i := 0 to |hrp|
      invariant v + HighParts(hrp[i..]) == HighParts(hrp)
    {
      assert hrp[i..][1..] == hrp[i + 1..];
      v := v + [(hrp[i] >> 5) as bv32];
    }
    assert HighParts(hrp[|hrp|..]) == [];
    v := v + [0];
    ghost var pre := v;
    for i := 0 to |hrp|
      invariant v + LowParts(hrp[i..]) == pre + LowParts(hrp)
    {
      assert hrp[i..][1..] == hrp[i + 1..];
      v := v + [(hrp[i] & 31) as bv32];
    }
    assert LowParts(hrp[|hrp|..]) == [];
    assert v == pre + LowParts(hrp) && pre == HighParts(hrp) + [0];
  }

  method Widen(data: Octets) returns (v: seq<bv32>)
    ensures v == Map(Widened, data)
  {
    v := [];
    for i := 0 to |data|
      invariant |v| == i && forall j :: 0 <= j < i ==> v[j] == Widened(data[j])
    {
      v := v + [data[i] as bv32];
    }
  }

  /** Symbol `i` of six, the first one on top. */
  function SymbolAt(p: bv32, i: nat): (c: bv8)
    requires i < 6
  {
    LastSymbol(if i == 0 then p >> 25 else if i == 1 then p >> 20 else if i == 2 then p >> 15
               else if i == 3 then p >> 10 else if i == 4 then p >> 5 else p)
  }

  lemma {:induction false} OneMoreSymbol<W>(a: Algebra<W>, q: W, n: nat)
    ensures Symbols(a, q, n + 1) == Symbols(a, a.upper(q), n) + [a.low(q)]
  {
  }

  lemma {:induction false} ThreeSymbols<W>(a: Algebra<W>, q: W, n: nat)
    ensures Symbols(a, q, n + 3) == Symbols(a, a.upper(a.upper(a.upper(q))), n) + [a.low(a.upper(a.upper(q))), a.low(a.upper(q)), a.low(q)]
  {
    OneMoreSymbol(a, q, n + 2);
    OneMoreSymbol(a, a.upper(q), n + 1);
    OneMoreSymbol(a, a.upper(a.upper(q)), n);
  }

  lemma {:induction false} SixSymbols<W>(a: Algebra<W>, q: W)
    ensures var q1 := a.upper(q); var q2 := a.upper(q1); var q3 := a.upper(q2); var q4 := a.upper(q3); var q5 := a.upper(q4);
            Symbols(a, q, 6) == [a.low(q5), a.low(q4), a.low(q3), a.low(q2), a.low(q1), a.low(q)]
  {
    ThreeSymbols(a, q, 3);
    ThreeSymbols(a, a.upper(a.upper(a.upper(q))), 0);
  }

  lemma {:induction false} SymbolsAt(p: bv32)
    ensures Symbols(Words(Feed), p, 6) ==
            [SymbolAt(p, 0), SymbolAt(p, 1), SymbolAt(p, 2), SymbolAt(p, 3), SymbolAt(p, 4), SymbolAt(p, 5)]
  {
    SixSymbols(Words(Feed), p);
  }

  method ComputeChecksum(hrp: Octets, data: Octets) returns (c: Octets)
    ensures c == Checksum(hrp, data)
  {
    var prefix := ExpandPrefix(hrp);
    var wide := Widen(data);
    assert [0, 0, 0, 0, 0, 0] == Zeros(0 as bv32, 6);
    var polymod := ComputePolymod(prefix + wide + [0, 0, 0, 0, 0, 0]);
    c := SplitSymbols(polymod ^ 1);
  }

  method SplitSymbols(polymod: bv32) returns (c: Octets)
    ensures c == Symbols(Words(Feed), polymod, 6)
  {
    c := [];
    for i := 0 to 6
      invariant |c| == i && forall j :: 0 <= j < i ==> c[j] == SymbolAt(polymod, j)
    {
      c := c + [SymbolAt(polymod, i)];
    }
    SymbolsAt(polymod);
  }

  method VerifyChecksum(hrp: Octets, data: Octets) returns (ok: bool)
    ensures ok == Verifies(hrp, data)
  {
    var prefix := ExpandPrefix(hrp);
    var wide := Widen(data);
    var chk := ComputePolymod(prefix + wide);
    ok := chk == 1;
  }

  method ToChars(data: Octets) returns (r: Option<Octets>)
    ensures r == if AllSymbols(data) then Some(Map(CharOf, data)) else None
  {
    var result: Octets := [];
    for i := 0 to |data|
      invariant |result| == i && forall j :: 0 <= j < i ==> data[j] < 32 && result[j] == CharOf(data[j])
    {
      if data[i] >= 32 {
        return None;
      }
      result := result + [CharOf(data[i])];
    }
    assert result == Map(CharOf, data);
    r := Some(result);
  }

  method ToBytes(chars: Octets) returns (r: Option<Octets>)
    ensures r == Values(Bip173(), chars)
  {
    var decoded: Octets := [];
    for i := 0 to |chars|
      invariant |decoded| == i && forall j :: 0 <= j < i ==> ValueOf(chars[j]) != NOT_FOUND && decoded[j] == ValueOf(chars[j])
    {
      var index := ValueOf(chars[i]);
      if index == NOT_FOUND {
        return None;
      }
      decoded := decoded + [index];
    }
    assert decoded == Map(Bip173().value, chars);
    r := Some(decoded);
  }

  method Bech32Encode(hrp: Octets, data: Octets) returns (r: Option<Octets>)
    ensures r == Encode(Bip173(), hrp, data)
  {
    var checksum := ComputeChecksum(hrp, data);
    var chars := ToChars(data + checksum);
    r := if chars.None? then None else Some(hrp + [ONE] + chars.value);
  }

  method Bech32Decode(s: Octets) returns (r: Option<(Octets, Octets)>)
    ensures r == Decode(Bip173(), s)
  {
    if |s| < 8 || |s| > 90 {
      return None;
    }
    var printable := CheckPrintable(s);
    if !printable {
      return None;
    }
    var low := Map(LowerOf, s);
    if s != low && s != Map(UpperOf, s) {
      return None;
    }
    r := DecodeLowerCase(low);
  }

  method CheckPrintable(s: Octets) returns (ok: bool)
    ensures ok == AllPrintable(s)
  {
    for i := 0 to |s|
      invariant forall j :: 0 <= j < i ==> Printable(s[j])
    {
      if !Printable(s[i]) {
        return false;
      }
    }
    ok := true;
  }

  method DecodeLowerCase(low: Octets) returns (r: Option<(Octets, Octets)>)
    ensures r == DecodeLower(Bip173(), low)
  {
    var one := LastOne(low);
    if one < 1 || one + 7 > |low| {
      return None;
    }
    var decoded := ToBytes(low[one + 1..]);
    if decoded.None? {
      return None;
    }
    var ok := VerifyChecksum(low[..one], decoded.value);
    r := if ok then Some((low[..one], decoded.value[..|decoded.value| - 6])) else None;
  }
}
