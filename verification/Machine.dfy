/** The stack machine that runs compiled contracts: values, opcodes and runs. Gas is not counted.
    Stacks are written top first. */
module Machine {
  import opened Options
  import opened Arithmetic

  type Bytes = seq<Byte>
  datatype Value = Value(bytes: Bytes)
  type Stack = seq<Value>

  // ----- numbers and truth in byte strings

  function FromBytes(v: Bytes): (n: nat) {
    if v == [] then 0 else v[0] + 256 * FromBytes(v[1..])
  }

  /** Little-endian digits without trailing zeros. */
  function ToBytes(n: nat): (v: Bytes) {
    if n == 0 then [] else [n % 256] + ToBytes(n / 256)
  }

  function Int64Bytes(n: int): (v: Value) {
    Value(ToBytes(n % TWO64))
  }

  function AsInt64(v: Value): (r: Option<int>) {
    if |v.bytes| > 8 then None
    else if FromBytes(v.bytes) < TWO63 then Some(FromBytes(v.bytes))
    else Some(FromBytes(v.bytes) - TWO64)
  }

  predicate AsBool(v: Value) {
    NonZero(v.bytes)
  }

  predicate NonZero(v: Bytes) {
    exists i :: 0 <= i < |v| && v[i] != 0
  }

  function BoolBytes(b: bool): (v: Value) {
    Value(if b then [1] else [])
  }

  function Power256(k: nat): (n: nat) {
    if k == 0 then 1 else 256 * Power256(k - 1)
  }

  lemma {:induction false} FromToBytes(n: nat)
    ensures FromBytes(ToBytes(n)) == n
  {
    if n > 0 {
      FromToBytes(n / 256);
      assert ToBytes(n)[1..] == ToBytes(n / 256);
    }
  }

  lemma {:induction false} ToBytesLength(n: nat, k: nat)
    requires n < Power256(k)
    ensures |ToBytes(n)| <= k
    decreases k
  {
    if n > 0 {
      ToBytesLength(n / 256, k - 1);
    }
  }

  /** Pushing an integer and popping it again gives it back, over the whole 64-bit range. */
  lemma {:induction false} Int64RoundTrip(n: int)
    requires -TWO63 <= n < TWO63
    ensures AsInt64(Int64Bytes(n)) == Some(n)
  {
    var u := n % TWO64;
    FromToBytes(u);
    assert Power256(8) == TWO64 by {
      assert Power256(4) == 0x1_0000_0000;
      assert Power256(6) == 0x1_0000_0000_0000;
    }
    ToBytesLength(u, 8);
  }

  /** A byte string is true exactly when it is not zero as a number. */
  lemma {:induction false} TrueIsNonZero(v: Bytes)
    ensures NonZero(v) <==> FromBytes(v) != 0
  {
    if v != [] {
      TrueIsNonZero(v[1..]);
      if NonZero(v[1..]) {
        var i :| 0 <= i < |v[1..]| && v[1..][i] != 0;
        assert v[i + 1] != 0;
      }
      if NonZero(v) && v[0] == 0 {
        var i :| 0 <= i < |v| && v[i] != 0;
        assert v[1..][i - 1] != 0;
      }
    }
  }

  lemma {:induction false} NumberTruth(v: Value, n: int)
    requires AsInt64(v) == Some(n)
    ensures AsBool(v) <==> n != 0
  {
    TrueIsNonZero(v.bytes);
    FromBytesBound(v.bytes);
    assert Power256(8) == TWO64 by {
      assert Power256(4) == 0x1_0000_0000;
      assert Power256(6) == 0x1_0000_0000_0000;
    }
    PowerGrows(|v.bytes|, 8);
  }

  lemma {:induction false} FromBytesBound(v: Bytes)
    ensures FromBytes(v) < Power256(|v|)
  {
    if v != [] {
      FromBytesBound(v[1..]);
    }
  }

  lemma {:induction false} PowerGrows(i: nat, j: nat)
    requires i <= j
    ensures Power256(i) <= Power256(j)
    decreases j
  {
    if i < j {
      PowerGrows(i, j - 1);
    }
  }

  // ----- opcodes

  /** Tokens of an assembly listing. `Named` stands for every opcode that replaces its arguments by
      one value and takes no part in stack shuffling or in the rewrite table. */
  datatype Op =
    | Push(n: int) | True | False
    | Roll | Pick | Dup | Swap | Over | Rot | Drop | Nip | Tuck
    | Dup2 | Dup3 | Drop2 | Over2 | Swap2 | Rot2
    | Verify | Equal | EqualVerify | NumEqual
    | Add | Sub | Add1 | Sub1 | BoolAnd | BoolOr | Min | Max
    | Size | TxSigHash
    | Named(name: string, arity: nat)
    | Jump(target: string) | JumpIf(target: string) | Label(name: string)

  datatype Outcome = Done(stack: Stack) | Failed | Underflow

  /** A machine and its surroundings: the number format, the signature hash, the opcodes left open
      (`call` takes the arguments deepest first) and the opcode table. */
  datatype Context = Context(
    encode: int -> Value,
    decode: Value -> Option<int>,
    sigHash: Value,
    call: (string, seq<Value>) -> Option<Value>,
    exec: (Op, Stack) -> Outcome)

  /** Numbers are 64-bit little-endian, the opcode table is the one given by `Exec`, and the opcodes
      on numbers and on bytes do what the code does. Hashes, signature checks and the block height
      stay open. */
  ghost predicate Standard(ctx: Context) {
    && (forall n {:trigger Int64Bytes(n)} :: ctx.encode(n) == Int64Bytes(n))
    && (forall v {:trigger AsInt64(v)} :: ctx.decode(v) == AsInt64(v))
    && (forall op, s {:trigger Exec(ctx, op, s)} :: !IsControl(op) ==> ctx.exec(op, s) == Exec(ctx, op, s))
    && (forall name, x {:trigger OnOne(ctx, name, x)} :: OnOne(ctx, name, x).Some? ==> ctx.call(name, [x]) == OnOne(ctx, name, x).value)
    && (forall name, x, y {:trigger OnTwo(ctx, name, x, y)} ::
          OnTwo(ctx, name, x, y).Some? ==> ctx.call(name, [x, y]) == OnTwo(ctx, name, x, y).value)
  }

  lemma {:induction false} NumberRoundTrip(ctx: Context, n: int)
    requires Standard(ctx) && -TWO63 <= n < TWO63
    ensures ctx.decode(ctx.encode(n)) == Some(n)
  {
    Int64RoundTrip(n);
  }

  function Reverse<T>(s: seq<T>): (r: seq<T>)
    ensures |r| == |s|
  {
    if s == [] then [] else Reverse(s[1..]) + [s[0]]
  }

  function PushResult(v: Option<Value>, s: Stack): (r: Outcome) {
    if v.None? then Failed else Done([v.value] + s)
  }

  /** A checked 64-bit operation on numbers. */
  function Checked(ctx: Context, x: Value, y: Value, f: (int, int) -> int): (r: Option<Value>) {
    var a, b := ctx.decode(x), ctx.decode(y);
    if a.None? || b.None? || !(-TWO63 <= f(a.value, b.value) < TWO63) then None
    else Some(ctx.encode(f(a.value, b.value)))
  }

  function AddValues(ctx: Context, x: Value, y: Value): (r: Option<Value>) {
    Checked(ctx, x, y, (a, b) => a + b)
  }

  function SubValues(ctx: Context, x: Value, y: Value): (r: Option<Value>) {
    Checked(ctx, x, y, (a, b) => a - b)
  }

  function MinValues(ctx: Context, x: Value, y: Value): (r: Option<Value>) {
    Checked(ctx, x, y, (a, b) => if a <= b then a else b)
  }

  function MaxValues(ctx: Context, x: Value, y: Value): (r: Option<Value>) {
    Checked(ctx, x, y, (a, b) => if a <= b then b else a)
  }

  function NumEqualValues(ctx: Context, x: Value, y: Value): (r: Option<Value>) {
    if ctx.decode(x).None? || ctx.decode(y).None? then None else Some(BoolBytes(ctx.decode(x) == ctx.decode(y)))
  }

  // ----- opcodes on numbers and on bytes

  function Number1(ctx: Context, x: Value, f: int -> Option<int>): (r: Option<Value>) {
    var a :- ctx.decode(x);
    var n :- f(a);
    Some(ctx.encode(n))
  }

  function Number2(ctx: Context, x: Value, y: Value, f: (int, int) -> Option<int>): (r: Option<Value>) {
    var a :- ctx.decode(x);
    var b :- ctx.decode(y);
    var n :- f(a, b);
    Some(ctx.encode(n))
  }

  function Test1(ctx: Context, x: Value, f: int -> bool): (r: Option<Value>) {
    var a :- ctx.decode(x);
    Some(BoolBytes(f(a)))
  }

  function Test2(ctx: Context, x: Value, y: Value, f: (int, int) -> bool): (r: Option<Value>) {
    var a :- ctx.decode(x);
    var b :- ctx.decode(y);
    Some(BoolBytes(f(a, b)))
  }

  function AbsInt64(a: int): (r: Option<int>) {
    if a == -TWO63 then None else Some(if a < 0 then -a else a)
  }

  function OpMod(a: int, b: int): (r: Option<int>) {
    var r :- ModInt64(a, b);
    Some(if r != 0 && (a >= 0) != (b >= 0) then r + b else r)
  }

  function OpLshift(a: int, b: int): (r: Option<int>) {
    if b < 0 then None else if a == 0 || b == 0 then Some(a) else LshiftInt64(a, b)
  }

  function OpRshift(a: int, b: int): (r: Option<int>) {
    if b < 0 then None else Some(ShiftDown(a, b))
  }

  function InvertBytes(v: Bytes): (r: Bytes) {
    if v == [] then [] else [255 - v[0]] + InvertBytes(v[1..])
  }

  /** The bytes of both, as far as both go. */
  function CommonBytes(f: (bool, bool) -> bool, v: Bytes, w: Bytes): (r: Bytes)
    decreases |v|
  {
    if v == [] || w == [] then [] else [CombineByte(f, v[0], w[0])] + CommonBytes(f, v[1..], w[1..])
  }

  /** The bytes of both, the shorter one followed by zeros. */
  function AllBytes(f: (bool, bool) -> bool, v: Bytes, w: Bytes): (r: Bytes)
    decreases |v| + |w|
  {
    if v == [] && w == [] then []
    else if v == [] then [CombineByte(f, 0, w[0])] + AllBytes(f, [], w[1..])
    else if w == [] then [CombineByte(f, v[0], 0)] + AllBytes(f, v[1..], [])
    else [CombineByte(f, v[0], w[0])] + AllBytes(f, v[1..], w[1..])
  }

  /** The little-endian bytes of a length. */
  function LengthBytes(n: nat, k: nat): (v: Bytes) {
    if k == 0 then [] else [n % 256] + LengthBytes(n / 256, k - 1)
  }

  /** The instruction that pushes a byte string. */
  function Pushdata(v: Bytes): (r: Bytes) {
    if v == [] then [0]
    else if |v| <= 75 then [|v|] + v
    else if |v| < 256 then [0x4c, |v|] + v
    else if |v| < 65536 then [0x4d] + LengthBytes(|v|, 2) + v
    else [0x4e] + LengthBytes(|v|, 4) + v
  }

  /** The opcodes with one argument that are not open. */
  function OnOne(ctx: Context, name: string, x: Value): (r: Option<Option<Value>>) {
    if name == "NEGATE" then Some(Number1(ctx, x, NegateInt64))
    else if name == "ABS" then Some(Number1(ctx, x, AbsInt64))
    else if name == "NOT" then Some(Test1(ctx, x, a => a == 0))
    else if name == "INVERT" then Some(Some(Value(InvertBytes(x.bytes))))
    else None
  }

  /** The opcodes with two arguments that are not open; `y` is on top. */
  function OnTwo(ctx: Context, name: string, x: Value, y: Value): (r: Option<Option<Value>>) {
    if name == "GREATERTHAN" then Some(Test2(ctx, x, y, (a, b) => a > b))
    else if name == "LESSTHAN" then Some(Test2(ctx, x, y, (a, b) => a < b))
    else if name == "GREATERTHANOREQUAL" then Some(Test2(ctx, x, y, (a, b) => a >= b))
    else if name == "LESSTHANOREQUAL" then Some(Test2(ctx, x, y, (a, b) => a <= b))
    else if name == "MUL" then Some(Number2(ctx, x, y, MulInt64))
    else if name == "DIV" then Some(Number2(ctx, x, y, DivInt64))
    else if name == "MOD" then Some(Number2(ctx, x, y, OpMod))
    else if name == "LSHIFT" then Some(Number2(ctx, x, y, OpLshift))
    else if name == "RSHIFT" then Some(Number2(ctx, x, y, OpRshift))
    else if name == "AND" then Some(Some(Value(CommonBytes((a, b) => a && b, x.bytes, y.bytes))))
    else if name == "OR" then Some(Some(Value(AllBytes((a, b) => a || b, x.bytes, y.bytes))))
    else if name == "XOR" then Some(Some(Value(AllBytes((a, b) => a != b, x.bytes, y.bytes))))
    else if name == "CAT" then Some(Some(Value(x.bytes + y.bytes)))
    else if name == "CATPUSHDATA" then Some(Some(Value(x.bytes + Pushdata(y.bytes))))
    else None
  }

  /** Every number read is a 64-bit one. */
  lemma {:induction false} DecodedFits(v: Value)
    requires AsInt64(v).Some?
    ensures Fits(AsInt64(v).value)
  {
    FromBytesBound(v.bytes);
    assert Power256(8) == TWO64 by {
      assert Power256(4) == 0x1_0000_0000;
      assert Power256(6) == 0x1_0000_0000_0000;
    }
    PowerGrows(|v.bytes|, 8);
  }

  /** Bring the entry at depth `n` to the top. */
  function RollTo<T>(s: seq<T>, n: nat): (r: seq<T>)
    requires n < |s|
  {
    [s[n]] + s[..n] + s[n + 1..]
  }

  function Shuffle(ctx: Context, op: Op, s: Stack): (r: Outcome)
    requires op.Roll? || op.Pick?
  {
    if s == [] then Underflow else
    var n, rest := ctx.decode(s[0]), s[1..];
    if n.None? || n.value < 0 then Failed
    else if |rest| <= n.value then Underflow
    else if op.Roll? then Done(RollTo(rest, n.value))
    else Done([rest[n.value]] + rest)
  }

  /** How many stack entries an opcode needs, apart from the reach of ROLL and PICK. */
  function Needs(op: Op): (n: nat) {
    match op
    case Push(_) | True | False | TxSigHash | Jump(_) | Label(_) => 0
    case Roll | Pick | Dup | Drop | Verify | Add1 | Sub1 | Size | JumpIf(_) => 1
    case Swap | Over | Nip | Tuck | Dup2 | Drop2 | Equal | EqualVerify | NumEqual | Add | Sub | BoolAnd | BoolOr | Min | Max => 2
    case Rot | Dup3 => 3
    case Over2 | Swap2 => 4
    case Rot2 => 6
    case Named(_, k) => k
  }

  predicate IsControl(op: Op) {
    op.Jump? || op.JumpIf? || op.Label?
  }

  /** One opcode other than jumps and labels. */
  function Exec(ctx: Context, op: Op, s: Stack): (r: Outcome)
    requires !IsControl(op)
  {
    if |s| < Needs(op) then Underflow else
    match op
    case Push(n) => Done([ctx.encode(n)] + s)
    case True => Done([BoolBytes(true)] + s)
    case False => Done([BoolBytes(false)] + s)
    case Roll => Shuffle(ctx, op, s)
    case Pick => Shuffle(ctx, op, s)
    case Dup => Done([s[0]] + s)
    case Swap => Done([s[1], s[0]] + s[2..])
    case Over => Done([s[1]] + s)
    case Rot => Done([s[2], s[0], s[1]] + s[3..])
    case Drop => Done(s[1..])
    case Nip => Done([s[0]] + s[2..])
    case Tuck => Done([s[0], s[1], s[0]] + s[2..])
    case Dup2 => Done([s[0], s[1]] + s)
    case Dup3 => Done([s[0], s[1], s[2]] + s)
    case Drop2 => Done(s[2..])
    case Over2 => Done([s[2], s[3]] + s)
    case Swap2 => Done([s[2], s[3], s[0], s[1]] + s[4..])
    case Rot2 => Done([s[4], s[5], s[0], s[1], s[2], s[3]] + s[6..])
    case Verify => if AsBool(s[0]) then Done(s[1..]) else Failed
    case Equal => Done([BoolBytes(s[1] == s[0])] + s[2..])
    case EqualVerify => if s[1] == s[0] then Done(s[2..]) else Failed
    case NumEqual => PushResult(NumEqualValues(ctx, s[1], s[0]), s[2..])
    case Add => PushResult(AddValues(ctx, s[1], s[0]), s[2..])
    case Sub => PushResult(SubValues(ctx, s[1], s[0]), s[2..])
    case Add1 => PushResult(AddValues(ctx, s[0], ctx.encode(1)), s[1..])
    case Sub1 => PushResult(SubValues(ctx, s[0], ctx.encode(1)), s[1..])
    case BoolAnd => Done([BoolBytes(AsBool(s[1]) && AsBool(s[0]))] + s[2..])
    case BoolOr => Done([BoolBytes(AsBool(s[1]) || AsBool(s[0]))] + s[2..])
    case Min => PushResult(MinValues(ctx, s[1], s[0]), s[2..])
    case Max => PushResult(MaxValues(ctx, s[1], s[0]), s[2..])
    case Size => Done([ctx.encode(|s[0].bytes|)] + s)
    case TxSigHash => Done([ctx.sigHash] + s)
    case Named(name, k) => PushResult(ctx.call(name, Reverse(s[..k])), s[k..])
  }

  /** The code after the first label `l`. Compiled contracts jump forward only, so a jump looks for
      its label in the code that follows it. */
  function After(code: seq<Op>, l: string): (r: Option<seq<Op>>)
    ensures r.Some? ==> |r.value| < |code|
  {
    if code == [] then None
    else if code[0] == Label(l) then Some(code[1..])
    else After(code[1..], l)
  }

  function Run(ctx: Context, code: seq<Op>, s: Stack): (r: Outcome)
    decreases |code|
  {
    if code == [] then Done(s) else
    var op, rest := code[0], code[1..];
    if !IsControl(op) then
      var r := ctx.exec(op, s);
      if r.Done? then Run(ctx, rest, r.stack) else r
    else if op.Label? then Run(ctx, rest, s)
    else if op.Jump? then JumpTo(ctx, rest, s, op.target)
    else if s == [] then Underflow
    else if AsBool(s[0]) then JumpTo(ctx, rest, s[1..], op.target)
    else Run(ctx, rest, s[1..])
  }

  /** The outcome of jumping to label `l` in `code`. */
  function JumpTo(ctx: Context, code: seq<Op>, s: Stack, l: string): (r: Outcome)
    decreases |code|
  {
    if After(code, l).None? then Failed else Run(ctx, After(code, l).value, s)
  }

  /** The program is accepted: it runs through and leaves a true value on top. */
  predicate Accepts(r: Outcome) {
    r.Done? && r.stack != [] && AsBool(r.stack[0])
  }

  // ----- running code piece by piece

  predicate Straight(code: seq<Op>) {
    forall i :: 0 <= i < |code| ==> !IsControl(code[i])
  }

  function Then(ctx: Context, r: Outcome, code: seq<Op>): (q: Outcome) {
    if r.Done? then Run(ctx, code, r.stack) else r
  }

  lemma {:induction false} RunAppend(ctx: Context, a: seq<Op>, b: seq<Op>, s: Stack)
    requires Straight(a)
    ensures Run(ctx, a + b, s) == Then(ctx, Run(ctx, a, s), b)
    decreases |a|
  {
    if a == [] {
      assert a + b == b;
    } else {
      assert (a + b)[1..] == a[1..] + b;
      var r := ctx.exec(a[0], s);
      if r.Done? {
        RunAppend(ctx, a[1..], b, r.stack);
      }
    }
  }

  lemma {:induction false} RunControl(ctx: Context, l: string, rest: seq<Op>, v: Value, s: Stack)
    ensures Run(ctx, [Label(l)] + rest, s) == Run(ctx, rest, s)
    ensures Run(ctx, [Jump(l)] + rest, s) == JumpTo(ctx, rest, s, l)
    ensures Run(ctx, [JumpIf(l)] + rest, [v] + s) == if AsBool(v) then JumpTo(ctx, rest, s, l) else Run(ctx, rest, s)
  {
    assert ([Label(l)] + rest)[1..] == rest;
    assert ([Jump(l)] + rest)[1..] == rest;
    assert ([JumpIf(l)] + rest)[1..] == rest;
    assert ([v] + s)[1..] == s;
  }

  lemma {:induction false} RunSingle(ctx: Context, op: Op, s: Stack)
    requires !IsControl(op)
    ensures Run(ctx, [op], s) == ctx.exec(op, s)
  {
    assert [op][1..] == [];
  }

  lemma {:induction false} RunOne(ctx: Context, op: Op, s: Stack)
    requires Standard(ctx) && !IsControl(op)
    ensures Run(ctx, [op], s) == Exec(ctx, op, s)
  {
    RunSingle(ctx, op, s);
  }

  /** More entries at the bottom of the stack do not matter to code that did not run out of them. */
  function Under(r: Outcome, below: Stack): (q: Outcome) {
    if r.Done? then Done(r.stack + below) else r
  }

  lemma {:induction false} ReplaceFrame(pre: Stack, s: Stack, n: nat, below: Stack)
    requires n <= |s|
    ensures pre + (s + below)[n..] == (pre + s[n..]) + below
  {
  }

  lemma {:induction false} ExecFrame(ctx: Context, op: Op, s: Stack, below: Stack)
    requires !IsControl(op) && !Exec(ctx, op, s).Underflow?
    ensures Exec(ctx, op, s + below) == Under(Exec(ctx, op, s), below)
  {
    if op.Roll? || op.Pick? {
      ShuffleFrame(ctx, op, s, below);
    } else if op in {Dup, Swap, Over, Rot, Drop, Nip, Tuck, Dup2, Dup3, Drop2, Over2, Swap2, Rot2} {
      MoveFrame(ctx, op, s, below);
    } else {
      ComputeFrame(ctx, op, s, below);
    }
  }

  lemma {:induction false} ShuffleFrame(ctx: Context, op: Op, s: Stack, below: Stack)
    requires op.Roll? || op.Pick?
    requires !Shuffle(ctx, op, s).Underflow?
    ensures Shuffle(ctx, op, s + below) == Under(Shuffle(ctx, op, s), below)
  {
    assert (s + below)[1..] == s[1..] + below;
  }

  lemma {:induction false} MoveFrame(ctx: Context, op: Op, s: Stack, below: Stack)
    requires op in {Dup, Swap, Over, Rot, Drop, Nip, Tuck, Dup2, Dup3, Drop2, Over2, Swap2, Rot2}
    requires Needs(op) <= |s|
    ensures Exec(ctx, op, s + below) == Under(Exec(ctx, op, s), below)
  {
    match op
    case Dup => ReplaceFrame([s[0]], s, 0, below);
    case Swap => ReplaceFrame([s[1], s[0]], s, 2, below);
    case Over => ReplaceFrame([s[1]], s, 0, below);
    case Rot => ReplaceFrame([s[2], s[0], s[1]], s, 3, below);
    case Drop => ReplaceFrame([], s, 1, below);
    case Nip => ReplaceFrame([s[0]], s, 2, below);
    case Tuck => ReplaceFrame([s[0], s[1], s[0]], s, 2, below);
    case Dup2 => ReplaceFrame([s[0], s[1]], s, 0, below);
    case Dup3 => ReplaceFrame([s[0], s[1], s[2]], s, 0, below);
    case Drop2 => ReplaceFrame([], s, 2, below);
    case Over2 => ReplaceFrame([s[2], s[3]], s, 0, below);
    case Swap2 => ReplaceFrame([s[2], s[3], s[0], s[1]], s, 4, below);
    case Rot2 => ReplaceFrame([s[4], s[5], s[0], s[1], s[2], s[3]], s, 6, below);
  }

  lemma {:induction false} ComputeFrame(ctx: Context, op: Op, s: Stack, below: Stack)
    requires !IsControl(op) && Needs(op) <= |s|
    requires op !in {Roll, Pick, Dup, Swap, Over, Rot, Drop, Nip, Tuck, Dup2, Dup3, Drop2, Over2, Swap2, Rot2}
    ensures Exec(ctx, op, s + below) == Under(Exec(ctx, op, s), below)
  {
    if op.Named? {
      NamedFrame(ctx, op, s, below);
    } else {
      var r := Exec(ctx, op, s);
      var n := if op.Size? then 0 else Needs(op);
      ReplaceFrame([], s, n, below);
      if r.Done? && r.stack != [] {
        ReplaceFrame([r.stack[0]], s, n, below);
      }
    }
  }

  lemma {:induction false} NamedFrame(ctx: Context, op: Op, s: Stack, below: Stack)
    requires op.Named? && op.arity <= |s|
    ensures Exec(ctx, op, s + below) == Under(Exec(ctx, op, s), below)
  {
    var r := ctx.call(op.name, Reverse(s[..op.arity]));
    assert (s + below)[..op.arity] == s[..op.arity];
    if r.Some? {
      ReplaceFrame([r.value], s, op.arity, below);
    }
  }

  lemma {:induction false} RunFrame(ctx: Context, code: seq<Op>, s: Stack, below: Stack)
    requires Standard(ctx) && Straight(code) && !Run(ctx, code, s).Underflow?
    ensures Run(ctx, code, s + below) == Under(Run(ctx, code, s), below)
    decreases |code|
  {
    if code != [] {
      var r := Exec(ctx, code[0], s);
      ExecFrame(ctx, code[0], s, below);
      if r.Done? {
        RunFrame(ctx, code[1..], r.stack, below);
      }
    }
  }
}
