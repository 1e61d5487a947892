/** Code generation for expressions: a symbolic stack tracks where variables are, and the last use
    of a variable moves it instead of copying it. */
module Codegen {
  import opened Options
  import opened Arithmetic
  import opened Machine
  import opened Optimizer

  // ----- expressions

  datatype UnaryOp = Negate | LogicalNot | Invert

  datatype BinaryOp =
    | LogicalOr | LogicalAnd
    | Greater | Less | GreaterEq | LessEq | Equals | Differs
    | BitXor | BitOr | Plus | Minus
    | BitAnd | ShiftLeft | ShiftRight | Modulo | Times | Divide

  datatype Builtin =
    | Sha3 | Sha256 | SizeOf | AbsOf | MinOf | MaxOf | CheckTxSig | Concat | ConcatPush | Below | Above

  datatype Expr =
    | Var(x: string)
    | Int(n: int)
    | Bool(b: bool)
    | Unary(uop: UnaryOp, e: Expr)
    | Binary(bop: BinaryOp, left: Expr, right: Expr)
    | Call(fn: Builtin, args: seq<Expr>)

  function UnaryCode(op: UnaryOp): (code: seq<Op>) {
    match op
    case Negate => [Named("NEGATE", 1)]
    case LogicalNot => [Named("NOT", 1)]
    case Invert => [Named("INVERT", 1)]
  }

  function BinaryCode(op: BinaryOp): (code: seq<Op>) {
    match op
    case LogicalOr => [BoolOr]
    case LogicalAnd => [BoolAnd]
    case Greater => [Named("GREATERTHAN", 2)]
    case Less => [Named("LESSTHAN", 2)]
    case GreaterEq => [Named("GREATERTHANOREQUAL", 2)]
    case LessEq => [Named("LESSTHANOREQUAL", 2)]
    case Equals => [Equal]
    case Differs => [Equal, Named("NOT", 1)]
    case BitXor => [Named("XOR", 2)]
    case BitOr => [Named("OR", 2)]
    case Plus => [Add]
    case Minus => [Sub]
    case BitAnd => [Named("AND", 2)]
    case ShiftLeft => [Named("LSHIFT", 2)]
    case ShiftRight => [Named("RSHIFT", 2)]
    case Modulo => [Named("MOD", 2)]
    case Times => [Named("MUL", 2)]
    case Divide => [Named("DIV", 2)]
  }

  function Arity(b: Builtin): (n: nat) {
    match b
    case MinOf | MaxOf | CheckTxSig | Concat | ConcatPush => 2
    case _ => 1
  }

  function BuiltinCode(b: Builtin): (code: seq<Op>) {
    match b
    case Sha3 => [Named("SHA3", 1)]
    case Sha256 => [Named("SHA256", 1)]
    case SizeOf => [Size, Swap, Drop]
    case AbsOf => [Named("ABS", 1)]
    case MinOf => [Min]
    case MaxOf => [Max]
    case CheckTxSig => [TxSigHash, Swap, Named("CHECKSIG", 3)]
    case Concat => [Named("CAT", 2)]
    case ConcatPush => [Named("CATPUSHDATA", 2)]
    case Below => [Named("BLOCKHEIGHT", 0), Named("GREATERTHAN", 2)]
    case Above => [Named("BLOCKHEIGHT", 0), Named("LESSTHAN", 2)]
  }

  // ----- what expressions mean

  function UnaryMeaning(ctx: Context, op: UnaryOp, x: Value): (r: Option<Value>) {
    match op
    case Negate => Number1(ctx, x, a => InRange(-a))
    case LogicalNot => Test1(ctx, x, a => a == 0)
    case Invert => Some(Value(InvertBytes(x.bytes)))
  }

  /** `x` is the left operand, `y` the right one. */
  function BinaryMeaning(ctx: Context, op: BinaryOp, x: Value, y: Value): (r: Option<Value>) {
    match op
    case LogicalOr => Some(BoolBytes(AsBool(x) || AsBool(y)))
    case LogicalAnd => Some(BoolBytes(AsBool(x) && AsBool(y)))
    case Greater => Test2(ctx, x, y, (a, b) => a > b)
    case Less => Test2(ctx, x, y, (a, b) => a < b)
    case GreaterEq => Test2(ctx, x, y, (a, b) => a >= b)
    case LessEq => Test2(ctx, x, y, (a, b) => a <= b)
    case Equals => Some(BoolBytes(x == y))
    case Differs => Some(BoolBytes(x != y))
    case BitXor => Some(Value(AllBytes((a, b) => a != b, x.bytes, y.bytes)))
    case BitOr => Some(Value(AllBytes((a, b) => a || b, x.bytes, y.bytes)))
    case Plus => AddValues(ctx, x, y)
    case Minus => SubValues(ctx, x, y)
    case BitAnd => Some(Value(CommonBytes((a, b) => a && b, x.bytes, y.bytes)))
    case ShiftLeft => Number2(ctx, x, y, (a, b) => if b < 0 then None else InRange(a * Power2(b)))
    case ShiftRight => Number2(ctx, x, y, (a, b) => if b < 0 then None else Some(a / Power2(b)))
    case Modulo => Number2(ctx, x, y, (a, b) => if b == 0 || (a == -TWO63 && b == -1) then None else Some(FloorMod(a, b)))
    case Times => Number2(ctx, x, y, (a, b) => InRange(a * b))
    case Divide => Number2(ctx, x, y, (a, b) => if b == 0 then None else InRange(Quotient(a, b)))
  }

  /** The machine sees the first argument on top, so the opcodes get the arguments last first. */
  function BuiltinMeaning(ctx: Context, b: Builtin, a: seq<Value>): (r: Option<Value>)
    requires |a| == Arity(b)
  {
    match b
    case Sha3 => ctx.call("SHA3", [a[0]])
    case Sha256 => ctx.call("SHA256", [a[0]])
    case SizeOf => Some(ctx.encode(|a[0].bytes|))
    case AbsOf => Number1(ctx, a[0], n => InRange(Abs(n)))
    case MinOf => MinValues(ctx, a[0], a[1])
    case MaxOf => MaxValues(ctx, a[0], a[1])
    case CheckTxSig => ctx.call("CHECKSIG", [a[1], ctx.sigHash, a[0]])
    case Concat => Some(Value(a[1].bytes + a[0].bytes))
    case ConcatPush => Some(Value(a[1].bytes + Pushdata(a[0].bytes)))
    case Below => var h :- ctx.call("BLOCKHEIGHT", []); Test2(ctx, a[0], h, (m, n) => m > n)
    case Above => var h :- ctx.call("BLOCKHEIGHT", []); Test2(ctx, a[0], h, (m, n) => m < n)
  }

  type Values = map<string, Value>

  function Eval(ctx: Context, rho: Values, e: Expr): (r: Option<Value>)
    decreases e, 1
  {
    match e
    case Var(x) => if x in rho then Some(rho[x]) else None
    case Int(n) => Some(ctx.encode(n))
    case Bool(b) => Some(BoolBytes(b))
    case Unary(op, f) => var v :- Eval(ctx, rho, f); UnaryMeaning(ctx, op, v)
    case Binary(op, l, r) =>
      var x :- Eval(ctx, rho, l);
      var y :- Eval(ctx, rho, r);
      BinaryMeaning(ctx, op, x, y)
    case Call(fn, args) =>
      var a :- EvalArgs(ctx, rho, args);
      if |args| != Arity(fn) then None else BuiltinMeaning(ctx, fn, a)
  }

  function EvalArgs(ctx: Context, rho: Values, args: seq<Expr>): (r: Option<seq<Value>>)
    ensures r.Some? ==> |r.value| == |args|
    decreases args, 0
  {
    if args == [] then Some([]) else
    var rest :- EvalArgs(ctx, rho, args[1..]);
    var v :- Eval(ctx, rho, args[0]);
    Some([v] + rest)
  }

  /** How often variable `x` is read. */
  function Uses(e: Expr, x: string): (n: nat)
    decreases e, 1
  {
    match e
    case Var(y) => if y == x then 1 else 0
    case Int(_) => 0
    case Bool(_) => 0
    case Unary(_, f) => Uses(f, x)
    case Binary(_, l, r) => Uses(l, x) + Uses(r, x)
    case Call(_, args) => UsesArgs(args, x)
  }

  function UsesArgs(args: seq<Expr>, x: string): (n: nat)
    decreases args, 0
  {
    if args == [] then 0 else Uses(args[0], x) + UsesArgs(args[1..], x)
  }

  function NodeCount(e: Expr): (n: nat)
    ensures n > 0
    decreases e, 1
  {
    match e
    case Unary(_, f) => 1 + NodeCount(f)
    case Binary(_, l, r) => 1 + NodeCount(l) + NodeCount(r)
    case Call(_, args) => 1 + NodeCounts(args)
    case _ => 1
  }

  function NodeCounts(args: seq<Expr>): (n: nat)
    ensures n >= |args|
    decreases args, 0
  {
    if args == [] then 0 else NodeCount(args[0]) + NodeCounts(args[1..])
  }

  // ----- operators do what they mean

  lemma {:induction false} NamedRun(ctx: Context, name: string, k: nat, s: Stack)
    requires Standard(ctx) && k <= |s|
    ensures Run(ctx, [Named(name, k)], s) == PushResult(ctx.call(name, Reverse(s[..k])), s[k..])
  {
    RunOne(ctx, Named(name, k), s);
  }

  lemma {:induction false} Reverse3<T>(a: T, b: T, c: T)
    ensures Reverse([a]) == [a] && Reverse([b, a]) == [a, b] && Reverse([c, b, a]) == [a, b, c]
  {
    assert [a][1..] == [] && [b, a][1..] == [a] && [c, b, a][1..] == [b, a];
    assert Reverse([a]) == [a];
    assert Reverse([b, a]) == Reverse([a]) + [b];
    assert Reverse([c, b, a]) == Reverse([b, a]) + [c];
  }

  lemma {:induction false} NamedRun1(ctx: Context, name: string, x: Value, s: Stack)
    requires Standard(ctx)
    ensures Run(ctx, [Named(name, 1)], [x] + s) == PushResult(ctx.call(name, [x]), s)
  {
    var w := [x] + s;
    NamedRun(ctx, name, 1, w);
    assert w[..1] == [x] && w[1..] == s;
    Reverse3(x, x, x);
  }

  lemma {:induction false} NamedRun2(ctx: Context, name: string, x: Value, y: Value, s: Stack)
    requires Standard(ctx)
    ensures Run(ctx, [Named(name, 2)], [y, x] + s) == PushResult(ctx.call(name, [x, y]), s)
  {
    var w := [y, x] + s;
    NamedRun(ctx, name, 2, w);
    assert w[..2] == [y, x] && w[2..] == s;
    Reverse3(x, y, y);
  }

  /** Two operations that agree on 64-bit numbers agree on values. */
  lemma {:induction false} SameNumber1(ctx: Context, x: Value, f: int -> Option<int>, g: int -> Option<int>)
    requires Standard(ctx) && forall a :: Fits(a) ==> f(a) == g(a)
    ensures Number1(ctx, x, f) == Number1(ctx, x, g)
  {
    if AsInt64(x).Some? {
      DecodedFits(x);
    }
  }

  lemma {:induction false} SameNumber2(ctx: Context, x: Value, y: Value, f: (int, int) -> Option<int>, g: (int, int) -> Option<int>)
    requires Standard(ctx) && forall a, b {:trigger f(a, b)} :: Fits(a) && Fits(b) ==> f(a, b) == g(a, b)
    ensures Number2(ctx, x, y, f) == Number2(ctx, x, y, g)
  {
    if AsInt64(x).Some? && AsInt64(y).Some? {
      DecodedFits(x);
      DecodedFits(y);
    }
  }

  lemma {:induction false} UnaryNamed(ctx: Context, op: UnaryOp, x: Value)
    requires Standard(ctx)
    ensures UnaryMeaning(ctx, op, x) == ctx.call(UnaryCode(op)[0].name, [x])
  {
    assert OnOne(ctx, UnaryCode(op)[0].name, x).Some?;
    if op.Negate? {
      SameNumber1(ctx, x, NegateInt64, a => InRange(-a));
    }
  }

  lemma {:induction false} UnaryCodeRight(ctx: Context, op: UnaryOp, x: Value, s: Stack)
    requires Standard(ctx)
    ensures Run(ctx, UnaryCode(op), [x] + s) == PushResult(UnaryMeaning(ctx, op, x), s)
  {
    UnaryNamed(ctx, op, x);
    NamedRun1(ctx, UnaryCode(op)[0].name, x, s);
  }

  lemma {:induction false} TimesNamed(ctx: Context, x: Value, y: Value)
    requires Standard(ctx)
    ensures BinaryMeaning(ctx, Times, x, y) == Number2(ctx, x, y, MulInt64)
  {
    forall a, b | Fits(a) && Fits(b) ensures MulInt64(a, b) == InRange(a * b) {
      MulExact(a, b);
    }
    SameNumber2(ctx, x, y, MulInt64, (a, b) => InRange(a * b));
  }

  lemma {:induction false} DivideNamed(ctx: Context, x: Value, y: Value)
    requires Standard(ctx)
    ensures BinaryMeaning(ctx, Divide, x, y) == Number2(ctx, x, y, DivInt64)
  {
    forall a, b | Fits(a) && Fits(b) ensures DivInt64(a, b) == if b == 0 then None else InRange(Quotient(a, b)) {
      if b != 0 {
        DivExact(a, b);
      }
    }
    SameNumber2(ctx, x, y, DivInt64, (a, b) => if b == 0 then None else InRange(Quotient(a, b)));
  }

  lemma {:induction false} ModuloNamed(ctx: Context, x: Value, y: Value)
    requires Standard(ctx)
    ensures BinaryMeaning(ctx, Modulo, x, y) == Number2(ctx, x, y, OpMod)
  {
    SameNumber2(ctx, x, y, OpMod, (a, b) => if b == 0 || (a == -TWO63 && b == -1) then None else Some(FloorMod(a, b)));
  }

  lemma {:induction false} ShiftLeftNamed(ctx: Context, x: Value, y: Value)
    requires Standard(ctx)
    ensures BinaryMeaning(ctx, ShiftLeft, x, y) == Number2(ctx, x, y, OpLshift)
  {
    forall a, b | Fits(a) && Fits(b) ensures OpLshift(a, b) == if b < 0 then None else InRange(a * Power2(b)) {
      if b >= 0 && a != 0 {
        LshiftExact(a, b);
      }
    }
    SameNumber2(ctx, x, y, OpLshift, (a, b) => if b < 0 then None else InRange(a * Power2(b)));
  }

  lemma {:induction false} ShiftRightNamed(ctx: Context, x: Value, y: Value)
    requires Standard(ctx)
    ensures BinaryMeaning(ctx, ShiftRight, x, y) == Number2(ctx, x, y, OpRshift)
  {
    forall a, b | Fits(a) && Fits(b) ensures OpRshift(a, b) == if b < 0 then None else Some(a / Power2(b)) {
      if b >= 0 {
        ShiftDownIs(a, b);
      }
    }
    SameNumber2(ctx, x, y, OpRshift, (a, b) => if b < 0 then None else Some(a / Power2(b)));
  }

  lemma {:induction false} BinaryNamed(ctx: Context, op: BinaryOp, x: Value, y: Value)
    requires Standard(ctx) && BinaryCode(op)[0].Named?
    ensures BinaryCode(op) == [Named(BinaryCode(op)[0].name, 2)]
    ensures BinaryMeaning(ctx, op, x, y) == ctx.call(BinaryCode(op)[0].name, [x, y])
  {
    assert OnTwo(ctx, BinaryCode(op)[0].name, x, y).Some?;
    if op.Times? {
      TimesNamed(ctx, x, y);
    } else if op.Divide? {
      DivideNamed(ctx, x, y);
    } else if op.Modulo? {
      ModuloNamed(ctx, x, y);
    } else if op.ShiftLeft? {
      ShiftLeftNamed(ctx, x, y);
    } else if op.ShiftRight? {
      ShiftRightNamed(ctx, x, y);
    }
  }

  lemma {:induction false} BoolNumber(ctx: Context, b: bool)
    requires Standard(ctx)
    ensures ctx.decode(BoolBytes(b)) == Some(if b then 1 else 0)
  {
    assert AsInt64(BoolBytes(b)) == Some(if b then 1 else 0) by {
      assert FromBytes([1]) == 1 + 256 * FromBytes([1][1..]);
    }
  }

  /** A truth value is turned round. */
  lemma {:induction false} NotBool(ctx: Context, b: bool)
    requires Standard(ctx)
    ensures ctx.call("NOT", [BoolBytes(b)]) == Some(BoolBytes(!b))
  {
    assert OnOne(ctx, "NOT", BoolBytes(b)).Some?;
    BoolNumber(ctx, b);
  }

  lemma {:induction false} DiffersRight(ctx: Context, x: Value, y: Value, s: Stack)
    requires Standard(ctx)
    ensures Run(ctx, [Equal, Named("NOT", 1)], [y, x] + s) == Done([BoolBytes(x != y)] + s)
  {
    var w := [y, x] + s;
    assert w[2..] == s;
    assert [Equal, Named("NOT", 1)] == [Equal] + [Named("NOT", 1)];
    RunAppend(ctx, [Equal], [Named("NOT", 1)], w);
    RunOne(ctx, Equal, w);
    NamedRun1(ctx, "NOT", BoolBytes(x == y), s);
    NotBool(ctx, x == y);
  }

  lemma {:induction false} BinaryCodeRight(ctx: Context, op: BinaryOp, x: Value, y: Value, s: Stack)
    requires Standard(ctx)
    ensures Run(ctx, BinaryCode(op), [y, x] + s) == PushResult(BinaryMeaning(ctx, op, x, y), s)
  {
    if op.Differs? {
      DiffersRight(ctx, x, y, s);
    } else if BinaryCode(op)[0].Named? {
      BinaryNamed(ctx, op, x, y);
      NamedRun2(ctx, BinaryCode(op)[0].name, x, y, s);
    } else {
      RunOne(ctx, BinaryCode(op)[0], [y, x] + s);
      BinaryExec(ctx, op, x, y, s);
    }
  }

  lemma {:induction false} BinaryExec(ctx: Context, op: BinaryOp, x: Value, y: Value, s: Stack)
    requires !op.Differs? && !BinaryCode(op)[0].Named?
    ensures |BinaryCode(op)| == 1 && !IsControl(BinaryCode(op)[0])
    ensures Exec(ctx, BinaryCode(op)[0], [y, x] + s) == PushResult(BinaryMeaning(ctx, op, x, y), s)
  {
    assert ([y, x] + s)[2..] == s;
  }

  lemma {:induction false} NamedRun3(ctx: Context, name: string, x: Value, y: Value, z: Value, s: Stack)
    requires Standard(ctx)
    ensures Run(ctx, [Named(name, 3)], [z, y, x] + s) == PushResult(ctx.call(name, [x, y, z]), s)
  {
    var w := [z, y, x] + s;
    NamedRun(ctx, name, 3, w);
    assert w[..3] == [z, y, x] && w[3..] == s;
    Reverse3(x, y, z);
  }

  lemma {:induction false} PutSigHash(ctx: Context, key: Value, sig: Value, s: Stack)
    requires Standard(ctx)
    ensures Run(ctx, [TxSigHash, Swap], [key, sig] + s) == Done([key, ctx.sigHash, sig] + s)
  {
    var w := [ctx.sigHash] + ([key, sig] + s);
    Run2(ctx, TxSigHash, Swap, [key, sig] + s);
    assert w[2..] == [sig] + s;
    assert [key, ctx.sigHash] + w[2..] == [key, ctx.sigHash, sig] + s;
  }

  lemma {:induction false} CheckTxSigRight(ctx: Context, key: Value, sig: Value, s: Stack)
    requires Standard(ctx)
    ensures Run(ctx, BuiltinCode(CheckTxSig), [key, sig] + s) == PushResult(ctx.call("CHECKSIG", [sig, ctx.sigHash, key]), s)
  {
    assert BuiltinCode(CheckTxSig) == [TxSigHash, Swap] + [Named("CHECKSIG", 3)];
    RunAppend(ctx, [TxSigHash, Swap], [Named("CHECKSIG", 3)], [key, sig] + s);
    PutSigHash(ctx, key, sig, s);
    NamedRun3(ctx, "CHECKSIG", sig, ctx.sigHash, key, s);
  }

  lemma {:induction false} SizeRight(ctx: Context, x: Value, s: Stack)
    requires Standard(ctx)
    ensures Run(ctx, BuiltinCode(SizeOf), [x] + s) == Done([ctx.encode(|x.bytes|)] + s)
  {
    var w := [x] + s;
    Run3(ctx, Size, Swap, Drop, w);
    var n := ctx.encode(|x.bytes|);
    assert ([n] + w)[2..] == s;
    assert ([x, n] + s)[1..] == [n] + s;
  }

  lemma {:induction false} HeightRight(ctx: Context, above: bool, x: Value, s: Stack)
    requires Standard(ctx)
    ensures Run(ctx, BuiltinCode(if above then Above else Below), [x] + s) ==
              var h := ctx.call("BLOCKHEIGHT", []);
              if h.None? then Failed
              else PushResult(if above then Test2(ctx, x, h.value, (m, n) => m < n) else Test2(ctx, x, h.value, (m, n) => m > n), s)
  {
    var cmp := if above then "LESSTHAN" else "GREATERTHAN";
    var w := [x] + s;
    assert [Named("BLOCKHEIGHT", 0), Named(cmp, 2)] == [Named("BLOCKHEIGHT", 0)] + [Named(cmp, 2)];
    RunAppend(ctx, [Named("BLOCKHEIGHT", 0)], [Named(cmp, 2)], w);
    NamedRun(ctx, "BLOCKHEIGHT", 0, w);
    assert w[..0] == [] && w[0..] == w;
    var h := ctx.call("BLOCKHEIGHT", []);
    if h.Some? {
      assert [h.value] + w == [h.value, x] + s;
      NamedRun2(ctx, cmp, x, h.value, s);
      assert OnTwo(ctx, cmp, x, h.value).Some?;
    }
  }

  lemma {:induction false} BuiltinCodeRight(ctx: Context, b: Builtin, a: seq<Value>, s: Stack)
    requires Standard(ctx) && |a| == Arity(b)
    ensures Run(ctx, BuiltinCode(b), a + s) == PushResult(BuiltinMeaning(ctx, b, a), s)
  {
    if Arity(b) == 1 {
      assert a == [a[0]];
      Builtin1Right(ctx, b, a[0], s);
    } else {
      assert a == [a[0], a[1]];
      Builtin2Right(ctx, b, a[0], a[1], s);
    }
  }

  lemma {:induction false} Builtin1Right(ctx: Context, b: Builtin, x: Value, s: Stack)
    requires Standard(ctx) && Arity(b) == 1
    ensures Run(ctx, BuiltinCode(b), [x] + s) == PushResult(BuiltinMeaning(ctx, b, [x]), s)
  {
    if b.SizeOf? {
      SizeRight(ctx, x, s);
    } else if b.Below? || b.Above? {
      HeightRight(ctx, b.Above?, x, s);
    } else {
      NamedRun1(ctx, BuiltinCode(b)[0].name, x, s);
      if b.AbsOf? {
        assert OnOne(ctx, "ABS", x).Some?;
        SameNumber1(ctx, x, AbsInt64, n => InRange(Abs(n)));
      }
    }
  }

  lemma {:induction false} Builtin2Right(ctx: Context, b: Builtin, x: Value, y: Value, s: Stack)
    requires Standard(ctx) && Arity(b) == 2
    ensures Run(ctx, BuiltinCode(b), [x, y] + s) == PushResult(BuiltinMeaning(ctx, b, [x, y]), s)
  {
    if b.CheckTxSig? {
      CheckTxSigRight(ctx, x, y, s);
    } else if b.MinOf? || b.MaxOf? {
      RunOne(ctx, if b.MinOf? then Min else Max, [x, y] + s);
      assert ([x, y] + s)[2..] == s;
    } else {
      NamedRun2(ctx, BuiltinCode(b)[0].name, y, x, s);
      assert OnTwo(ctx, BuiltinCode(b)[0].name, y, x).Some?;
    }
  }

  /** The tests come in opposites. */
  lemma {:induction false} Opposites(ctx: Context, rho: Values, l: Expr, r: Expr)
    requires Standard(ctx)
    ensures Eval(ctx, rho, Unary(LogicalNot, Binary(Equals, l, r))) == Eval(ctx, rho, Binary(Differs, l, r))
    ensures Eval(ctx, rho, Unary(LogicalNot, Binary(Less, l, r))) == Eval(ctx, rho, Binary(GreaterEq, l, r))
    ensures Eval(ctx, rho, Unary(LogicalNot, Binary(Greater, l, r))) == Eval(ctx, rho, Binary(LessEq, l, r))
  {
    BoolNumber(ctx, true);
    BoolNumber(ctx, false);
  }

  /** Dividing and taking the remainder fit together exactly for equal signs or without a remainder. */
  lemma {:induction false} DivideModulo(ctx: Context, x: Value, y: Value, a: int, b: int)
    requires Standard(ctx) && ctx.decode(x) == Some(a) && ctx.decode(y) == Some(b)
    requires BinaryMeaning(ctx, Divide, x, y).Some? && BinaryMeaning(ctx, Modulo, x, y).Some?
    ensures var q, m := ctx.decode(BinaryMeaning(ctx, Divide, x, y).value), ctx.decode(BinaryMeaning(ctx, Modulo, x, y).value);
            q.Some? && m.Some? && (q.value * b + m.value == a <==> m.value == 0 || (a >= 0) == (b >= 0))
  {
    DecodedFits(x);
    DecodedFits(y);
    DivModLaw(a, b);
    FloorModSize(a, b);
    NumberRoundTrip(ctx, Quotient(a, b));
    NumberRoundTrip(ctx, FloorMod(a, b));
  }
}
