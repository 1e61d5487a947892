/** How expressions are grouped, and what small ones evaluate to once read. */
module Reading {
  import opened Options
  import opened Machine
  import opened Codegen
  import opened Meanings
  import opened ExprParser

  /** The infix operators from the loosest to the tightest. */
  const LEVELS: seq<set<BinaryOp>> := [
    {LogicalOr},
    {LogicalAnd},
    {Greater, Less, GreaterEq, LessEq, Equals, Differs},
    {BitXor, BitOr, Plus, Minus},
    {BitAnd, ShiftLeft, ShiftRight, Modulo, Times, Divide}]

  /** A single operand. */
  ghost predicate Operand(t: Tree) {
    Good(t) && !t.Chain?
  }

  lemma {:induction false} LevelBinding(i: nat, p: Token)
    requires i < 5 && IsInfix(p) && Infixed(p) in LEVELS[i]
    ensures Binding(p) == i + 1
  {
  }

  /** Between three operands the operator of the tighter level takes its operands first. */
  lemma {:induction false} TighterFirst(i: nat, j: nat, p: Token, q: Token, t: Tree, u: Tree, v: Tree)
    requires i < j < 5 && IsInfix(p) && IsInfix(q) && Infixed(p) in LEVELS[i] && Infixed(q) in LEVELS[j]
    requires Operand(t) && Operand(u) && Operand(v)
    ensures ParseExpr(Yield(t) + ([p] + (Yield(u) + ([q] + Yield(v))))) == Ok(Chain(p, t, Chain(q, u, v)), [])
    ensures ParseExpr(Yield(t) + ([q] + Yield(u)) + ([p] + Yield(v))) == Ok(Chain(p, Chain(q, t, u), v), [])
  {
    LevelBinding(i, p);
    LevelBinding(j, q);
    var right, left := Chain(p, t, Chain(q, u, v)), Chain(p, Chain(q, t, u), v);
    ParsesExactly(Yield(right), right);
    ParsesExactly(Yield(left), left);
    assert Yield(left) == Yield(t) + ([q] + Yield(u)) + ([p] + Yield(v));
  }

  /** Operators of one level are taken from the left. */
  lemma {:induction false} LeftFirst(i: nat, p: Token, q: Token, t: Tree, u: Tree, v: Tree)
    requires i < 5 && IsInfix(p) && IsInfix(q) && Infixed(p) in LEVELS[i] && Infixed(q) in LEVELS[i]
    requires Operand(t) && Operand(u) && Operand(v)
    ensures ParseExpr(Yield(t) + ([p] + Yield(u)) + ([q] + Yield(v))) == Ok(Chain(q, Chain(p, t, u), v), [])
  {
    LevelBinding(i, p);
    LevelBinding(i, q);
    var left := Chain(q, Chain(p, t, u), v);
    ParsesExactly(Yield(left), left);
    assert Yield(left) == Yield(t) + ([p] + Yield(u)) + ([q] + Yield(v));
  }

  /** The tokens read as an expression that evaluates to `r`. */
  ghost predicate ReadsTo(ctx: Context, rho: Values, ts: Tokens, r: Option<Value>) {
    var p := ParseExpr(ts);
    && p.Ok? && p.rest == [] && Expression(p.value).Some?
    && Eval(ctx, rho, Expression(p.value).value) == r
  }

  /** An operator between two variables. A minus sign is one wherever an operand comes before it. */
  lemma {:induction false} ReadInfix(ctx: Context, rho: Values, p: Token, x: string, y: string)
    requires IsInfix(p) && x in rho && y in rho
    ensures ReadsTo(ctx, rho, [Ident(x), p, Ident(y)], BinaryMeaning(ctx, if p.Dash? then Minus else p.op, rho[x], rho[y]))
  {
    var t := Chain(p, Name(x), Name(y));
    assert Yield(t) == [Ident(x), p, Ident(y)];
    ParsesExactly(Yield(t), t);
  }

  lemma {:induction false} ReadPrefix(ctx: Context, rho: Values, p: Token, x: string)
    requires (p.Dash? || p.Bang? || p.Tilde?) && x in rho
    ensures ReadsTo(ctx, rho, [p, Ident(x)],
                    UnaryMeaning(ctx, if p.Dash? then Negate else if p.Bang? then LogicalNot else Invert, rho[x]))
  {
    var t := Prefix(p, Name(x));
    assert Yield(t) == [p, Ident(x)];
    ParsesExactly(Yield(t), t);
  }

  lemma {:induction false} ReadArgument(ctx: Context, rho: Values, x: string)
    requires x in rho
    ensures Expressions([Name(x)]) == Some([Var(x)]) && EvalArgs(ctx, rho, [Var(x)]) == Some([rho[x]])
  {
    var ts, es := [Name(x)], [Var(x)];
    assert ts[1..] == [] && es[1..] == [];
    assert Expression(ts[0]) == Some(Var(x)) && Expressions(ts[1..]) == Some([]);
    assert Eval(ctx, rho, es[0]) == Some(rho[x]) && EvalArgs(ctx, rho, es[1..]) == Some([]);
    assert [Var(x)] + [] == es && [rho[x]] + [] == [rho[x]];
  }

  lemma {:induction false} ReadArguments(ctx: Context, rho: Values, x: string, y: string)
    requires x in rho && y in rho
    ensures Expressions([Name(x), Name(y)]) == Some([Var(x), Var(y)])
    ensures EvalArgs(ctx, rho, [Var(x), Var(y)]) == Some([rho[x], rho[y]])
  {
    var ts, es := [Name(x), Name(y)], [Var(x), Var(y)];
    assert ts[1..] == [Name(y)] && es[1..] == [Var(y)];
    ReadArgument(ctx, rho, y);
    assert Expression(ts[0]) == Some(Var(x));
    assert Eval(ctx, rho, es[0]) == Some(rho[x]);
    assert [Var(x)] + [Var(y)] == es && [rho[x]] + [rho[y]] == [rho[x], rho[y]];
  }

  lemma {:induction false} ReadCall1(ctx: Context, rho: Values, f: string, b: Builtin, x: string)
    requires BuiltinNamed(f) == Some(b) && Arity(b) == 1 && x in rho
    ensures ReadsTo(ctx, rho, [Ident(f), LParen, Ident(x), RParen], BuiltinMeaning(ctx, b, [rho[x]]))
  {
    var t := Apply(Name(f), [Name(x)]);
    var args := [Name(x)];
    assert args[1..] == [];
    assert YieldItems(args, true) == [Ident(x)];
    assert Yield(t) == [Ident(f), LParen, Ident(x), RParen];
    ParsesExactly(Yield(t), t);
    ReadArgument(ctx, rho, x);
  }

  lemma {:induction false} ReadCall2(ctx: Context, rho: Values, f: string, b: Builtin, x: string, y: string)
    requires BuiltinNamed(f) == Some(b) && Arity(b) == 2 && x in rho && y in rho
    ensures ReadsTo(ctx, rho, [Ident(f), LParen, Ident(x), Comma, Ident(y), RParen], BuiltinMeaning(ctx, b, [rho[x], rho[y]]))
  {
    var args := [Name(x), Name(y)];
    var t := Apply(Name(f), args);
    assert args[1..] == [Name(y)] && [Name(y)][1..] == [];
    assert YieldItems([Name(y)], false) == [Comma, Ident(y)];
    assert YieldItems(args, true) == [Ident(x), Comma, Ident(y)];
    assert Yield(t) == [Ident(f), LParen, Ident(x), Comma, Ident(y), RParen];
    ParsesExactly(Yield(t), t);
    ReadArguments(ctx, rho, x, y);
  }

  /** The functions on numbers, by the names they are called with. */
  lemma {:induction false} ReadNumbers(ctx: Context, rho: Values, x: string, y: string, a: int, b: int)
    requires Standard(ctx) && x in rho && y in rho && ctx.decode(rho[x]) == Some(a) && ctx.decode(rho[y]) == Some(b)
    ensures ReadsTo(ctx, rho, [Ident("min"), LParen, Ident(x), Comma, Ident(y), RParen], Some(ctx.encode(if a < b then a else b)))
    ensures ReadsTo(ctx, rho, [Ident("max"), LParen, Ident(x), Comma, Ident(y), RParen], Some(ctx.encode(if a > b then a else b)))
    ensures a != -0x8000_0000_0000_0000 ==>
              ReadsTo(ctx, rho, [Ident("abs"), LParen, Ident(x), RParen], Some(ctx.encode(if a > 0 then a else 0 - a)))
    ensures ReadsTo(ctx, rho, [Ident("size"), LParen, Ident(x), RParen], Some(ctx.encode(|rho[x].bytes|)))
  {
    ExtremesMean(ctx, rho[x], rho[y], a, b);
    ReadCall2(ctx, rho, "min", MinOf, x, y);
    ReadCall2(ctx, rho, "max", MaxOf, x, y);
    ReadCall1(ctx, rho, "abs", AbsOf, x);
    ReadCall1(ctx, rho, "size", SizeOf, x);
  }

  /** The hashes and the signature check, by the names they are called with. */
  lemma {:induction false} ReadHashes(ctx: Context, rho: Values, x: string, y: string)
    requires x in rho && y in rho
    ensures ReadsTo(ctx, rho, [Ident("sha3"), LParen, Ident(x), RParen], ctx.call("SHA3", [rho[x]]))
    ensures ReadsTo(ctx, rho, [Ident("sha256"), LParen, Ident(x), RParen], ctx.call("SHA256", [rho[x]]))
    ensures ReadsTo(ctx, rho, [Ident("checkTxSig"), LParen, Ident(x), Comma, Ident(y), RParen],
                    ctx.call("CHECKSIG", [rho[y], ctx.sigHash, rho[x]]))
  {
    ReadCall1(ctx, rho, "sha3", Sha3, x);
    ReadCall1(ctx, rho, "sha256", Sha256, x);
    ReadCall2(ctx, rho, "checkTxSig", CheckTxSig, x, y);
  }

  /** Joining, by the names it is called with. */
  lemma {:induction false} ReadJoins(ctx: Context, rho: Values, x: string, y: string)
    requires x in rho && y in rho
    ensures ReadsTo(ctx, rho, [Ident("concat"), LParen, Ident(x), Comma, Ident(y), RParen], Some(Value(rho[y].bytes + rho[x].bytes)))
    ensures ReadsTo(ctx, rho, [Ident("concatpush"), LParen, Ident(x), Comma, Ident(y), RParen],
                    Some(Value(rho[y].bytes + Pushdata(rho[x].bytes))))
  {
    ReadCall2(ctx, rho, "concat", Concat, x, y);
    ReadCall2(ctx, rho, "concatpush", ConcatPush, x, y);
  }

  /** The tests of the block height, by the names they are called with. */
  lemma {:induction false} ReadHeights(ctx: Context, rho: Values, x: string, n: int, h: Value, height: int)
    requires Standard(ctx) && x in rho && ctx.decode(rho[x]) == Some(n)
    requires ctx.call("BLOCKHEIGHT", []) == Some(h) && ctx.decode(h) == Some(height)
    ensures ReadsTo(ctx, rho, [Ident("below"), LParen, Ident(x), RParen], Some(BoolBytes(height < n)))
    ensures ReadsTo(ctx, rho, [Ident("above"), LParen, Ident(x), RParen], Some(BoolBytes(height > n)))
  {
    HeightMeans(ctx, rho[x], h, n, height);
    ReadCall1(ctx, rho, "below", Builtin.Below, x);
    ReadCall1(ctx, rho, "above", Above, x);
  }
}
