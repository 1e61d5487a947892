/** Compiling expressions over a symbolic stack, and why the code computes the expression's value. */
module ExprCompiler {
  import opened Options
  import opened Arithmetic
  import opened Machine
  import opened Optimizer
  import opened Codegen

  // ----- the symbolic stack, top first

  /** The deepest entry named `x`, or -1. */
  function Find(stk: seq<string>, x: string): (r: int)
    ensures -1 <= r < |stk|
    ensures r >= 0 ==> stk[r] == x && forall j :: r < j < |stk| ==> stk[j] != x
    ensures r < 0 ==> x !in stk
  {
    if stk == [] then -1 else
    var r := Find(stk[1..], x);
    if r >= 0 then r + 1 else if stk[0] == x then 0 else -1
  }

  lemma {:induction false} FindIs(stk: seq<string>, x: string, i: nat)
    requires i < |stk| && stk[i] == x && forall j :: i < j < |stk| ==> stk[j] != x
    ensures Find(stk, x) == i
  {
  }

  function Occurrences(stk: seq<string>, x: string): (n: nat) {
    if stk == [] then 0 else (if stk[0] == x then 1 else 0) + Occurrences(stk[1..], x)
  }

  lemma {:induction false} NoOccurrence(stk: seq<string>, x: string)
    ensures Occurrences(stk, x) == 0 <==> x !in stk
  {
    if stk != [] {
      NoOccurrence(stk[1..], x);
    }
  }

  /** The counting search: count the entries named `x`, then walk down to the last of them. */
  method FindDeepest(stk: seq<string>, x: string) returns (pos: int)
    ensures pos == Find(stk, x)
  {
    var left := 0;
    for i := 0 to |stk|
      invariant left + Occurrences(stk[i..], x) == Occurrences(stk, x)
    {
      assert stk[i..][1..] == stk[i + 1..];
      if stk[i] == x {
        left := left + 1;
      }
    }
    NoOccurrence(stk, x);
    if left == 0 {
      return -1;
    }
    pos := 0;
    while stk[pos] != x || left != 1
      invariant 0 <= pos < |stk| && 1 <= left == Occurrences(stk[pos..], x)
      decreases |stk| - pos
    {
      assert stk[pos..][1..] == stk[pos + 1..];
      if stk[pos] == x {
        left := left - 1;
      }
      pos := pos + 1;
    }
    assert stk[pos..][1..] == stk[pos + 1..];
    NoOccurrence(stk[pos + 1..], x);
    forall j | pos < j < |stk| ensures stk[j] != x {
      assert stk[pos + 1..][j - pos - 1] == stk[j];
    }
    FindIs(stk, x, pos);
  }

  /** Drop up to `n` entries. */
  function DropN(stk: seq<string>, n: nat): (r: seq<string>) {
    if |stk| <= n then [] else stk[n..]
  }

  lemma {:induction false} FindPush(stk: seq<string>, y: string, x: string)
    requires Find(stk, x) >= 0
    ensures Find([y] + stk, x) == Find(stk, x) + 1
  {
    FindIs([y] + stk, x, Find(stk, x) + 1);
  }

  lemma {:induction false} FindDrop(stk: seq<string>, n: nat, x: string)
    requires n <= Find(stk, x)
    ensures Find(DropN(stk, n), x) == Find(stk, x) - n
  {
    FindIs(DropN(stk, n), x, Find(stk, x) - n);
  }

  /** Moving another variable's deepest entry to the top shifts `w` by at most one. */
  lemma {:induction false} FindRoll(stk: seq<string>, d: nat, w: string)
    requires d < |stk| && Find(stk, w) >= 0 && stk[d] != w
    ensures Find(RollTo(stk, d), w) == if Find(stk, w) < d then Find(stk, w) + 1 else Find(stk, w)
  {
    var r, f := RollTo(stk, d), Find(stk, w);
    var i := if f < d then f + 1 else f;
    forall j | i < j < |r| ensures r[j] != w {
      assert r[j] == if j <= d then stk[j - 1] else stk[j];
    }
    FindIs(r, w, i);
  }

  // ----- the compiler

  type Counts = map<string, nat>

  function Count(c: Counts, x: string): (n: nat) {
    if x in c then c[x] else 0
  }

  /** The description the compiler puts on the symbolic stack for a computed value. Nothing below
      depends on it, so it is left open. */
  type Names = Expr -> string

  datatype Out = Out(code: seq<Op>, stk: seq<string>, counts: Counts)

  /** Bring the variable at depth `d` to the top: move it for its last use, else copy it. */
  function Fetch(d: nat, final: bool): (code: seq<Op>) {
    if d == 0 then (if final then [] else [Dup])
    else if d == 1 then (if final then [Swap] else [Over])
    else if final then [Push(d), Roll]
    else [Push(d), Pick]
  }

  function CompileRef(x: string, stk: seq<string>, counts: Counts): (r: Option<Out>) {
    var d := Find(stk, x);
    if d < 0 then None else
    var left := if Count(counts, x) > 0 then counts[x := counts[x] - 1] else counts;
    var final := Count(counts, x) == 1;
    Some(Out(Fetch(d, final), if final then RollTo(stk, d) else [stk[d]] + stk, left))
  }

  function Compile(names: Names, e: Expr, stk: seq<string>, counts: Counts): (r: Option<Out>)
    decreases e, 1
  {
    match e
    case Var(x) => CompileRef(x, stk, counts)
    case Int(n) => Some(Out([Push(n)], [names(e)] + stk, counts))
    case Bool(b) => Some(Out([if b then True else False], [names(e)] + stk, counts))
    case Unary(op, f) =>
      var c :- Compile(names, f, stk, counts);
      Some(Out(c.code + UnaryCode(op), c.stk, c.counts))
    case Binary(op, l, r) =>
      var a :- Compile(names, l, stk, counts);
      var b :- Compile(names, r, a.stk, a.counts);
      Some(Out(a.code + b.code + BinaryCode(op), [names(e)] + DropN(b.stk, 2), b.counts))
    case Call(fn, args) =>
      if |args| != Arity(fn) then None else
      var a :- CompileArgs(names, args, stk, counts);
      Some(Out(a.code + BuiltinCode(fn), [names(e)] + DropN(a.stk, |args|), a.counts))
  }

  /** Arguments are compiled last to first. */
  function CompileArgs(names: Names, args: seq<Expr>, stk: seq<string>, counts: Counts): (r: Option<Out>)
    decreases args, 0
  {
    if args == [] then Some(Out([], stk, counts)) else
    var rest :- CompileArgs(names, args[1..], stk, counts);
    var a :- Compile(names, args[0], rest.stk, rest.counts);
    Some(Out(rest.code + a.code, a.stk, a.counts))
  }

  // ----- correctness

  /** The symbolic stack describes the machine's: below the top `k` temporaries, every variable
      that is still needed sits where `Find` says. */
  ghost predicate Located(stk: seq<string>, rt: Stack, counts: Counts, rho: Values, k: nat) {
    && |stk| == |rt| && k <= |rt|
    && forall x {:trigger Find(stk, x)} :: x in rho && Count(counts, x) > 0 ==> k <= Find(stk, x) && rt[Find(stk, x)] == rho[x]
  }

  /** Outcome `r`, reached from stack `rt`, has the values `vs` on top of the `k` temporaries, has
      lost nothing but finished variables, and is described by `stk` and `counts`. */
  ghost predicate Leaves(stk: seq<string>, counts: Counts, r: Outcome, rt: Stack, rho: Values, k: nat, vs: Option<seq<Value>>)
    requires k <= |rt|
  {
    if vs.None? then r.Failed? else
    var n := |vs.value|;
    && r.Done? && |r.stack| <= |rt| + n
    && Located(stk, r.stack, counts, rho, k + n)
    && r.stack[..n] == vs.value && r.stack[n..n + k] == rt[..k]
  }

  lemma {:induction false} FetchRuns(ctx: Context, d: nat, final: bool, rt: Stack)
    requires Standard(ctx) && d < |rt| && d < TWO63
    ensures Run(ctx, Fetch(d, final), rt) == Done(if final then RollTo(rt, d) else [rt[d]] + rt)
  {
    if d >= 2 {
      RunReach(ctx, if final then Roll else Pick, d, rt);
    } else if d == 1 {
      RunOne(ctx, if final then Swap else Over, rt);
      assert RollTo(rt, 1) == [rt[1], rt[0]] + rt[2..];
    } else {
      RunOne(ctx, Dup, rt);
      assert RollTo(rt, 0) == rt;
    }
  }

  /** Copying a needed variable to the top keeps everything located. */
  lemma {:induction false} LocatedCopy(stk: seq<string>, rt: Stack, counts: Counts, after: Counts, rho: Values, k: nat, d: nat)
    requires Located(stk, rt, counts, rho, k) && d < |stk|
    requires forall x :: Count(after, x) <= Count(counts, x)
    ensures Located([stk[d]] + stk, [rt[d]] + rt, after, rho, k + 1)
  {
    forall w | w in rho && Count(after, w) > 0
      ensures k + 1 <= Find([stk[d]] + stk, w) && ([rt[d]] + rt)[Find([stk[d]] + stk, w)] == rho[w]
    {
      FindPush(stk, stk[d], w);
    }
  }

  /** Moving a variable that is not needed again keeps everything else located. */
  lemma {:induction false} LocatedMove(stk: seq<string>, rt: Stack, counts: Counts, after: Counts, rho: Values, k: nat, d: nat)
    requires Located(stk, rt, counts, rho, k) && k <= d < |stk| && Count(after, stk[d]) == 0
    requires forall x :: Count(after, x) <= Count(counts, x)
    ensures Located(RollTo(stk, d), RollTo(rt, d), after, rho, k + 1)
  {
    forall w | w in rho && Count(after, w) > 0
      ensures k + 1 <= Find(RollTo(stk, d), w) && RollTo(rt, d)[Find(RollTo(stk, d), w)] == rho[w]
    {
      FindRoll(stk, d, w);
    }
  }

  lemma {:induction false} LeavesCopy(stk: seq<string>, rt: Stack, counts: Counts, after: Counts, rho: Values, k: nat, d: nat)
    requires Located(stk, rt, counts, rho, k) && d < |stk|
    requires forall x :: Count(after, x) <= Count(counts, x)
    ensures Leaves([stk[d]] + stk, after, Done([rt[d]] + rt), rt, rho, k, Some([rt[d]]))
  {
    LocatedCopy(stk, rt, counts, after, rho, k, d);
    assert ([rt[d]] + rt)[1..1 + k] == rt[..k];
  }

  lemma {:induction false} LeavesMove(stk: seq<string>, rt: Stack, counts: Counts, after: Counts, rho: Values, k: nat, d: nat)
    requires Located(stk, rt, counts, rho, k) && k <= d < |stk| && Count(after, stk[d]) == 0
    requires forall x :: Count(after, x) <= Count(counts, x)
    ensures Leaves(RollTo(stk, d), after, Done(RollTo(rt, d)), rt, rho, k, Some([rt[d]]))
  {
    LocatedMove(stk, rt, counts, after, rho, k, d);
    assert RollTo(rt, d)[1..1 + k] == rt[..k];
    assert RollTo(rt, d)[..1] == [rt[d]];
  }

  lemma {:induction false} RefCorrect(ctx: Context, x: string, stk: seq<string>, counts: Counts, rt: Stack, rho: Values, k: nat)
    requires Standard(ctx)
    requires Located(stk, rt, counts, rho, k) && |rt| < TWO63
    requires x in rho && Count(counts, x) > 0
    ensures var r := CompileRef(x, stk, counts);
            && r.Some? && Leaves(r.value.stk, r.value.counts, Run(ctx, r.value.code, rt), rt, rho, k, Some([rho[x]]))
            && forall y :: Count(counts, y) == Count(r.value.counts, y) + Uses(Var(x), y)
  {
    var d := Find(stk, x);
    var out := CompileRef(x, stk, counts).value;
    var final := Count(counts, x) == 1;
    FetchRuns(ctx, d, final, rt);
    if final {
      LeavesMove(stk, rt, counts, out.counts, rho, k, d);
    } else {
      LeavesCopy(stk, rt, counts, out.counts, rho, k, d);
    }
  }

  // ----- what does not depend on the run

  lemma {:induction false} TablesStraight(u: UnaryOp, b: BinaryOp, f: Builtin)
    ensures Straight(UnaryCode(u)) && Straight(BinaryCode(b)) && Straight(BuiltinCode(f))
  {
  }

  lemma {:induction false} StraightConcat(a: seq<Op>, b: seq<Op>)
    requires Straight(a) && Straight(b)
    ensures Straight(a + b)
  {
  }

  lemma {:induction false} CompileStraight(names: Names, e: Expr, stk: seq<string>, counts: Counts)
    requires Compile(names, e, stk, counts).Some?
    ensures Straight(Compile(names, e, stk, counts).value.code)
    decreases e, 1
  {
    match e
    case Var(_) =>
    case Int(_) =>
    case Bool(_) =>
    case Unary(op, f) =>
      CompileStraight(names, f, stk, counts);
      TablesStraight(op, Plus, Sha3);
      StraightConcat(Compile(names, f, stk, counts).value.code, UnaryCode(op));
    case Binary(op, l, r) =>
      var a := Compile(names, l, stk, counts).value;
      var b := Compile(names, r, a.stk, a.counts).value;
      CompileStraight(names, l, stk, counts);
      CompileStraight(names, r, a.stk, a.counts);
      TablesStraight(Negate, op, Sha3);
      StraightConcat(a.code, b.code);
      StraightConcat(a.code + b.code, BinaryCode(op));
    case Call(fn, args) =>
      CompileArgsStraight(names, args, stk, counts);
      TablesStraight(Negate, Plus, fn);
      StraightConcat(CompileArgs(names, args, stk, counts).value.code, BuiltinCode(fn));
  }

  lemma {:induction false} CompileArgsStraight(names: Names, args: seq<Expr>, stk: seq<string>, counts: Counts)
    requires CompileArgs(names, args, stk, counts).Some?
    ensures Straight(CompileArgs(names, args, stk, counts).value.code)
    decreases args, 0
  {
    if args != [] {
      var rest := CompileArgs(names, args[1..], stk, counts).value;
      CompileArgsStraight(names, args[1..], stk, counts);
      CompileStraight(names, args[0], rest.stk, rest.counts);
    }
  }

  /** Compiling an expression takes exactly its uses off the counts. */
  lemma {:induction false} CompileCounts(names: Names, e: Expr, stk: seq<string>, counts: Counts)
    requires Compile(names, e, stk, counts).Some? && forall x :: Uses(e, x) <= Count(counts, x)
    ensures forall x :: Count(counts, x) == Count(Compile(names, e, stk, counts).value.counts, x) + Uses(e, x)
    decreases e, 1
  {
    match e
    case Var(y) => assert Uses(e, y) == 1;
    case Int(_) =>
    case Bool(_) =>
    case Unary(_, f) =>
      assert forall x :: Uses(e, x) == Uses(f, x);
      CompileCounts(names, f, stk, counts);
    case Binary(_, l, r) =>
      assert forall x :: Uses(e, x) == Uses(l, x) + Uses(r, x);
      var a := Compile(names, l, stk, counts).value;
      CompileCounts(names, l, stk, counts);
      CompileCounts(names, r, a.stk, a.counts);
    case Call(_, args) =>
      assert forall x :: Uses(e, x) == UsesArgs(args, x);
      CompileArgsCounts(names, args, stk, counts);
  }

  lemma {:induction false} CompileArgsCounts(names: Names, args: seq<Expr>, stk: seq<string>, counts: Counts)
    requires CompileArgs(names, args, stk, counts).Some? && forall x :: UsesArgs(args, x) <= Count(counts, x)
    ensures forall x :: Count(counts, x) == Count(CompileArgs(names, args, stk, counts).value.counts, x) + UsesArgs(args, x)
    decreases args, 0
  {
    if args != [] {
      assert forall x :: UsesArgs(args, x) == Uses(args[0], x) + UsesArgs(args[1..], x);
      var rest := CompileArgs(names, args[1..], stk, counts).value;
      CompileArgsCounts(names, args[1..], stk, counts);
      CompileCounts(names, args[0], rest.stk, rest.counts);
    }
  }

  // ----- putting code together

  function Both(a: Option<seq<Value>>, b: Option<seq<Value>>): (r: Option<seq<Value>>) {
    if a.None? || b.None? then None else Some(b.value + a.value)
  }

  /** Code that leaves `vs1` followed by code that leaves `vs2` on top of them. */
  lemma {:induction false} LeavesSeq(ctx: Context, a: seq<Op>, b: seq<Op>, o1: Out, o2: Out, rt: Stack, rho: Values, k: nat,
                  vs1: Option<seq<Value>>, vs2: Option<seq<Value>>)
    requires Straight(a) && k <= |rt|
    requires Leaves(o1.stk, o1.counts, Run(ctx, a, rt), rt, rho, k, vs1)
    requires vs1.Some? ==> var m := Run(ctx, a, rt).stack; Leaves(o2.stk, o2.counts, Run(ctx, b, m), m, rho, k + |vs1.value|, vs2)
    ensures Leaves(o2.stk, o2.counts, Run(ctx, a + b, rt), rt, rho, k, Both(vs1, vs2))
  {
    RunAppend(ctx, a, b, rt);
    var r1 := Run(ctx, a, rt);
    if vs1.Some? && vs2.Some? {
      LeavesSeqCore(o2, r1.stack, Run(ctx, b, r1.stack).stack, rt, rho, k, vs1.value, vs2.value);
    }
  }

  lemma {:induction false} SliceParts(a: Stack, b: Stack, n: nat)
    requires a == b && n <= |a|
    ensures a[..n] == b[..n] && a[n..] == b[n..]
  {
  }

  lemma {:induction false} LeavesSeqCore(o2: Out, m: Stack, r: Stack, rt: Stack, rho: Values, k: nat, vs1: seq<Value>, vs2: seq<Value>)
    requires k + |vs1| <= |m| <= |rt| + |vs1| && k <= |rt|
    requires m[..|vs1|] == vs1 && m[|vs1|..|vs1| + k] == rt[..k]
    requires Leaves(o2.stk, o2.counts, Done(r), m, rho, k + |vs1|, Some(vs2))
    ensures Leaves(o2.stk, o2.counts, Done(r), rt, rho, k, Some(vs2 + vs1))
  {
    var n1, n2 := |vs1|, |vs2|;
    SliceParts(r[n2..n2 + (k + n1)], m[..k + n1], n1);
    assert r[n2..n2 + n1] == r[n2..n2 + (k + n1)][..n1];
    assert r[n2 + n1..n2 + n1 + k] == r[n2..n2 + (k + n1)][n1..];
    assert m[..n1] == m[..k + n1][..n1] && m[n1..n1 + k] == m[..k + n1][n1..];
    assert r[..n2 + n1] == r[..n2] + r[n2..n2 + n1];
  }

  /** Two pieces of code, one run after the other, and the values they leave. */
  datatype Parts = Parts(first: Out, second: Out, vs: Option<seq<Value>>, ws: Option<seq<Value>>)

  ghost predicate PartsLeave(ctx: Context, p: Parts, rt: Stack, rho: Values, k: nat)
    requires k <= |rt|
  {
    var m := Run(ctx, p.first.code, rt);
    && Leaves(p.first.stk, p.first.counts, m, rt, rho, k, p.vs)
    && (p.vs.Some? ==> Leaves(p.second.stk, p.second.counts, Run(ctx, p.second.code, m.stack), m.stack, rho, k + |p.vs.value|, p.ws))
  }

  lemma {:induction false} PartsJoin(ctx: Context, p: Parts, rt: Stack, rho: Values, k: nat)
    requires k <= |rt| && Straight(p.first.code) && PartsLeave(ctx, p, rt, rho, k)
    ensures Leaves(p.second.stk, p.second.counts, Run(ctx, p.first.code + p.second.code, rt), rt, rho, k, Both(p.vs, p.ws))
  {
    LeavesSeq(ctx, p.first.code, p.second.code, p.first, p.second, rt, rho, k, p.vs, p.ws);
  }

  lemma {:induction false} LocatedOp(stk: seq<string>, rt: Stack, counts: Counts, rho: Values, k: nat, n: nat, name: string, v: Value)
    requires Located(stk, rt, counts, rho, k + n)
    ensures Located([name] + DropN(stk, n), [v] + rt[n..], counts, rho, k + 1)
  {
    forall x | x in rho && Count(counts, x) > 0
      ensures k + 1 <= Find([name] + DropN(stk, n), x) && ([v] + rt[n..])[Find([name] + DropN(stk, n), x)] == rho[x]
    {
      FindDrop(stk, n, x);
      FindPush(DropN(stk, n), name, x);
    }
  }

  function Single(v: Option<Value>): (r: Option<seq<Value>>) {
    if v.None? then None else Some([v.value])
  }

  /** An operator applied to the values on top. */
  lemma {:induction false} LeavesOp(ctx: Context, a: seq<Op>, op: seq<Op>, o: Out, rt: Stack, rho: Values, k: nat,
                 vs: Option<seq<Value>>, n: nat, name: string, v: Option<Value>)
    requires Straight(a) && k <= |rt| && Leaves(o.stk, o.counts, Run(ctx, a, rt), rt, rho, k, vs)
    requires vs.None? ==> v.None?
    requires vs.Some? ==> 0 < n == |vs.value| && forall s {:trigger Run(ctx, op, vs.value + s)} :: Run(ctx, op, vs.value + s) == PushResult(v, s)
    ensures Leaves([name] + DropN(o.stk, n), o.counts, Run(ctx, a + op, rt), rt, rho, k, Single(v))
  {
    RunAppend(ctx, a, op, rt);
    if vs.Some? {
      var m := Run(ctx, a, rt).stack;
      assert m == vs.value + m[n..];
      if v.Some? {
        LocatedOp(o.stk, m, o.counts, rho, k, n, name, v.value);
        assert ([v.value] + m[n..])[1..1 + k] == m[n..n + k];
      }
    }
  }

  // ----- the theorem

  /** Where the variables an expression reads are parameters, the compiled code runs without
      underflow, leaves the expression's value on top (or fails exactly when the expression has none)
      and keeps every still needed variable where `Find` says. */
  lemma {:induction false} ExprCorrect(ctx: Context, names: Names, e: Expr, stk: seq<string>, counts: Counts, rt: Stack, rho: Values, k: nat)
    requires Standard(ctx)
    requires Located(stk, rt, counts, rho, k) && |rt| + NodeCount(e) <= TWO63
    requires forall x :: Uses(e, x) > 0 ==> x in rho
    requires forall x :: Uses(e, x) <= Count(counts, x)
    requires Compile(names, e, stk, counts).Some?
    ensures var out := Compile(names, e, stk, counts).value;
            Leaves(out.stk, out.counts, Run(ctx, out.code, rt), rt, rho, k, Single(Eval(ctx, rho, e)))
    decreases e, 1
  {
    match e
    case Var(x) =>
      assert Uses(e, x) == 1;
      RefCorrect(ctx, x, stk, counts, rt, rho, k);
    case Int(n) => LiteralCorrect(ctx, Push(n), names(e), ctx.encode(n), stk, counts, rt, rho, k);
    case Bool(b) => LiteralCorrect(ctx, if b then True else False, names(e), BoolBytes(b), stk, counts, rt, rho, k);
    case Unary(op, f) => UnaryCorrect(ctx, names, e, stk, counts, rt, rho, k);
    case Binary(op, l, r) => BinaryCorrect(ctx, names, e, stk, counts, rt, rho, k);
    case Call(fn, args) => CallCorrect(ctx, names, e, stk, counts, rt, rho, k);
  }

  lemma {:induction false} LiteralCorrect(ctx: Context, op: Op, name: string, v: Value, stk: seq<string>, counts: Counts, rt: Stack, rho: Values, k: nat)
    requires Standard(ctx)
    requires Located(stk, rt, counts, rho, k)
    requires !IsControl(op) && Exec(ctx, op, rt) == Done([v] + rt)
    ensures Leaves([name] + stk, counts, Run(ctx, [op], rt), rt, rho, k, Some([v]))
  {
    RunOne(ctx, op, rt);
    LocatedOp(stk, rt, counts, rho, k, 0, name, v);
    assert DropN(stk, 0) == stk && rt[0..] == rt;
    assert ([v] + rt)[1..1 + k] == rt[..k];
  }

  lemma {:induction false} UnaryCorrect(ctx: Context, names: Names, e: Expr, stk: seq<string>, counts: Counts, rt: Stack, rho: Values, k: nat)
    requires Standard(ctx)
    requires e.Unary?
    requires Located(stk, rt, counts, rho, k) && |rt| + NodeCount(e) <= TWO63
    requires forall x :: Uses(e, x) > 0 ==> x in rho
    requires forall x :: Uses(e, x) <= Count(counts, x)
    requires Compile(names, e, stk, counts).Some?
    ensures var out := Compile(names, e, stk, counts).value;
            Leaves(out.stk, out.counts, Run(ctx, out.code, rt), rt, rho, k, Single(Eval(ctx, rho, e)))
    decreases e, 0
  {
    assert forall x :: Uses(e, x) == Uses(e.e, x);
    var c := Compile(names, e.e, stk, counts).value;
    ExprCorrect(ctx, names, e.e, stk, counts, rt, rho, k);
    CompileStraight(names, e.e, stk, counts);
    var v := Eval(ctx, rho, e.e);
    if v.Some? {
      forall s ensures Run(ctx, UnaryCode(e.uop), [v.value] + s) == PushResult(UnaryMeaning(ctx, e.uop, v.value), s) {
        UnaryCodeRight(ctx, e.uop, v.value, s);
      }
      assert c.stk == [c.stk[0]] + DropN(c.stk, 1);
    }
    LeavesOp(ctx, c.code, UnaryCode(e.uop), c, rt, rho, k, Single(v), 1, if c.stk == [] then "" else c.stk[0], Eval(ctx, rho, e));
  }

  lemma {:induction false} BinaryCorrect(ctx: Context, names: Names, e: Expr, stk: seq<string>, counts: Counts, rt: Stack, rho: Values, k: nat)
    requires Standard(ctx)
    requires e.Binary?
    requires Located(stk, rt, counts, rho, k) && |rt| + NodeCount(e) <= TWO63
    requires forall x :: Uses(e, x) > 0 ==> x in rho
    requires forall x :: Uses(e, x) <= Count(counts, x)
    requires Compile(names, e, stk, counts).Some?
    ensures var out := Compile(names, e, stk, counts).value;
            Leaves(out.stk, out.counts, Run(ctx, out.code, rt), rt, rho, k, Single(Eval(ctx, rho, e)))
    decreases e, 0, 1
  {
    var a := Compile(names, e.left, stk, counts).value;
    var b := Compile(names, e.right, a.stk, a.counts).value;
    var x, y := Eval(ctx, rho, e.left), Eval(ctx, rho, e.right);
    BinaryParts(ctx, names, e, stk, counts, rt, rho, k);
    CompileStraight(names, e.left, stk, counts);
    CompileStraight(names, e.right, a.stk, a.counts);
    PartsJoin(ctx, Parts(a, b, Single(x), Single(y)), rt, rho, k);
    if x.Some? && y.Some? {
      BinaryOnTop(ctx, e.bop, x.value, y.value);
    }
    LeavesOp(ctx, a.code + b.code, BinaryCode(e.bop), b, rt, rho, k, Both(Single(x), Single(y)), 2, names(e), Eval(ctx, rho, e));
  }

  lemma {:induction false} BinaryOnTop(ctx: Context, op: BinaryOp, x: Value, y: Value)
    requires Standard(ctx)
    ensures forall s {:trigger Run(ctx, BinaryCode(op), ([y] + [x]) + s)} ::
      Run(ctx, BinaryCode(op), ([y] + [x]) + s) == PushResult(BinaryMeaning(ctx, op, x, y), s)
  {
    assert [y] + [x] == [y, x];
    forall s ensures Run(ctx, BinaryCode(op), ([y] + [x]) + s) == PushResult(BinaryMeaning(ctx, op, x, y), s) {
      BinaryCodeRight(ctx, op, x, y, s);
    }
  }

  lemma {:induction false} BinaryUses(names: Names, e: Expr, stk: seq<string>, counts: Counts, rho: Values)
    requires e.Binary? && Compile(names, e, stk, counts).Some?
    requires forall x :: Uses(e, x) > 0 ==> x in rho
    requires forall x :: Uses(e, x) <= Count(counts, x)
    ensures forall x :: Uses(e.left, x) > 0 ==> x in rho
    ensures forall x :: Uses(e.left, x) <= Count(counts, x)
    ensures forall x :: Uses(e.right, x) > 0 ==> x in rho
    ensures forall x :: Uses(e.right, x) <= Count(Compile(names, e.left, stk, counts).value.counts, x)
  {
    assert forall x :: Uses(e, x) == Uses(e.left, x) + Uses(e.right, x);
    CompileCounts(names, e.left, stk, counts);
  }

  lemma {:induction false} BinaryParts(ctx: Context, names: Names, e: Expr, stk: seq<string>, counts: Counts, rt: Stack, rho: Values, k: nat)
    requires Standard(ctx)
    requires e.Binary?
    requires Located(stk, rt, counts, rho, k) && |rt| + NodeCount(e) <= TWO63
    requires forall x :: Uses(e, x) > 0 ==> x in rho
    requires forall x :: Uses(e, x) <= Count(counts, x)
    requires Compile(names, e, stk, counts).Some?
    ensures var a := Compile(names, e.left, stk, counts).value;
            var b := Compile(names, e.right, a.stk, a.counts).value;
            PartsLeave(ctx, Parts(a, b, Single(Eval(ctx, rho, e.left)), Single(Eval(ctx, rho, e.right))), rt, rho, k)
    decreases e, 0, 0
  {
    var a := Compile(names, e.left, stk, counts).value;
    BinaryUses(names, e, stk, counts, rho);
    ExprCorrect(ctx, names, e.left, stk, counts, rt, rho, k);
    if Eval(ctx, rho, e.left).Some? {
      ExprCorrect(ctx, names, e.right, a.stk, a.counts, Run(ctx, a.code, rt).stack, rho, k + 1);
    }
  }

  lemma {:induction false} CallCorrect(ctx: Context, names: Names, e: Expr, stk: seq<string>, counts: Counts, rt: Stack, rho: Values, k: nat)
    requires Standard(ctx)
    requires e.Call?
    requires Located(stk, rt, counts, rho, k) && |rt| + NodeCount(e) <= TWO63
    requires forall x :: Uses(e, x) > 0 ==> x in rho
    requires forall x :: Uses(e, x) <= Count(counts, x)
    requires Compile(names, e, stk, counts).Some?
    ensures var out := Compile(names, e, stk, counts).value;
            Leaves(out.stk, out.counts, Run(ctx, out.code, rt), rt, rho, k, Single(Eval(ctx, rho, e)))
    decreases e, 0
  {
    assert forall x :: Uses(e, x) == UsesArgs(e.args, x);
    var a := CompileArgs(names, e.args, stk, counts).value;
    ArgsCorrect(ctx, names, e.args, stk, counts, rt, rho, k);
    CompileArgsStraight(names, e.args, stk, counts);
    var vs := EvalArgs(ctx, rho, e.args);
    if vs.Some? {
      forall s ensures Run(ctx, BuiltinCode(e.fn), vs.value + s) == PushResult(BuiltinMeaning(ctx, e.fn, vs.value), s) {
        BuiltinCodeRight(ctx, e.fn, vs.value, s);
      }
    }
    LeavesOp(ctx, a.code, BuiltinCode(e.fn), a, rt, rho, k, vs, |e.args|, names(e), Eval(ctx, rho, e));
  }

  lemma {:induction false} LeavesNothing(stk: seq<string>, counts: Counts, rt: Stack, rho: Values, k: nat)
    requires Located(stk, rt, counts, rho, k)
    ensures Leaves(stk, counts, Done(rt), rt, rho, k, Some([]))
  {
  }

  lemma {:induction false} ArgsCorrect(ctx: Context, names: Names, args: seq<Expr>, stk: seq<string>, counts: Counts, rt: Stack, rho: Values, k: nat)
    requires Standard(ctx)
    requires Located(stk, rt, counts, rho, k) && |rt| + NodeCounts(args) <= TWO63
    requires forall x :: UsesArgs(args, x) > 0 ==> x in rho
    requires forall x :: UsesArgs(args, x) <= Count(counts, x)
    requires CompileArgs(names, args, stk, counts).Some?
    ensures var out := CompileArgs(names, args, stk, counts).value;
            Leaves(out.stk, out.counts, Run(ctx, out.code, rt), rt, rho, k, EvalArgs(ctx, rho, args))
    decreases args, 0, 2
  {
    if args == [] {
      LeavesNothing(stk, counts, rt, rho, k);
    } else {
      var p := Split(ctx, names, args, stk, counts, rho);
      ArgsParts(ctx, names, args, stk, counts, rt, rho, k);
      CompileArgsStraight(names, args[1..], stk, counts);
      PartsJoin(ctx, p, rt, rho, k);
      ArgsUnfold(ctx, names, args, stk, counts, rho);
    }
  }

  ghost function Split(ctx: Context, names: Names, args: seq<Expr>, stk: seq<string>, counts: Counts, rho: Values): (p: Parts)
    requires args != [] && CompileArgs(names, args, stk, counts).Some?
  {
    var rest := CompileArgs(names, args[1..], stk, counts).value;
    Parts(rest, Compile(names, args[0], rest.stk, rest.counts).value, EvalArgs(ctx, rho, args[1..]), Single(Eval(ctx, rho, args[0])))
  }

  lemma {:induction false} ArgsParts(ctx: Context, names: Names, args: seq<Expr>, stk: seq<string>, counts: Counts, rt: Stack, rho: Values, k: nat)
    requires Standard(ctx) && args != []
    requires Located(stk, rt, counts, rho, k) && |rt| + NodeCounts(args) <= TWO63
    requires forall x :: UsesArgs(args, x) > 0 ==> x in rho
    requires forall x :: UsesArgs(args, x) <= Count(counts, x)
    requires CompileArgs(names, args, stk, counts).Some?
    ensures PartsLeave(ctx, Split(ctx, names, args, stk, counts, rho), rt, rho, k)
    decreases args, 0, 1
  {
    RestOfArgs(ctx, names, args, stk, counts, rt, rho, k);
    var p := Split(ctx, names, args, stk, counts, rho);
    if p.vs.Some? {
      FirstOfArgs(ctx, names, args, stk, counts, rt, rho, k, Run(ctx, p.first.code, rt));
    }
  }

  lemma {:induction false} RestOfArgs(ctx: Context, names: Names, args: seq<Expr>, stk: seq<string>, counts: Counts, rt: Stack, rho: Values, k: nat)
    requires Standard(ctx) && args != []
    requires Located(stk, rt, counts, rho, k) && |rt| + NodeCounts(args) <= TWO63
    requires forall x :: UsesArgs(args, x) > 0 ==> x in rho
    requires forall x :: UsesArgs(args, x) <= Count(counts, x)
    requires CompileArgs(names, args, stk, counts).Some?
    ensures var p := Split(ctx, names, args, stk, counts, rho);
            Leaves(p.first.stk, p.first.counts, Run(ctx, p.first.code, rt), rt, rho, k, p.vs)
    decreases args, 0, 0
  {
    ArgsUses(names, args, stk, counts, rho);
    ArgsCorrect(ctx, names, args[1..], stk, counts, rt, rho, k);
  }

  lemma {:induction false} FirstOfArgs(ctx: Context, names: Names, args: seq<Expr>, stk: seq<string>, counts: Counts, rt: Stack, rho: Values, k: nat, m: Outcome)
    requires Standard(ctx) && args != [] && k <= |rt| && |rt| + NodeCounts(args) <= TWO63
    requires forall x :: UsesArgs(args, x) > 0 ==> x in rho
    requires forall x :: UsesArgs(args, x) <= Count(counts, x)
    requires CompileArgs(names, args, stk, counts).Some?
    requires var p := Split(ctx, names, args, stk, counts, rho);
             p.vs.Some? && Leaves(p.first.stk, p.first.counts, m, rt, rho, k, p.vs)
    ensures var p := Split(ctx, names, args, stk, counts, rho);
            Leaves(p.second.stk, p.second.counts, Run(ctx, p.second.code, m.stack), m.stack, rho, k + |p.vs.value|, p.ws)
    decreases args, 0, 0
  {
    var p := Split(ctx, names, args, stk, counts, rho);
    ArgsUses(names, args, stk, counts, rho);
    RoomForFirst(ctx, args, rho, |rt|, |m.stack|);
    LeavesLocated(p.first.stk, p.first.counts, m, rt, rho, k, p.vs.value);
    ExprCorrect(ctx, names, args[0], p.first.stk, p.first.counts, m.stack, rho, k + |p.vs.value|);
  }

  lemma {:induction false} LeavesLocated(stk: seq<string>, counts: Counts, r: Outcome, rt: Stack, rho: Values, k: nat, vs: seq<Value>)
    requires k <= |rt| && Leaves(stk, counts, r, rt, rho, k, Some(vs))
    ensures r.Done? && |r.stack| <= |rt| + |vs| && Located(stk, r.stack, counts, rho, k + |vs|)
  {
  }

  lemma {:induction false} RoomForFirst(ctx: Context, args: seq<Expr>, rho: Values, height: nat, reached: nat)
    requires args != [] && EvalArgs(ctx, rho, args[1..]).Some? && height + NodeCounts(args) <= TWO63
    requires reached <= height + |EvalArgs(ctx, rho, args[1..]).value|
    ensures reached + NodeCount(args[0]) <= TWO63
  {
  }

  /** The uses in all arguments split into those in the later ones and those in the first. */
  lemma {:induction false} ArgsUses(names: Names, args: seq<Expr>, stk: seq<string>, counts: Counts, rho: Values)
    requires args != [] && CompileArgs(names, args, stk, counts).Some?
    requires forall x :: UsesArgs(args, x) > 0 ==> x in rho
    requires forall x :: UsesArgs(args, x) <= Count(counts, x)
    ensures forall x :: UsesArgs(args[1..], x) > 0 ==> x in rho
    ensures forall x :: UsesArgs(args[1..], x) <= Count(counts, x)
    ensures forall x :: Uses(args[0], x) > 0 ==> x in rho
    ensures forall x :: Uses(args[0], x) <= Count(CompileArgs(names, args[1..], stk, counts).value.counts, x)
  {
    assert forall x :: UsesArgs(args, x) == Uses(args[0], x) + UsesArgs(args[1..], x);
    CompileArgsCounts(names, args[1..], stk, counts);
  }

  lemma {:induction false} ArgsUnfold(ctx: Context, names: Names, args: seq<Expr>, stk: seq<string>, counts: Counts, rho: Values)
    requires args != [] && CompileArgs(names, args, stk, counts).Some?
    ensures var p := Split(ctx, names, args, stk, counts, rho);
            CompileArgs(names, args, stk, counts) == Some(Out(p.first.code + p.second.code, p.second.stk, p.second.counts)) &&
            EvalArgs(ctx, rho, args) == Both(p.vs, p.ws)
  {
  }
}
