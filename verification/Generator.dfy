/** The code generator as it runs: a builder and a table of use counts that are changed in place while
    the compiler walks the tree. Each method is tied to the function that says what it emits. */
module Generator {
  import opened Options
  import opened Machine
  import opened Optimizer
  import opened Codegen
  import opened ExprCompiler
  import opened ClauseCompiler
  import opened ContractCompiler

  lemma {:induction false} EmitEmit(b: Build, x: seq<Op>, y: seq<Op>)
    ensures Emit(Emit(b, x), y) == Emit(b, x + y)
  {
    assert Flush(b).items + x + y == Flush(b).items + (x + y);
  }

  lemma {:induction false} ArgsFail(names: Names, args: seq<Expr>, i: nat, stk: seq<string>, counts: Counts)
    requires i <= |args| && CompileArgs(names, args[i..], stk, counts).None?
    ensures CompileArgs(names, args, stk, counts).None?
    decreases i
  {
    if i == 0 {
      assert args[0..] == args;
    } else {
      assert args[i - 1..][1..] == args[i..];
      ArgsFail(names, args, i - 1, stk, counts);
    }
  }

  class Generator {
    const names: Names
    var items: seq<Op>
    var pendingVerify: bool
    var counts: Counts

    constructor (names: Names)
      ensures this.names == names && Built() == Build([], false)
    {
      this.names := names;
      items, pendingVerify, counts := [], false, map[];
    }

    ghost function Built(): (b: Build)
      reads this
    {
      Build(items, pendingVerify)
    }

    method Add(ops: seq<Op>)
      requires ops != []
      modifies `items, `pendingVerify
      ensures Built() == Emit(old(Built()), ops)
    {
      if pendingVerify {
        items := items + [Verify];
        pendingVerify := false;
      }
      items := items + ops;
    }

    method AddVerify()
      modifies `items, `pendingVerify
      ensures Built() == EmitVerify(old(Built()))
    {
      if pendingVerify {
        items := items + [Verify];
      }
      pendingVerify := true;
    }

    method ForgetPendingVerify()
      modifies `pendingVerify
      ensures Built() == Build(old(items), false)
    {
      pendingVerify := false;
    }

    method Reach(op: Op, d: nat)
      modifies `items, `pendingVerify
      ensures Built() == Emit(old(Built()), [Push(d), op])
    {
      EmitEmit(Built(), [Push(d)], [op]);
      assert [Push(d)] + [op] == [Push(d), op];
      Add([Push(d)]);
      Add([op]);
    }

    /** A reference to a variable, or an error for a name that is not on the stack. */
    method CompileRef(x: string, stk: seq<string>) returns (r: Option<seq<string>>)
      modifies this
      ensures var out := ExprCompiler.CompileRef(x, stk, old(counts));
              if out.None? then r.None?
              else r == Some(out.value.stk) && counts == out.value.counts && Built() == Emit(old(Built()), out.value.code)
    {
      var depth := FindDeepest(stk, x);
      if depth < 0 {
        return None;
      }
      var final := false;
      if x in counts && counts[x] > 0 {
        counts := counts[x := counts[x] - 1];
        final := counts[x] == 0;
      }
      if depth == 0 {
        if !final {
          Add([Dup]);
        } else {
          assert RollTo(stk, 0) == stk;
        }
      } else if depth == 1 {
        Add([if final then Swap else Over]);
      } else {
        Reach(if final then Roll else Pick, depth);
      }
      r := Some(if final then RollTo(stk, depth) else [stk[depth]] + stk);
    }

    method CompileExpr(e: Expr, stk: seq<string>) returns (r: Option<seq<string>>)
      modifies this
      ensures var out := Compile(names, e, stk, old(counts));
              if out.None? then r.None?
              else r == Some(out.value.stk) && counts == out.value.counts && Built() == Emit(old(Built()), out.value.code)
      decreases e, 1
    {
      ghost var b := Built();
      match e
      case Var(x) => r := CompileRef(x, stk);
      case Int(n) =>
        Add([Push(n)]);
        r := Some([names(e)] + stk);
      case Bool(v) =>
        Add([if v then True else False]);
        r := Some([names(e)] + stk);
      case Unary(op, f) =>
        r := CompileExpr(f, stk);
        if r.Some? {
          EmitEmit(b, Compile(names, f, stk, old(counts)).value.code, UnaryCode(op));
          Add(UnaryCode(op));
        }
      case Binary(op, left, right) =>
        r := CompileBinary(e, stk);
      case Call(fn, args) =>
        if |args| != Arity(fn) {
          return None;
        }
        r := CompileArguments(e, stk);
        if r.Some? {
          EmitEmit(b, CompileArgs(names, args, stk, old(counts)).value.code, BuiltinCode(fn));
          Add(BuiltinCode(fn));
          r := Some([names(e)] + DropN(r.value, |args|));
        }
    }

    method CompileBinary(e: Expr, stk: seq<string>) returns (r: Option<seq<string>>)
      requires e.Binary?
      modifies this
      ensures var out := Compile(names, e, stk, old(counts));
              if out.None? then r.None?
              else r == Some(out.value.stk) && counts == out.value.counts && Built() == Emit(old(Built()), out.value.code)
      decreases e, 0
    {
      ghost var b := Built();
      r := CompileExpr(e.left, stk);
      if r.Some? {
        ghost var x := Compile(names, e.left, stk, old(counts)).value;
        r := CompileExpr(e.right, r.value);
        if r.Some? {
          ghost var y := Compile(names, e.right, x.stk, x.counts).value;
          EmitEmit(b, x.code, y.code);
          EmitEmit(b, x.code + y.code, BinaryCode(e.bop));
          Add(BinaryCode(e.bop));
          r := Some([names(e)] + DropN(r.value, 2));
        }
      }
    }

    /** Arguments from the last to the first. */
    method CompileArguments(e: Expr, stk: seq<string>) returns (r: Option<seq<string>>)
      requires e.Call?
      modifies this
      ensures var out := CompileArgs(names, e.args, stk, old(counts));
              if out.None? then r.None?
              else r == Some(out.value.stk) && counts == out.value.counts && Built() == Emit(old(Built()), out.value.code)
      decreases e, 0
    {
      ghost var b := Built();
      r := Some(stk);
      for i := |e.args| downto 0
        invariant r.Some?
        invariant CompileArgs(names, e.args[i..], stk, old(counts)) == Some(Out(Emitted(names, e.args[i..], stk, old(counts)), r.value, counts))
        invariant Built() == Emit(b, Emitted(names, e.args[i..], stk, old(counts)))
      {
        assert e.args[i..][1..] == e.args[i + 1..];
        ghost var rest := CompileArgs(names, e.args[i + 1..], stk, old(counts)).value;
        r := CompileExpr(e.args[i], r.value);
        if r.None? {
          ArgsFail(names, e.args, i, stk, old(counts));
          return;
        }
        EmitEmit(b, rest.code, Compile(names, e.args[i], rest.stk, rest.counts).value.code);
      }
      assert e.args[0..] == e.args;
    }

    /** References are counted before a clause is compiled. */
    method CountVarRefs(e: Expr)
      modifies `counts
      ensures counts == Tally(e, old(counts))
    {
      match e
      case Var(x) => counts := TallyName(counts, x);
      case Int(_) =>
      case Bool(_) =>
      case Unary(_, f) => CountVarRefs(f);
      case Binary(_, left, right) =>
        CountVarRefs(left);
        CountVarRefs(right);
      case Call(fn, args) =>
        counts := TallyName(counts, BuiltinName(fn));
        for i := 0 to |args|
          invariant TallyArgs(args[i..], counts) == Tally(e, old(counts))
        {
          assert args[i..][1..] == args[i + 1..];
          CountVarRefs(args[i]);
        }
    }

    method CompileStatement(stmt: Stmt, only: bool, stk: seq<string>) returns (r: Option<seq<string>>)
      modifies this
      ensures var out := CompileStmt(names, stmt, only, Gen(old(Built()), stk, old(counts)));
              if out.None? then r.None? else r.Some? && Gen(Built(), r.value, counts) == out.value
    {
      match stmt
      case VerifyStmt(e) =>
        r := CompileExpr(e, stk);
        if r.Some? {
          AddVerify();
          r := Some(DropN(r.value, 1));
        }
      case UnlockStmt(_, _) =>
        r := Some(stk);
        if only {
          Add([True]);
          r := Some(["true"] + stk);
        }
    }

    method CountStatements(stmts: seq<Stmt>)
      modifies `counts
      ensures counts == TallyStmts(stmts, map[])
    {
      counts := map[];
      assert stmts[0..] == stmts;
      for i := 0 to |stmts|
        invariant TallyStmts(stmts[i..], counts) == TallyStmts(stmts, map[])
      {
        assert stmts[i..][1..] == stmts[i + 1..];
        match stmts[i]
        case VerifyStmt(e) => CountVarRefs(e);
        case UnlockStmt(amount, asset) =>
          CountVarRefs(amount);
          CountVarRefs(asset);
      }
    }

    /** A clause: count, then compile statement by statement. */
    method CompileClause(stmts: seq<Stmt>, clauseStack: seq<string>) returns (ok: bool)
      requires !pendingVerify
      modifies this
      ensures ok == ClauseCode(names, stmts, clauseStack).Some?
      ensures ok ==> items == old(items) + ClauseCode(names, stmts, clauseStack).value
    {
      CountStatements(stmts);
      ClauseAfter(names, stmts, clauseStack, items);
      var stk := clauseStack;
      var only := |stmts| == 1;
      ghost var g := Gen(Built(), stk, counts);
      assert stmts[0..] == stmts;
      for i := 0 to |stmts|
        invariant CompileStmts(names, stmts[i..], only, Gen(Built(), stk, counts)) == CompileStmts(names, stmts, only, g)
      {
        assert stmts[i..][1..] == stmts[i + 1..];
        var next := CompileStatement(stmts[i], only, stk);
        if next.None? {
          return false;
        }
        stk := next.value;
      }
      ok := true;
    }
  }

  /** A clause behind the code `pre`. */
  lemma {:induction false} ClauseAfter(names: Names, stmts: seq<Stmt>, stk: seq<string>, pre: seq<Op>)
    ensures var r := CompileStmts(names, stmts, |stmts| == 1, Gen(Build(pre, false), stk, TallyStmts(stmts, map[])));
            var code := ClauseCode(names, stmts, stk);
            r.Some? == code.Some? && (r.Some? ==> r.value.b.items == pre + code.value)
  {
    Shifted(names, stmts, |stmts| == 1, Gen(Build([], false), stk, TallyStmts(stmts, map[])), pre);
    assert pre + [] == pre;
  }

  ghost function Emitted(names: Names, args: seq<Expr>, stk: seq<string>, counts: Counts): (code: seq<Op>) {
    var out := CompileArgs(names, args, stk, counts);
    if out.None? then [] else out.value.code
  }

  /** Code that is already there does not change what statements add to it. */
  function Shift(g: Gen, pre: seq<Op>): (r: Gen) {
    Gen(Build(pre + g.b.items, g.b.pending), g.stk, g.counts)
  }

  lemma {:induction false} Shifted(names: Names, stmts: seq<Stmt>, only: bool, g: Gen, pre: seq<Op>)
    ensures CompileStmts(names, stmts, only, Shift(g, pre)) ==
              var r := CompileStmts(names, stmts, only, g); if r.None? then None else Some(Shift(r.value, pre))
    decreases |stmts|
  {
    if stmts != [] {
      ShiftedStmt(names, stmts[0], only, g, pre);
      var h := CompileStmt(names, stmts[0], only, g);
      if h.Some? {
        Shifted(names, stmts[1..], only, h.value, pre);
      }
    }
  }

  lemma {:induction false} ShiftedEmit(b: Build, ops: seq<Op>, pre: seq<Op>)
    ensures var c := Build(pre + b.items, b.pending);
            && Emit(c, ops) == Build(pre + Emit(b, ops).items, Emit(b, ops).pending)
            && EmitVerify(c) == Build(pre + EmitVerify(b).items, true)
  {
    assert pre + b.items + [Verify] == pre + (b.items + [Verify]);
    assert pre + Flush(b).items + ops == pre + (Flush(b).items + ops);
  }

  lemma {:induction false} ShiftedStmt(names: Names, stmt: Stmt, only: bool, g: Gen, pre: seq<Op>)
    ensures CompileStmt(names, stmt, only, Shift(g, pre)) ==
              var r := CompileStmt(names, stmt, only, g); if r.None? then None else Some(Shift(r.value, pre))
  {
    match stmt
    case VerifyStmt(e) =>
      var out := Compile(names, e, g.stk, g.counts);
      if out.Some? {
        ShiftedEmit(g.b, out.value.code, pre);
        ShiftedEmit(Emit(g.b, out.value.code), [], pre);
      }
    case UnlockStmt(_, _) => ShiftedEmit(g.b, [True], pre);
  }

  // ----- contracts

  /** The first clauses of `n`, laid out. */
  function Laid(cs: seq<Body>, n: nat): (code: seq<Op>) {
    if cs == [] then [] else
    var i := |cs| - 1;
    Laid(cs[..i], n) + ([Label(cs[i].name)] + SegmentOf(cs[i].code, i, n))
  }

  lemma {:induction false} LaidIsSegments(cs: seq<Body>, i: nat)
    requires i <= |cs|
    ensures Laid(cs[..i], |cs|) + Segments(cs, i) == Laid(cs, |cs|) + [Label(END)]
    decreases |cs| - i
  {
    if i == |cs| {
      assert cs[..i] == cs;
    } else {
      assert cs[..i + 1][..i] == cs[..i];
      LaidIsSegments(cs, i + 1);
      assert Laid(cs[..i], |cs|) + ([Label(cs[i].name)] + Segment(cs, i) + Segments(cs, i + 1)) ==
             Laid(cs[..i + 1], |cs|) + Segments(cs, i + 1);
    }
  }

  lemma {:induction false} SameTests(cs: seq<Body>, ds: seq<Body>, i: nat)
    requires i < |cs| == |ds| && forall j :: 0 <= j < |cs| ==> cs[j].name == ds[j].name
    ensures Tests(cs, i) == Tests(ds, i)
    decreases i
  {
    if i >= 2 {
      SameTests(cs, ds, i - 1);
    }
  }

  lemma {:induction false} BodiesFail(names: Names, c: Contract, i: nat, n: nat)
    requires i <= n <= |c.clauses| && Bodies(names, c, i).None?
    ensures Bodies(names, c, n).None?
    decreases n
  {
    if i < n {
      BodiesFail(names, c, i, n - 1);
    }
  }

  /** The clauses' labels, for the tests. */
  function Shells(c: Contract): (cs: seq<Body>)
    ensures |cs| == |c.clauses| && forall i :: 0 <= i < |cs| ==> cs[i].name == c.clauses[i].name
  {
    seq(|c.clauses|, i requires 0 <= i < |c.clauses| => Body(c.clauses[i].name, []))
  }

  method AddTest(g: Generator, i: nat, name: string)
    modifies g
    ensures g.Built() == Emit(old(g.Built()), [Dup, Push(i), NumEqual, JumpIf(name)])
  {
    ghost var b := g.Built();
    g.Add([Dup]);
    g.Add([Push(i)]);
    g.Add([NumEqual]);
    g.Add([JumpIf(name)]);
    assert g.items == Flush(b).items + [Dup, Push(i), NumEqual, JumpIf(name)];
  }

  /** The selector to the top, and one test for each clause from the last down to number 2. */
  method AddTests(g: Generator, c: Contract)
    requires |c.clauses| >= 2 && g.Built() == Build([], false)
    modifies g
    ensures g.Built() == Build(SelectorToTop(|c.params|) + Tests(Shells(c), |c.clauses| - 1), false)
  {
    var cs, n := Shells(c), |c.clauses|;
    if |c.params| > 0 {
      g.Reach(Roll, |c.params|);
    }
    ghost var pre := g.items;
    for i := n downto 2
      invariant !g.pendingVerify
      invariant g.items + Tests(cs, i - 1) == pre + Tests(cs, n - 1)
    {
      ghost var was := g.items;
      AddTest(g, i, c.clauses[i].name);
      assert g.items + Tests(cs, i - 1) == was + Tests(cs, i);
    }
    assert Tests(cs, 1) == [];
    assert pre == SelectorToTop(|c.params|);
  }

  /** One clause behind its label. */
  method AddClause(g: Generator, c: Contract, i: nat) returns (ok: bool)
    requires i < |c.clauses| && !g.pendingVerify
    modifies g
    ensures ok == ClauseCode(g.names, c.clauses[i].stmts, ClauseStack(c, i)).Some?
    ensures ok ==> var code := ClauseCode(g.names, c.clauses[i].stmts, ClauseStack(c, i)).value;
      g.Built() == Build(old(g.items) + ([Label(c.clauses[i].name)] + SegmentOf(code, i, |c.clauses|)), false)
  {
    ghost var was := g.items;
    g.Add([Label(c.clauses[i].name)]);
    if i > 1 {
      g.Add([Drop]);
    }
    ok := g.CompileClause(c.clauses[i].stmts, ClauseStack(c, i));
    if ok {
      g.ForgetPendingVerify();
      if i < |c.clauses| - 1 {
        g.Add([Jump(END)]);
      }
      ghost var code := ClauseCode(g.names, c.clauses[i].stmts, ClauseStack(c, i)).value;
      assert g.items == was + ([Label(c.clauses[i].name)] + SegmentOf(code, i, |c.clauses|));
    }
  }

  lemma {:induction false} LaidOneMore(pre: seq<Op>, cs: seq<Body>, b: Body, n: nat)
    ensures pre + Laid(cs, n) + ([Label(b.name)] + SegmentOf(b.code, |cs|, n)) == pre + Laid(cs + [b], n)
  {
    assert (cs + [b])[..|cs|] == cs;
  }

  method AddClauses(g: Generator, c: Contract) returns (ok: bool)
    requires !g.pendingVerify
    modifies g
    ensures ok == Bodies(g.names, c, |c.clauses|).Some?
    ensures ok ==> g.Built() == Build(old(g.items) + Laid(Bodies(g.names, c, |c.clauses|).value, |c.clauses|), false)
  {
    var n := |c.clauses|;
    ghost var pre := g.items;
    for i := 0 to n
      invariant !g.pendingVerify && Bodies(g.names, c, i).Some?
      invariant g.items == pre + Laid(Bodies(g.names, c, i).value, n)
    {
      ghost var done := Bodies(g.names, c, i).value;
      ok := AddClause(g, c, i);
      if !ok {
        BodiesFail(g.names, c, i + 1, n);
        return;
      }
      LaidOneMore(pre, done, Body(c.clauses[i].name, ClauseCode(g.names, c.clauses[i].stmts, ClauseStack(c, i)).value), n);
    }
    ok := true;
  }

  lemma {:induction false} DispatchLaid(cs: seq<Body>, ds: seq<Body>, m: nat)
    requires 2 <= |cs| == |ds| && forall j :: 0 <= j < |cs| ==> cs[j].name == ds[j].name
    ensures SelectorToTop(m) + Tests(ds, |cs| - 1) + [JumpIf(cs[1].name)] + Laid(cs, |cs|) + [Label(END)] == Dispatch(cs, m)
  {
    SameTests(cs, ds, |cs| - 1);
    LaidIsSegments(cs, 0);
    assert cs[..0] == [];
    assert [] + Segments(cs, 0) == Segments(cs, 0);
    Regroup(SelectorToTop(m), Tests(ds, |cs| - 1), [JumpIf(cs[1].name)], Laid(cs, |cs|), [Label(END)]);
  }

  lemma {:induction false} Regroup(a: seq<Op>, b: seq<Op>, c: seq<Op>, d: seq<Op>, e: seq<Op>)
    ensures a + b + c + d + e == a + (b + (c + (d + e)))
  {
    assert c + d + e == c + (d + e);
    assert b + c + d + e == b + (c + (d + e));
  }

  /** The selector dispatch with the clauses behind it. */
  method AddDispatch(g: Generator, c: Contract) returns (ok: bool)
    requires |c.clauses| >= 2 && g.Built() == Build([], false)
    modifies g
    ensures ok == Bodies(g.names, c, |c.clauses|).Some?
    ensures ok ==> g.items == Dispatch(Bodies(g.names, c, |c.clauses|).value, |c.params|)
  {
    AddTests(g, c);
    g.Add([JumpIf(c.clauses[1].name)]);
    ok := AddClauses(g, c);
    if ok {
      g.Add([Label(END)]);
      DispatchLaid(Bodies(g.names, c, |c.clauses|).value, Shells(c), |c.params|);
    }
  }

  /** The contract's code before optimising. */
  method GenerateContract(names: Names, c: Contract) returns (r: Option<seq<Op>>)
    ensures r == ContractCode(names, c)
  {
    if c.clauses == [] || !WellNamed(c) {
      return None;
    }
    var g := new Generator(names);
    if |c.clauses| == 1 {
      var ok := g.CompileClause(c.clauses[0].stmts, ClauseStack(c, 0));
      assert ok ==> g.items == ClauseCode(names, c.clauses[0].stmts, ClauseStack(c, 0)).value;
      return if ok then Some(g.items) else None;
    }
    var ok := AddDispatch(g, c);
    r := if ok then Some(g.items) else None;
  }

  /** The compiler: it refuses exactly the contracts without code, and what it returns is optimised
      code under which every spend is accepted exactly when the clause it enters allows it. */
  method CompileContract(names: Names, c: Contract) returns (r: Option<seq<Op>>)
    ensures r.Some? <==> ContractCode(names, c).Some?
    ensures r.Some? ==> Correct(c, r.value)
    ensures r.Some? ==> |r.value| <= |ContractCode(names, c).value|
    ensures r.Some? ==> forall i :: 0 <= i < |RULES| ==> !Occurs(RULES[i], r.value)
  {
    var generated := GenerateContract(names, c);
    if generated.None? {
      return None;
    }
    var code := Optimize(generated.value);
    ContractCorrect(names, c);
    OptimizedCorrect(c, generated.value, code);
    r := Some(code);
  }
}
