/** Clauses made of verify and unlock statements: the deferred VERIFY and what a clause accepts. */
module ClauseCompiler {
  import opened Options
  import opened Arithmetic
  import opened Machine
  import opened Optimizer
  import opened Codegen
  import opened ExprCompiler

  datatype Stmt = VerifyStmt(e: Expr) | UnlockStmt(amount: Expr, asset: Expr)

  // ----- the builder

  /** The opcodes added so far. A VERIFY is held back until another opcode follows. */
  datatype Build = Build(items: seq<Op>, pending: bool)

  function Flush(b: Build): (r: Build) {
    if b.pending then Build(b.items + [Verify], false) else b
  }

  function Emit(b: Build, ops: seq<Op>): (r: Build) {
    if ops == [] then b else Build(Flush(b).items + ops, false)
  }

  function EmitVerify(b: Build): (r: Build) {
    Build(Flush(b).items, true)
  }

  /** The code with the held-back VERIFY in place. */
  function Whole(b: Build): (code: seq<Op>) {
    Flush(b).items
  }

  lemma {:induction false} WholeEmit(b: Build, ops: seq<Op>)
    ensures Whole(Emit(b, ops)) == Whole(b) + ops
    ensures Whole(EmitVerify(b)) == Whole(b) + [Verify]
  {
  }

  // ----- use counts

  function TallyName(c: Counts, x: string): (r: Counts) {
    c[x := Count(c, x) + 1]
  }

  function BuiltinName(b: Builtin): (s: string) {
    match b
    case Sha3 => "sha3"
    case Sha256 => "sha256"
    case SizeOf => "size"
    case AbsOf => "abs"
    case MinOf => "min"
    case MaxOf => "max"
    case CheckTxSig => "checkTxSig"
    case Concat => "concat"
    case ConcatPush => "concatpush"
    case Below => "below"
    case Above => "above"
  }

  /** References are counted for variables and for called functions alike. */
  function Tally(e: Expr, c: Counts): (r: Counts)
    decreases e, 1
  {
    match e
    case Var(x) => TallyName(c, x)
    case Int(_) => c
    case Bool(_) => c
    case Unary(_, f) => Tally(f, c)
    case Binary(_, l, r) => Tally(r, Tally(l, c))
    case Call(fn, args) => TallyArgs(args, TallyName(c, BuiltinName(fn)))
  }

  function TallyArgs(args: seq<Expr>, c: Counts): (r: Counts)
    decreases args, 0
  {
    if args == [] then c else TallyArgs(args[1..], Tally(args[0], c))
  }

  function TallyStmts(stmts: seq<Stmt>, c: Counts): (r: Counts) {
    if stmts == [] then c else
    var d := match stmts[0]
      case VerifyStmt(e) => Tally(e, c)
      case UnlockStmt(a, s) => Tally(s, Tally(a, c));
    TallyStmts(stmts[1..], d)
  }

  /** Uses of `x` in the verify statements. */
  function StmtUses(stmts: seq<Stmt>, x: string): (n: nat) {
    if stmts == [] then 0
    else (if stmts[0].VerifyStmt? then Uses(stmts[0].e, x) else 0) + StmtUses(stmts[1..], x)
  }

  lemma {:induction false} TallyBounds(e: Expr, c: Counts, x: string)
    ensures Count(Tally(e, c), x) >= Count(c, x) + Uses(e, x)
    decreases e, 1
  {
    match e
    case Var(_) =>
    case Int(_) =>
    case Bool(_) =>
    case Unary(_, f) => TallyBounds(f, c, x);
    case Binary(_, l, r) =>
      TallyBounds(l, c, x);
      TallyBounds(r, Tally(l, c), x);
    case Call(fn, args) => TallyArgsBounds(args, TallyName(c, BuiltinName(fn)), x);
  }

  lemma {:induction false} TallyArgsBounds(args: seq<Expr>, c: Counts, x: string)
    ensures Count(TallyArgs(args, c), x) >= Count(c, x) + UsesArgs(args, x)
    decreases args, 0
  {
    if args != [] {
      TallyBounds(args[0], c, x);
      TallyArgsBounds(args[1..], Tally(args[0], c), x);
    }
  }

  /** The counts a clause starts with bound the uses in its verify statements from above. */
  lemma {:induction false} TallyStmtsBounds(stmts: seq<Stmt>, c: Counts, x: string)
    ensures Count(TallyStmts(stmts, c), x) >= Count(c, x) + StmtUses(stmts, x)
    decreases |stmts|
  {
    if stmts != [] {
      match stmts[0]
      case VerifyStmt(e) =>
        TallyBounds(e, c, x);
        TallyStmtsBounds(stmts[1..], Tally(e, c), x);
      case UnlockStmt(a, s) =>
        TallyBounds(a, c, x);
        TallyBounds(s, Tally(a, c), x);
        TallyStmtsBounds(stmts[1..], Tally(s, Tally(a, c)), x);
    }
  }

  // ----- statements

  /** What compiling statements works on: the builder, the symbolic stack and the counts. */
  datatype Gen = Gen(b: Build, stk: seq<string>, counts: Counts)

  /** `only` says that the clause has a single statement. */
  function CompileStmt(names: Names, stmt: Stmt, only: bool, g: Gen): (r: Option<Gen>) {
    match stmt
    case VerifyStmt(e) =>
      var out :- Compile(names, e, g.stk, g.counts);
      Some(Gen(EmitVerify(Emit(g.b, out.code)), DropN(out.stk, 1), out.counts))
    case UnlockStmt(_, _) =>
      if only then Some(Gen(Emit(g.b, [True]), ["true"] + g.stk, g.counts)) else Some(g)
  }

  function CompileStmts(names: Names, stmts: seq<Stmt>, only: bool, g: Gen): (r: Option<Gen>) {
    if stmts == [] then Some(g) else
    var h :- CompileStmt(names, stmts[0], only, g);
    CompileStmts(names, stmts[1..], only, h)
  }

  /** The code of a clause on the symbolic stack `stk`: a VERIFY still held back at the end is forgotten. */
  function ClauseCode(names: Names, stmts: seq<Stmt>, stk: seq<string>): (r: Option<seq<Op>>) {
    var g :- CompileStmts(names, stmts, |stmts| == 1, Gen(Build([], false), stk, TallyStmts(stmts, map[])));
    Some(g.b.items)
  }

  // ----- what a clause accepts

  ghost predicate Holds(ctx: Context, rho: Values, e: Expr) {
    var v := Eval(ctx, rho, e);
    v.Some? && AsBool(v.value)
  }

  /** Every verify of the clause holds. */
  ghost predicate AllHold(ctx: Context, rho: Values, stmts: seq<Stmt>) {
    forall i :: 0 <= i < |stmts| && stmts[i].VerifyStmt? ==> Holds(ctx, rho, stmts[i].e)
  }

  predicate HasVerify(stmts: seq<Stmt>) {
    exists i :: 0 <= i < |stmts| && stmts[i].VerifyStmt?
  }

  function StmtNodes(stmts: seq<Stmt>): (n: nat) {
    if stmts == [] then 0
    else (if stmts[0].VerifyStmt? then NodeCount(stmts[0].e) else 0) + StmtNodes(stmts[1..])
  }

  /** The verify statements read parameters only. */
  ghost predicate StmtsClosed(stmts: seq<Stmt>, rho: Values) {
    forall x :: StmtUses(stmts, x) > 0 ==> x in rho
  }

  /** Leaving the last VERIFY out does not change acceptance: it succeeds exactly when the value
      it would have checked is true. */
  lemma {:induction false} TrailingVerify(ctx: Context, code: seq<Op>, s: Stack)
    requires Standard(ctx)
    requires Straight(code) && !Run(ctx, code + [Verify], s).Underflow?
    ensures Accepts(Run(ctx, code, s)) <==> Run(ctx, code + [Verify], s).Done?
    ensures !Run(ctx, code, s).Underflow? && Run(ctx, code, s) != Done([])
  {
    RunSnoc(ctx, code, Verify, s);
  }

  /** One verify statement, VERIFY included: it passes with everything still located, or fails. */
  lemma {:induction false} VerifyRuns(ctx: Context, names: Names, e: Expr, stk: seq<string>, counts: Counts, rt: Stack, rho: Values)
    requires Standard(ctx)
    requires Located(stk, rt, counts, rho, 0) && |rt| + NodeCount(e) <= TWO63
    requires forall x :: Uses(e, x) > 0 ==> x in rho
    requires forall x :: Uses(e, x) <= Count(counts, x)
    requires Compile(names, e, stk, counts).Some?
    ensures var out := Compile(names, e, stk, counts).value;
            var r := Run(ctx, out.code + [Verify], rt);
            if Holds(ctx, rho, e) then r.Done? && |r.stack| <= |rt| && Located(DropN(out.stk, 1), r.stack, out.counts, rho, 0)
            else r.Failed?
    ensures !Run(ctx, Compile(names, e, stk, counts).value.code, rt).Underflow?
    ensures Run(ctx, Compile(names, e, stk, counts).value.code, rt) != Done([])
  {
    var out := Compile(names, e, stk, counts).value;
    ExprCorrect(ctx, names, e, stk, counts, rt, rho, 0);
    CompileStraight(names, e, stk, counts);
    RunSnoc(ctx, out.code, Verify, rt);
    VerifyOutcome(ctx, out, Run(ctx, out.code, rt), rt, rho, Eval(ctx, rho, e));
  }

  lemma {:induction false} VerifyOutcome(ctx: Context, out: Out, r: Outcome, rt: Stack, rho: Values, v: Option<Value>)
    requires Leaves(out.stk, out.counts, r, rt, rho, 0, Single(v))
    ensures !r.Underflow? && r != Done([])
    ensures var q := Next(ctx, r, Verify);
            if v.Some? && AsBool(v.value) then q.Done? && |q.stack| <= |rt| && Located(DropN(out.stk, 1), q.stack, out.counts, rho, 0)
            else q.Failed?
  {
    if v.Some? {
      assert r.stack[0] == r.stack[..1][0] == v.value;
      LocatedDrop(out.stk, r.stack, out.counts, rho);
    }
  }

  lemma {:induction false} LocatedDrop(stk: seq<string>, rt: Stack, counts: Counts, rho: Values)
    requires Located(stk, rt, counts, rho, 1)
    ensures Located(DropN(stk, 1), rt[1..], counts, rho, 0)
  {
    forall x | x in rho && Count(counts, x) > 0
      ensures 0 <= Find(DropN(stk, 1), x) && rt[1..][Find(DropN(stk, 1), x)] == rho[x]
    {
      FindDrop(stk, 1, x);
    }
  }

  /** Only a clause's single unlock statement makes code of its own. */
  predicate NoLoneUnlock(stmts: seq<Stmt>, only: bool) {
    only ==> forall i :: 0 <= i < |stmts| ==> stmts[i].VerifyStmt?
  }

  lemma {:induction false} StmtExtends(names: Names, stmt: Stmt, only: bool, g: Gen) returns (first: seq<Op>)
    requires CompileStmt(names, stmt, only, g).Some?
    ensures Straight(first) && Whole(CompileStmt(names, stmt, only, g).value.b) == Whole(g.b) + first
  {
    first := [];
    match stmt
    case VerifyStmt(e) =>
      var out := Compile(names, e, g.stk, g.counts).value;
      CompileStraight(names, e, g.stk, g.counts);
      WholeEmit(g.b, out.code);
      WholeEmit(Emit(g.b, out.code), []);
      first := out.code + [Verify];
    case UnlockStmt(_, _) =>
      if only {
        WholeEmit(g.b, [True]);
        first := [True];
      }
  }

  lemma {:induction false} StmtsExtend(names: Names, stmts: seq<Stmt>, only: bool, g: Gen) returns (more: seq<Op>)
    requires CompileStmts(names, stmts, only, g).Some?
    ensures Straight(more) && Whole(CompileStmts(names, stmts, only, g).value.b) == Whole(g.b) + more
    decreases |stmts|
  {
    if stmts == [] {
      more := [];
    } else {
      var h := CompileStmt(names, stmts[0], only, g).value;
      var first := StmtExtends(names, stmts[0], only, g);
      var rest := StmtsExtend(names, stmts[1..], only, h);
      more := first + rest;
      StraightConcat(first, rest);
      assert Whole(g.b) + first + rest == Whole(g.b) + more;
    }
  }

  lemma {:induction false} EndsPending(names: Names, stmts: seq<Stmt>, only: bool, g: Gen)
    requires CompileStmts(names, stmts, only, g).Some? && NoLoneUnlock(stmts, only)
    requires g.b.pending || HasVerify(stmts)
    ensures CompileStmts(names, stmts, only, g).value.b.pending
    decreases |stmts|
  {
    if stmts != [] {
      var h := CompileStmt(names, stmts[0], only, g).value;
      if !h.b.pending {
        var i :| 0 <= i < |stmts| && stmts[i].VerifyStmt?;
        assert stmts[1..][i - 1].VerifyStmt?;
      }
      EndsPending(names, stmts[1..], only, h);
    }
  }

  lemma {:induction false} AllHoldCons(ctx: Context, rho: Values, stmts: seq<Stmt>)
    requires stmts != []
    ensures AllHold(ctx, rho, stmts) <==> (stmts[0].VerifyStmt? ==> Holds(ctx, rho, stmts[0].e)) && AllHold(ctx, rho, stmts[1..])
  {
    if AllHold(ctx, rho, stmts[1..]) {
      forall i | 0 < i < |stmts| && stmts[i].VerifyStmt? ensures Holds(ctx, rho, stmts[i].e) {
        assert stmts[1..][i - 1] == stmts[i];
      }
    }
  }

  /** Running the statements so far ended in `rt`; the statements that follow run through exactly
      when all their verifies hold, and fail otherwise. */
  lemma {:induction false} StmtsCorrect(ctx: Context, names: Names, stmts: seq<Stmt>, only: bool, g: Gen, start: Stack, rt: Stack, rho: Values)
    requires Standard(ctx)
    requires CompileStmts(names, stmts, only, g).Some? && NoLoneUnlock(stmts, only)
    requires Straight(Whole(g.b)) && Run(ctx, Whole(g.b), start) == Done(rt)
    requires Located(g.stk, rt, g.counts, rho, 0) && |rt| + StmtNodes(stmts) <= TWO63
    requires StmtsClosed(stmts, rho) && forall x :: StmtUses(stmts, x) <= Count(g.counts, x)
    ensures var r := Run(ctx, Whole(CompileStmts(names, stmts, only, g).value.b), start);
            if AllHold(ctx, rho, stmts) then r.Done? else r.Failed?
    decreases |stmts|
  {
    if stmts != [] {
      var h := CompileStmt(names, stmts[0], only, g).value;
      AllHoldCons(ctx, rho, stmts);
      assert forall x :: StmtUses(stmts, x) == (if stmts[0].VerifyStmt? then Uses(stmts[0].e, x) else 0) + StmtUses(stmts[1..], x);
      if stmts[0].VerifyStmt? {
        VerifyStmtCorrect(ctx, names, stmts, only, g, start, rt, rho);
        if Holds(ctx, rho, stmts[0].e) {
          CompileCounts(names, stmts[0].e, g.stk, g.counts);
          StmtsCorrect(ctx, names, stmts[1..], only, h, start, Run(ctx, Whole(h.b), start).stack, rho);
        } else {
          var more := StmtsExtend(names, stmts[1..], only, h);
          RunAppend(ctx, Whole(h.b), more, start);
        }
      } else {
        StmtsCorrect(ctx, names, stmts[1..], only, g, start, rt, rho);
      }
    }
  }

  lemma {:induction false} VerifyStmtCorrect(ctx: Context, names: Names, stmts: seq<Stmt>, only: bool, g: Gen, start: Stack, rt: Stack, rho: Values)
    requires Standard(ctx)
    requires stmts != [] && stmts[0].VerifyStmt? && CompileStmt(names, stmts[0], only, g).Some?
    requires Straight(Whole(g.b)) && Run(ctx, Whole(g.b), start) == Done(rt)
    requires Located(g.stk, rt, g.counts, rho, 0) && |rt| + NodeCount(stmts[0].e) <= TWO63
    requires forall x :: Uses(stmts[0].e, x) > 0 ==> x in rho
    requires forall x :: Uses(stmts[0].e, x) <= Count(g.counts, x)
    ensures var h := CompileStmt(names, stmts[0], only, g).value;
            var r := Run(ctx, Whole(h.b), start);
            && Straight(Whole(h.b))
            && if Holds(ctx, rho, stmts[0].e) then r.Done? && |r.stack| <= |rt| && Located(h.stk, r.stack, h.counts, rho, 0) else r.Failed?
  {
    var e := stmts[0].e;
    var out := Compile(names, e, g.stk, g.counts).value;
    WholeEmit(g.b, out.code);
    WholeEmit(Emit(g.b, out.code), []);
    CompileStraight(names, e, g.stk, g.counts);
    StraightConcat(out.code, [Verify]);
    StraightConcat(Whole(g.b), out.code + [Verify]);
    assert Whole(g.b) + out.code + [Verify] == Whole(g.b) + (out.code + [Verify]);
    RunAppend(ctx, Whole(g.b), out.code + [Verify], start);
    VerifyRuns(ctx, names, e, g.stk, g.counts, rt, rho);
  }

  /** The symbolic stack names the entries of the machine's stack, each once. */
  ghost predicate Describes(stk: seq<string>, rt: Stack, rho: Values) {
    && |stk| == |rt|
    && (forall i, j :: 0 <= i < j < |stk| ==> stk[i] != stk[j])
    && (forall x :: x in rho ==> x in stk)
    && (forall i :: 0 <= i < |stk| && stk[i] in rho ==> rt[i] == rho[stk[i]])
  }

  lemma {:induction false} DescribedIsLocated(stk: seq<string>, rt: Stack, counts: Counts, rho: Values)
    requires Describes(stk, rt, rho)
    ensures Located(stk, rt, counts, rho, 0)
  {
  }

  /** A clause of verify and unlock statements with at least one verify is accepted exactly when
      every verify holds, and never runs out of stack. */
  lemma {:induction false} ClauseCorrect(ctx: Context, names: Names, stmts: seq<Stmt>, stk: seq<string>, rt: Stack, rho: Values)
    requires Standard(ctx)
    requires HasVerify(stmts) && ClauseCode(names, stmts, stk).Some?
    requires Describes(stk, rt, rho) && StmtsClosed(stmts, rho) && |rt| + StmtNodes(stmts) <= TWO63
    ensures var r := Run(ctx, ClauseCode(names, stmts, stk).value, rt);
            !r.Underflow? && r != Done([]) && (Accepts(r) <==> AllHold(ctx, rho, stmts))
  {
    ClauseRuns(ctx, names, stmts, stk, rt, rho);
    ClauseCodeStraight(names, stmts, stk);
    TrailingVerify(ctx, ClauseCode(names, stmts, stk).value, rt);
  }

  /** The same with the last VERIFY still in place. */
  lemma {:induction false} ClauseRuns(ctx: Context, names: Names, stmts: seq<Stmt>, stk: seq<string>, rt: Stack, rho: Values)
    requires Standard(ctx)
    requires HasVerify(stmts) && ClauseCode(names, stmts, stk).Some?
    requires Describes(stk, rt, rho) && StmtsClosed(stmts, rho) && |rt| + StmtNodes(stmts) <= TWO63
    ensures var r := Run(ctx, ClauseCode(names, stmts, stk).value + [Verify], rt);
            if AllHold(ctx, rho, stmts) then r.Done? else r.Failed?
  {
    var counts := TallyStmts(stmts, map[]);
    var g := Gen(Build([], false), stk, counts);
    var only := |stmts| == 1;
    forall x ensures StmtUses(stmts, x) <= Count(counts, x) {
      TallyStmtsBounds(stmts, map[], x);
    }
    DescribedIsLocated(stk, rt, counts, rho);
    StmtsCorrect(ctx, names, stmts, only, g, rt, rt, rho);
    EndsPending(names, stmts, only, g);
  }

  lemma {:induction false} ClauseCodeStraight(names: Names, stmts: seq<Stmt>, stk: seq<string>)
    requires ClauseCode(names, stmts, stk).Some?
    ensures Straight(ClauseCode(names, stmts, stk).value)
  {
    var g := Gen(Build([], false), stk, TallyStmts(stmts, map[]));
    var more := StmtsExtend(names, stmts, |stmts| == 1, g);
    var h := CompileStmts(names, stmts, |stmts| == 1, g).value;
    assert Whole(g.b) + more == more;
    assert forall i :: 0 <= i < |h.b.items| ==> h.b.items[i] == more[i];
  }

  /** A lone unlock is always accepted. */
  lemma {:induction false} UnlockAccepts(ctx: Context, names: Names, unlock: Stmt, stk: seq<string>, rt: Stack)
    requires Standard(ctx)
    requires unlock.UnlockStmt?
    ensures ClauseCode(names, [unlock], stk) == Some([True])
    ensures Accepts(Run(ctx, [True], rt))
  {
    var g := Gen(Build([], false), stk, TallyStmts([unlock], map[]));
    var h := CompileStmt(names, unlock, true, g).value;
    assert [unlock][1..] == [] && [unlock][0] == unlock;
    assert CompileStmts(names, [], true, h) == Some(h);
    assert CompileStmts(names, [unlock], true, g) == Some(h);
    assert h.b.items == [True];
    RunOne(ctx, True, rt);
    TrueIsTrue(true);
  }

  /** Without a verify and without being a lone unlock a clause makes no code, so acceptance
      hangs on whatever the spender left on top of the stack. */
  lemma {:induction false} BareClause(ctx: Context, names: Names, stmts: seq<Stmt>, stk: seq<string>, rt: Stack)
    requires !HasVerify(stmts) && |stmts| != 1
    ensures ClauseCode(names, stmts, stk) == Some([])
    ensures Accepts(Run(ctx, [], rt)) <==> rt != [] && AsBool(rt[0])
  {
    BareStmts(names, stmts, Gen(Build([], false), stk, TallyStmts(stmts, map[])));
  }

  lemma {:induction false} BareStmts(names: Names, stmts: seq<Stmt>, g: Gen)
    requires !HasVerify(stmts)
    ensures CompileStmts(names, stmts, false, g) == Some(g)
    decreases |stmts|
  {
    if stmts != [] {
      assert stmts[0].UnlockStmt?;
      forall i | 0 <= i < |stmts[1..]| ensures stmts[1..][i].UnlockStmt? {
        assert stmts[1..][i] == stmts[i + 1];
      }
      BareStmts(names, stmts[1..], g);
    }
  }
}
