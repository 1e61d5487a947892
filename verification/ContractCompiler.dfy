/** Contracts with several clauses: the selector dispatch, and the whole compiler end to end. */
module ContractCompiler {
  import opened Options
  import opened Arithmetic
  import opened Machine
  import opened Optimizer
  import opened Codegen
  import opened ExprCompiler
  import opened ClauseCompiler

  const END: string := "_end"

  /** A clause's label and its code. */
  datatype Body = Body(name: string, code: seq<Op>)

  /** The assembler refuses a label that is defined twice. */
  ghost predicate GoodBodies(cs: seq<Body>) {
    && (forall i :: 0 <= i < |cs| ==> Straight(cs[i].code) && cs[i].name != END)
    && (forall i, j :: 0 <= i < j < |cs| ==> cs[i].name != cs[j].name)
  }

  /** The tests for clauses `i` down to 2: each compares a copy of the selector. */
  function Tests(cs: seq<Body>, i: nat): (code: seq<Op>)
    requires i < |cs|
  {
    if i < 2 then [] else [Dup, Push(i), NumEqual, JumpIf(cs[i].name)] + Tests(cs, i - 1)
  }

  /** A clause behind its label. From clause 2 on the selector is still on the stack. */
  function Segment(cs: seq<Body>, i: nat): (code: seq<Op>)
    requires i < |cs|
  {
    SegmentOf(cs[i].code, i, |cs|)
  }

  function SegmentOf(code: seq<Op>, i: nat, n: nat): (r: seq<Op>) {
    (if i > 1 then [Drop] else []) + code + (if i < n - 1 then [Jump(END)] else [])
  }

  function Segments(cs: seq<Body>, i: nat): (code: seq<Op>)
    requires i <= |cs|
    decreases |cs| - i
  {
    if i == |cs| then [Label(END)] else [Label(cs[i].name)] + Segment(cs, i) + Segments(cs, i + 1)
  }

  /** The tests, the jump on what is left of the selector, and the clauses. */
  function Selecting(cs: seq<Body>): (code: seq<Op>)
    requires |cs| >= 2
  {
    Tests(cs, |cs| - 1) + ([JumpIf(cs[1].name)] + Segments(cs, 0))
  }

  function SelectorToTop(m: nat): (code: seq<Op>) {
    if m > 0 then [Push(m), Roll] else []
  }

  /** The contract body for two or more clauses under `m` contract parameters. */
  function Dispatch(cs: seq<Body>, m: nat): (code: seq<Op>)
    requires |cs| >= 2
  {
    SelectorToTop(m) + Selecting(cs)
  }

  /** The clause a selector enters: its own number from 2 on; everything else goes by truth, so a
      true selector that names no clause enters clause 1. */
  function Chosen(ctx: Context, n: nat, selector: Value): (i: nat)
    requires n >= 2
    ensures i < n
  {
    if ctx.decode(selector).Some? && 2 <= ctx.decode(selector).value < n then ctx.decode(selector).value
    else if AsBool(selector) then 1 else 0
  }

  /** For a selector that names a clause, that clause is the one entered. */
  /** Any number picks the clause it counts, or the second one when there is no such clause. */
  lemma {:induction false} ChosenByNumber(ctx: Context, n: nat, selector: Value, k: int)
    requires Standard(ctx) && n >= 2 && ctx.decode(selector) == Some(k)
    ensures Chosen(ctx, n, selector) == if 0 <= k < n then k else 1
  {
    NumberTruth(selector, k);
  }

  lemma {:induction false} ChosenIsSelector(ctx: Context, n: nat, i: nat)
    requires Standard(ctx) && 2 <= n <= TWO63 && i < n
    ensures Chosen(ctx, n, Int64Bytes(i)) == i
  {
    Int64RoundTrip(i);
    NumberTruth(Int64Bytes(i), i);
  }

  // ----- jumps land where they should

  lemma {:induction false} EndFound(cs: seq<Body>, i: nat)
    requires GoodBodies(cs) && i <= |cs|
    ensures After(Segments(cs, i), END) == Some([])
    decreases |cs| - i
  {
    if i < |cs| {
      var seg := [Label(cs[i].name)] + Segment(cs, i);
      SegmentHasOneLabel(cs, i, END);
      AfterAppend(seg, Segments(cs, i + 1), END);
      EndFound(cs, i + 1);
    }
  }

  /** The labels of one segment: its own and no other. */
  lemma {:induction false} SegmentHasOneLabel(cs: seq<Body>, i: nat, l: string)
    requires GoodBodies(cs) && i < |cs|
    ensures After([Label(cs[i].name)] + Segment(cs, i), l) == if l == cs[i].name then Some(Segment(cs, i)) else None
  {
    var drop := if i > 1 then [Drop] else [];
    var jump := if i < |cs| - 1 then [Jump(END)] else [];
    NoLabelInStraight(drop + cs[i].code, l);
    AfterAppend(drop + cs[i].code, jump, l);
    assert After(jump, l).None?;
    assert ([Label(cs[i].name)] + Segment(cs, i))[1..] == Segment(cs, i);
  }

  lemma {:induction false} LabelFound(cs: seq<Body>, i: nat, j: nat)
    requires GoodBodies(cs) && j <= i < |cs|
    ensures After(Segments(cs, j), cs[i].name) == Some(Segment(cs, i) + Segments(cs, i + 1))
    decreases i - j
  {
    var seg := [Label(cs[j].name)] + Segment(cs, j);
    SegmentHasOneLabel(cs, j, cs[i].name);
    AfterAppend(seg, Segments(cs, j + 1), cs[i].name);
    if j < i {
      LabelFound(cs, i, j + 1);
    }
  }

  lemma {:induction false} TestsHaveNoLabel(cs: seq<Body>, i: nat, l: string)
    requires i < |cs|
    ensures After(Tests(cs, i), l).None?
    decreases i
  {
    if i >= 2 {
      var t := [Dup, Push(i), NumEqual, JumpIf(cs[i].name)];
      TestsHaveNoLabel(cs, i - 1, l);
      AfterAppend(t, Tests(cs, i - 1), l);
      assert After(t, l).None? by {
        assert t == [Dup, Push(i), NumEqual] + [JumpIf(cs[i].name)];
        AfterAppend([Dup, Push(i), NumEqual], [JumpIf(cs[i].name)], l);
        NoLabelInStraight([Dup, Push(i), NumEqual], l);
      }
    }
  }

  /** From anywhere among the tests a jump to clause `i` reaches its segment. */
  lemma {:induction false} JumpToClause(cs: seq<Body>, t: nat, i: nat)
    requires GoodBodies(cs) && t < |cs| && i < |cs| && |cs| >= 2
    ensures After(Tests(cs, t) + ([JumpIf(cs[1].name)] + Segments(cs, 0)), cs[i].name) == Some(Segment(cs, i) + Segments(cs, i + 1))
  {
    var l := cs[i].name;
    AfterAppend(Tests(cs, t), [JumpIf(cs[1].name)] + Segments(cs, 0), l);
    TestsHaveNoLabel(cs, t, l);
    assert ([JumpIf(cs[1].name)] + Segments(cs, 0))[1..] == Segments(cs, 0);
    LabelFound(cs, i, 0);
  }

  // ----- running the pieces

  /** What follows a clause's code: the jump over the later clauses, and those. */
  function Tail(cs: seq<Body>, i: nat): (code: seq<Op>)
    requires i < |cs|
  {
    (if i < |cs| - 1 then [Jump(END)] else []) + Segments(cs, i + 1)
  }

  lemma {:induction false} CodeThenTail(ctx: Context, cs: seq<Body>, i: nat, s: Stack)
    requires GoodBodies(cs) && i < |cs|
    ensures Run(ctx, cs[i].code + Tail(cs, i), s) == Run(ctx, cs[i].code, s)
  {
    RunAppend(ctx, cs[i].code, Tail(cs, i), s);
    var r := Run(ctx, cs[i].code, s);
    if r.Done? {
      TailRuns(ctx, cs, i, r.stack);
    }
  }

  lemma {:induction false} DropThen(ctx: Context, rest: seq<Op>, v: Value, s: Stack)
    requires Standard(ctx)
    ensures Run(ctx, [Drop] + rest, [v] + s) == Run(ctx, rest, s)
  {
    RunAppend(ctx, [Drop], rest, [v] + s);
    RunOne(ctx, Drop, [v] + s);
    assert ([v] + s)[1..] == s;
  }

  lemma {:induction false} SegmentShape(cs: seq<Body>, i: nat)
    requires i < |cs|
    ensures Segment(cs, i) + Segments(cs, i + 1) == (if i > 1 then [Drop] else []) + (cs[i].code + Tail(cs, i))
  {
  }

  /** A segment runs its clause's code and then leaves the contract. */
  lemma {:induction false} SegmentRuns(ctx: Context, cs: seq<Body>, i: nat, selector: Value, s: Stack)
    requires Standard(ctx)
    requires GoodBodies(cs) && i < |cs|
    ensures Run(ctx, Segment(cs, i) + Segments(cs, i + 1), if i > 1 then [selector] + s else s) == Run(ctx, cs[i].code, s)
  {
    var rest := cs[i].code + Tail(cs, i);
    SegmentShape(cs, i);
    CodeThenTail(ctx, cs, i, s);
    if i > 1 {
      DropThen(ctx, rest, selector, s);
    } else {
      assert [] + rest == rest;
    }
  }

  lemma {:induction false} TailRuns(ctx: Context, cs: seq<Body>, i: nat, s: Stack)
    requires GoodBodies(cs) && i < |cs|
    ensures Run(ctx, Tail(cs, i), s) == Done(s)
  {
    if i < |cs| - 1 {
      RunControl(ctx, END, Segments(cs, i + 1), Value([]), s);
      EndFound(cs, i + 1);
    } else {
      assert Tail(cs, i) == [Label(END)] + [];
      RunControl(ctx, END, [], Value([]), s);
    }
  }

  /** One test: it enters clause `i` on an equal selector and goes on otherwise; a selector that is
      no number fails. */
  lemma {:induction false} TestRuns(ctx: Context, cs: seq<Body>, i: nat, rest: seq<Op>, selector: Value, s: Stack)
    requires Standard(ctx)
    requires 2 <= i < |cs| && i < TWO63
    ensures Run(ctx, [Dup, Push(i), NumEqual, JumpIf(cs[i].name)] + rest, [selector] + s) ==
              if ctx.decode(selector).None? then Failed
              else if ctx.decode(selector).value == i then JumpTo(ctx, rest, [selector] + s, cs[i].name)
              else Run(ctx, rest, [selector] + s)
  {
    var w := [selector] + s;
    var test, jump := [Dup, Push(i), NumEqual], [JumpIf(cs[i].name)] + rest;
    assert [Dup, Push(i), NumEqual, JumpIf(cs[i].name)] + rest == test + jump;
    RunAppend(ctx, test, jump, w);
    Run3(ctx, Dup, Push(i), NumEqual, w);
    NumberRoundTrip(ctx, i);
    var three := [ctx.encode(i)] + ([selector] + w);
    assert three[2..] == w && three[1] == selector && three[0] == ctx.encode(i);
    if ctx.decode(selector).Some? {
      var b := ctx.decode(selector).value == i;
      TrueIsTrue(b);
      assert Run(ctx, test, w) == Done([BoolBytes(b)] + w);
      RunControl(ctx, cs[i].name, rest, BoolBytes(b), w);
    }
  }

  /** The tests from `t` down, the jump on truth and the clauses behind them. */
  lemma {:induction false} TestsRun(ctx: Context, cs: seq<Body>, t: nat, selector: Value, s: Stack)
    requires Standard(ctx)
    requires GoodBodies(cs) && 2 <= |cs| <= TWO63 && 1 <= t < |cs|
    requires ctx.decode(selector).Some? ==> !(t < ctx.decode(selector).value < |cs|)
    ensures Run(ctx, Tests(cs, t) + ([JumpIf(cs[1].name)] + Segments(cs, 0)), [selector] + s) ==
              if t >= 2 && ctx.decode(selector).None? then Failed else Run(ctx, cs[Chosen(ctx, |cs|, selector)].code, s)
    decreases t
  {
    var rest := [JumpIf(cs[1].name)] + Segments(cs, 0);
    if t >= 2 {
      var next := Tests(cs, t - 1) + rest;
      assert Tests(cs, t) + rest == [Dup, Push(t), NumEqual, JumpIf(cs[t].name)] + next;
      TestRuns(ctx, cs, t, next, selector, s);
      if ctx.decode(selector).Some? && ctx.decode(selector).value == t {
        JumpToClause(cs, t - 1, t);
        SegmentRuns(ctx, cs, t, selector, s);
      } else if ctx.decode(selector).Some? {
        TestsRun(ctx, cs, t - 1, selector, s);
      }
    } else {
      assert Tests(cs, t) + rest == rest;
      TruthRuns(ctx, cs, selector, s);
    }
  }

  /** The last jump takes the selector off and goes by its truth. */
  lemma {:induction false} TruthRuns(ctx: Context, cs: seq<Body>, selector: Value, s: Stack)
    requires Standard(ctx)
    requires GoodBodies(cs) && 2 <= |cs|
    ensures Run(ctx, [JumpIf(cs[1].name)] + Segments(cs, 0), [selector] + s) ==
              Run(ctx, cs[if AsBool(selector) then 1 else 0].code, s)
  {
    RunControl(ctx, cs[1].name, Segments(cs, 0), selector, s);
    if AsBool(selector) {
      LabelFound(cs, 1, 0);
      SegmentRuns(ctx, cs, 1, selector, s);
    } else {
      FirstClauseRuns(ctx, cs, selector, s);
    }
  }

  lemma {:induction false} FirstClauseRuns(ctx: Context, cs: seq<Body>, selector: Value, s: Stack)
    requires Standard(ctx) && GoodBodies(cs) && 2 <= |cs|
    ensures Run(ctx, Segments(cs, 0), s) == Run(ctx, cs[0].code, s)
  {
    var rest := Segment(cs, 0) + Segments(cs, 1);
    assert Segments(cs, 0) == [Label(cs[0].name)] + rest;
    RunControl(ctx, cs[0].name, rest, Value([]), s);
    SegmentRuns(ctx, cs, 0, selector, s);
  }

  /** The selector comes up from below the contract's arguments. */
  lemma {:induction false} SelectorUp(ctx: Context, args: Stack, selector: Value, below: Stack, rest: seq<Op>)
    requires Standard(ctx) && |args| < TWO63
    ensures Run(ctx, SelectorToTop(|args|) + rest, args + [selector] + below) == Run(ctx, rest, [selector] + (args + below))
  {
    var m, s := |args|, args + [selector] + below;
    if m > 0 {
      RunAppend(ctx, [Push(m), Roll], rest, s);
      RunReach(ctx, Roll, m, s);
      assert RollTo(s, m) == [selector] + (args + below);
    } else {
      assert [] + rest == rest;
      assert s == [selector] + (args + below);
    }
  }

  /** The contract body takes the selector from below the `m` contract arguments and runs exactly
      the chosen clause's code on the stack without the selector. */
  lemma {:induction false} DispatchRuns(ctx: Context, cs: seq<Body>, args: Stack, selector: Value, below: Stack)
    requires Standard(ctx)
    requires GoodBodies(cs) && 2 <= |cs| <= TWO63 && |args| < TWO63
    ensures Run(ctx, Dispatch(cs, |args|), args + [selector] + below) ==
              if |cs| > 2 && ctx.decode(selector).None? then Failed
              else Run(ctx, cs[Chosen(ctx, |cs|, selector)].code, args + below)
  {
    SelectorUp(ctx, args, selector, below, Selecting(cs));
    TestsRun(ctx, cs, |cs| - 1, selector, args + below);
  }

  // ----- whole contracts

  datatype Clause = Clause(name: string, params: seq<string>, stmts: seq<Stmt>)

  datatype Contract = Contract(params: seq<string>, clauses: seq<Clause>)

  predicate Distinct(names: seq<string>) {
    forall i, j :: 0 <= i < j < |names| ==> names[i] != names[j]
  }

  /** What a clause finds on the stack: the contract's parameters in order, below them its own
      parameters with the last one on top. */
  function ClauseStack(c: Contract, i: nat): (stk: seq<string>)
    requires i < |c.clauses|
  {
    c.params + Reverse(c.clauses[i].params)
  }

  /** No name clashes: parameters within one clause, and labels. */
  predicate WellNamed(c: Contract) {
    && (forall i :: 0 <= i < |c.clauses| ==> Distinct(ClauseStack(c, i)))
    && (forall i, j :: 0 <= i < j < |c.clauses| ==> c.clauses[i].name != c.clauses[j].name)
    && (|c.clauses| > 1 ==> forall i :: 0 <= i < |c.clauses| ==> c.clauses[i].name != END)
  }

  /** The compiled clauses before the one numbered `n`. */
  function Bodies(names: Names, c: Contract, n: nat): (r: Option<seq<Body>>)
    requires n <= |c.clauses|
    ensures r.Some? ==> |r.value| == n && forall i :: 0 <= i < n ==>
      Some(r.value[i].code) == ClauseCode(names, c.clauses[i].stmts, ClauseStack(c, i)) && r.value[i].name == c.clauses[i].name
  {
    if n == 0 then Some([]) else
    var rest :- Bodies(names, c, n - 1);
    var code :- ClauseCode(names, c.clauses[n - 1].stmts, ClauseStack(c, n - 1));
    Some(rest + [Body(c.clauses[n - 1].name, code)])
  }

  /** The contract's code before optimising, unless a name clashes or an expression does not compile. */
  function ContractCode(names: Names, c: Contract): (r: Option<seq<Op>>) {
    if c.clauses == [] || !WellNamed(c) then None
    else if |c.clauses| == 1 then ClauseCode(names, c.clauses[0].stmts, ClauseStack(c, 0))
    else
      var bodies :- Bodies(names, c, |c.clauses|);
      Some(Dispatch(bodies, |c.params|))
  }

  /** One attempt to spend: the machine, the contract's arguments, the selector, the clause's
      arguments in the order given, what else lies on the stack, and the values of the names. */
  datatype Spend = Spend(ctx: Context, args: Stack, selector: Value, clauseArgs: Stack, below: Stack, rho: Values)

  function Entered(c: Contract, sp: Spend): (i: nat)
    requires c.clauses != []
    ensures i < |c.clauses|
  {
    if |c.clauses| == 1 then 0 else Chosen(sp.ctx, |c.clauses|, sp.selector)
  }

  /** The stack the contract starts on. */
  function Start(c: Contract, sp: Spend): (s: Stack) {
    var rest := Reverse(sp.clauseArgs) + sp.below;
    if |c.clauses| > 1 then sp.args + [sp.selector] + rest else sp.args + rest
  }

  /** Above two clauses a selector must be a number. */
  predicate NoNumber(c: Contract, sp: Spend) {
    |c.clauses| > 2 && sp.ctx.decode(sp.selector).None?
  }

  /** The arguments fit the parameters of the contract and of the clause entered. */
  ghost predicate Fits(c: Contract, sp: Spend) {
    && c.clauses != [] && |c.clauses| <= TWO63 && Standard(sp.ctx)
    && |sp.args| == |c.params| < TWO63
    && (!NoNumber(c, sp) ==> FitsEntered(c, sp))
  }

  ghost predicate FitsEntered(c: Contract, sp: Spend)
    requires c.clauses != []
  {
    var i := Entered(c, sp);
    var stmts, rt := c.clauses[i].stmts, sp.args + Reverse(sp.clauseArgs);
    Describes(ClauseStack(c, i), rt, sp.rho) && StmtsClosed(stmts, sp.rho) && |rt| + StmtNodes(stmts) < TWO63
  }

  lemma {:induction false} ReverseAt<T>(s: seq<T>, i: nat)
    requires i < |s|
    ensures Reverse(s)[|s| - 1 - i] == s[i]
  {
    if i > 0 {
      ReverseAt(s[1..], i - 1);
    }
  }

  /** The names stand for the arguments in the order given: the contract's parameters for the
      contract's arguments, those of the clause entered for the clause's arguments. */
  lemma {:induction false} ArgumentsNamed(c: Contract, sp: Spend)
    requires Fits(c, sp) && !NoNumber(c, sp)
    ensures var params := c.clauses[Entered(c, sp)].params;
            && |sp.args| == |c.params| && |sp.clauseArgs| == |params|
            && (forall j :: 0 <= j < |c.params| && c.params[j] in sp.rho ==> sp.rho[c.params[j]] == sp.args[j])
            && (forall j :: 0 <= j < |params| && params[j] in sp.rho ==> sp.rho[params[j]] == sp.clauseArgs[j])
  {
    var i := Entered(c, sp);
    var params, stk, rt := c.clauses[i].params, ClauseStack(c, i), sp.args + Reverse(sp.clauseArgs);
    forall j | 0 <= j < |c.params| && c.params[j] in sp.rho ensures sp.rho[c.params[j]] == sp.args[j] {
      assert stk[j] == c.params[j] && rt[j] == sp.args[j];
    }
    forall j | 0 <= j < |params| && params[j] in sp.rho ensures sp.rho[params[j]] == sp.clauseArgs[j] {
      ReverseAt(params, j);
      ReverseAt(sp.clauseArgs, j);
      var k := |c.params| + |params| - 1 - j;
      assert stk[k] == params[j] && rt[k] == sp.clauseArgs[j];
    }
  }

  /** Arguments for distinct names can always be named. */
  lemma {:induction false} Nameable(stk: seq<string>, rt: Stack) returns (rho: Values)
    requires |stk| == |rt| && Distinct(stk)
    ensures Describes(stk, rt, rho) && forall i :: 0 <= i < |stk| ==> stk[i] in rho
    decreases |stk|
  {
    if stk == [] {
      rho := map[];
    } else {
      var n := |stk| - 1;
      var front := Nameable(stk[..n], rt[..n]);
      rho := front[stk[n] := rt[n]];
      forall x | x in rho ensures x in stk {
        if x != stk[n] {
          assert x in stk[..n];
        }
      }
      forall i | 0 <= i < |stk| ensures stk[i] in rho && rt[i] == rho[stk[i]] {
        assert i < n ==> stk[..n][i] == stk[i] && rt[..n][i] == rt[i];
      }
    }
  }

  /** A clause that checks something, or a lone unlock, makes code. */
  predicate MakesCode(stmts: seq<Stmt>) {
    HasVerify(stmts) || |stmts| == 1
  }

  /** When a spend goes through: every verify of the clause entered holds. A clause that makes no code
      goes by the entry it finds on top. */
  ghost predicate Allows(c: Contract, sp: Spend)
    requires c.clauses != []
  {
    if NoNumber(c, sp) then false
    else
      var stmts, s := c.clauses[Entered(c, sp)].stmts, sp.args + (Reverse(sp.clauseArgs) + sp.below);
      if MakesCode(stmts) then AllHold(sp.ctx, sp.rho, stmts) else s != [] && AsBool(s[0])
  }

  /** The code never runs out of stack, and accepts exactly the spends the contract allows. */
  ghost predicate Correct(c: Contract, code: seq<Op>) {
    forall sp {:trigger Fits(c, sp)} :: Fits(c, sp) ==>
      var r := Run(sp.ctx, code, Start(c, sp));
      !r.Underflow? && (Accepts(r) <==> Allows(c, sp))
  }

  lemma {:induction false} ClauseAccepts(ctx: Context, names: Names, stmts: seq<Stmt>, stk: seq<string>, rt: Stack, rho: Values, below: Stack)
    requires Standard(ctx)
    requires MakesCode(stmts)
    requires ClauseCode(names, stmts, stk).Some?
    requires Describes(stk, rt, rho) && StmtsClosed(stmts, rho) && |rt| + StmtNodes(stmts) <= TWO63
    ensures var r := Run(ctx, ClauseCode(names, stmts, stk).value, rt + below);
            !r.Underflow? && (Accepts(r) <==> AllHold(ctx, rho, stmts))
  {
    var code := ClauseCode(names, stmts, stk).value;
    if HasVerify(stmts) {
      ClauseCorrect(ctx, names, stmts, stk, rt, rho);
      ClauseCodeStraight(names, stmts, stk);
      RunFrame(ctx, code, rt, below);
    } else {
      assert stmts == [stmts[0]];
      UnlockAccepts(ctx, names, stmts[0], stk, rt + below);
      RunOne(ctx, True, rt + below);
    }
  }

  lemma {:induction false} BodiesGood(names: Names, c: Contract)
    requires WellNamed(c) && |c.clauses| > 1 && Bodies(names, c, |c.clauses|).Some?
    ensures GoodBodies(Bodies(names, c, |c.clauses|).value)
  {
    forall i | 0 <= i < |c.clauses| ensures Straight(Bodies(names, c, |c.clauses|).value[i].code) {
      ClauseCodeStraight(names, c.clauses[i].stmts, ClauseStack(c, i));
    }
  }

  /** The compiled contract, from the selector dispatch to the last verify. */
  lemma {:induction false} ContractCorrect(names: Names, c: Contract)
    requires ContractCode(names, c).Some?
    ensures Correct(c, ContractCode(names, c).value)
  {
    forall sp | Fits(c, sp)
      ensures var r := Run(sp.ctx, ContractCode(names, c).value, Start(c, sp));
              !r.Underflow? && (Accepts(r) <==> Allows(c, sp))
    {
      SpendCorrect(names, c, sp);
    }
  }

  lemma {:induction false} SpendCorrect(names: Names, c: Contract, sp: Spend)
    requires ContractCode(names, c).Some? && Fits(c, sp)
    ensures var r := Run(sp.ctx, ContractCode(names, c).value, Start(c, sp));
            !r.Underflow? && (Accepts(r) <==> Allows(c, sp))
  {
    ContractEnters(names, c, sp);
    if !NoNumber(c, sp) {
      FitsClause(names, c, sp);
    }
  }

  lemma {:induction false} FitsClause(names: Names, c: Contract, sp: Spend)
    requires Fits(c, sp) && !NoNumber(c, sp) && ClauseCode(names, c.clauses[Entered(c, sp)].stmts, ClauseStack(c, Entered(c, sp))).Some?
    ensures var i := Entered(c, sp);
            var r := Run(sp.ctx, ClauseCode(names, c.clauses[i].stmts, ClauseStack(c, i)).value, sp.args + (Reverse(sp.clauseArgs) + sp.below));
            !r.Underflow? && (Accepts(r) <==> Allows(c, sp))
  {
    var i, rt := Entered(c, sp), sp.args + Reverse(sp.clauseArgs);
    var stmts := c.clauses[i].stmts;
    assert sp.args + (Reverse(sp.clauseArgs) + sp.below) == rt + sp.below;
    if MakesCode(stmts) {
      ClauseAccepts(sp.ctx, names, stmts, ClauseStack(c, i), rt, sp.rho, sp.below);
    } else {
      BareClause(sp.ctx, names, stmts, ClauseStack(c, i), rt + sp.below);
    }
  }

  /** A contract does what the clause it enters does without the selector, or fails for a selector
      that is no number. */
  lemma {:induction false} ContractEnters(names: Names, c: Contract, sp: Spend)
    requires ContractCode(names, c).Some? && Fits(c, sp)
    ensures var i := Entered(c, sp);
            var code := ClauseCode(names, c.clauses[i].stmts, ClauseStack(c, i));
            code.Some? && Run(sp.ctx, ContractCode(names, c).value, Start(c, sp)) ==
                            if NoNumber(c, sp) then Failed else Run(sp.ctx, code.value, sp.args + (Reverse(sp.clauseArgs) + sp.below))
  {
    if |c.clauses| > 1 {
      BodiesGood(names, c);
      DispatchRuns(sp.ctx, Bodies(names, c, |c.clauses|).value, sp.args, sp.selector, Reverse(sp.clauseArgs) + sp.below);
    }
  }

  /** Optimised code is as good as the code it came from. */
  lemma {:induction false} OptimizedCorrect(c: Contract, a: seq<Op>, b: seq<Op>)
    requires Correct(c, a) && Keeps(a, b)
    ensures Correct(c, b)
  {
  }
}
