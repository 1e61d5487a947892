/** The peephole optimiser: a table of rewrites applied until none matches. */
module Optimizer {
  import opened Options
  import opened Arithmetic
  import opened Machine

  datatype Rule = Rule(before: seq<Op>, after: seq<Op>)

  const SHUFFLE_RULES: seq<Rule> := [
    Rule([Push(0), Roll], []),
    Rule([Push(0), Pick], [Dup]),
    Rule([Push(1), Roll], [Swap]),
    Rule([Push(1), Pick], [Over]),
    Rule([Push(2), Roll], [Rot]),
    Rule([True, Verify], []),
    Rule([Swap, Swap], []),
    Rule([Over, Over], [Dup2]),
    Rule([Swap, Over], [Tuck]),
    Rule([Drop, Drop], [Drop2]),
    Rule([Swap, Drop], [Nip])]

  const LONG_RULES: seq<Rule> := [
    Rule([Push(5), Roll, Push(5), Roll], [Rot2]),
    Rule([Push(3), Pick, Push(3), Pick], [Over2]),
    Rule([Push(3), Roll, Push(3), Roll], [Swap2]),
    Rule([Push(2), Pick, Push(2), Pick, Push(2), Pick], [Dup3]),
    Rule([Push(1), Add], [Add1]),
    Rule([Push(1), Sub], [Sub1]),
    Rule([Equal, Verify], [EqualVerify]),
    Rule([Swap, TxSigHash, Rot], [TxSigHash, Swap])]

  const COMMUTE_RULES: seq<Rule> := [
    Rule([Swap, Equal], [Equal]),
    Rule([Swap, EqualVerify], [EqualVerify]),
    Rule([Swap, Add], [Add]),
    Rule([Swap, BoolAnd], [BoolAnd]),
    Rule([Swap, BoolOr], [BoolOr]),
    Rule([Swap, Min], [Min]),
    Rule([Swap, Max], [Max])]

  const DUPLICATE_RULES: seq<Rule> := [
    Rule([Dup, Push(2), Pick, Equal], [Dup2, Equal]),
    Rule([Dup, Push(2), Pick, EqualVerify], [Dup2, EqualVerify]),
    Rule([Dup, Push(2), Pick, Add], [Dup2, Add]),
    Rule([Dup, Push(2), Pick, BoolAnd], [Dup2, BoolAnd]),
    Rule([Dup, Push(2), Pick, BoolOr], [Dup2, BoolOr]),
    Rule([Dup, Push(2), Pick, Min], [Dup2, Min]),
    Rule([Dup, Push(2), Pick, Max], [Dup2, Max])]

  /** The whole table, in its order. */
  const RULES: seq<Rule> := SHUFFLE_RULES + LONG_RULES + COMMUTE_RULES + DUPLICATE_RULES

  // ----- every rule is sound

  /** The rewritten code does the same as the original on a stack the original does not run out of. */
  ghost predicate Agrees(ctx: Context, r: Rule, s: Stack) {
    !Run(ctx, r.before, s).Underflow? ==> Run(ctx, r.after, s) == Run(ctx, r.before, s)
  }

  /** Rules rewrite straight-line code to shorter straight-line code. */
  predicate Shortens(r: Rule) {
    Straight(r.before) && Straight(r.after) && |r.after| < |r.before|
  }

  ghost predicate Sound(r: Rule) {
    && Shortens(r)
    && forall ctx, s :: Standard(ctx) ==> Agrees(ctx, r, s)
  }

  function Next(ctx: Context, r: Outcome, op: Op): (q: Outcome)
    requires !IsControl(op)
  {
    if r.Done? then Exec(ctx, op, r.stack) else r
  }

  function Two(ctx: Context, a: Op, b: Op, s: Stack): (r: Outcome)
    requires !IsControl(a) && !IsControl(b)
  {
    Next(ctx, Exec(ctx, a, s), b)
  }

  function Three(ctx: Context, a: Op, b: Op, c: Op, s: Stack): (r: Outcome)
    requires !IsControl(a) && !IsControl(b) && !IsControl(c)
  {
    Next(ctx, Two(ctx, a, b, s), c)
  }

  /** The second outcome does for the first. */
  predicate Twin(x: Outcome, y: Outcome) {
    x.Underflow? || y == x
  }

  lemma {:induction false} RunSnoc(ctx: Context, code: seq<Op>, op: Op, s: Stack)
    requires Standard(ctx) && Straight(code) && !IsControl(op)
    ensures Run(ctx, code + [op], s) == Next(ctx, Run(ctx, code, s), op)
  {
    RunAppend(ctx, code, [op], s);
    var r := Run(ctx, code, s);
    if r.Done? {
      RunOne(ctx, op, r.stack);
    }
  }

  lemma {:induction false} Run2(ctx: Context, a: Op, b: Op, s: Stack)
    requires Standard(ctx) && !IsControl(a) && !IsControl(b)
    ensures Run(ctx, [a, b], s) == Two(ctx, a, b, s)
  {
    assert [a] + [b] == [a, b];
    RunSnoc(ctx, [a], b, s);
    RunOne(ctx, a, s);
  }

  lemma {:induction false} Run3(ctx: Context, a: Op, b: Op, c: Op, s: Stack)
    requires Standard(ctx) && !IsControl(a) && !IsControl(b) && !IsControl(c)
    ensures Run(ctx, [a, b, c], s) == Three(ctx, a, b, c, s)
  {
    assert [a, b] + [c] == [a, b, c];
    RunSnoc(ctx, [a, b], c, s);
    Run2(ctx, a, b, s);
  }

  /** A pushed depth followed by ROLL or PICK. */
  function Reach(op: Op, n: nat, s: Stack): (r: Outcome)
    requires op.Roll? || op.Pick?
  {
    if |s| <= n then Underflow
    else if op.Roll? then Done(RollTo(s, n))
    else Done([s[n]] + s)
  }

  lemma {:induction false} RunReach(ctx: Context, op: Op, n: nat, s: Stack)
    requires Standard(ctx) && (op.Roll? || op.Pick?) && n < TWO63
    ensures Run(ctx, [Push(n), op], s) == Reach(op, n, s)
  {
    NumberRoundTrip(ctx, n);
    Run2(ctx, Push(n), op, s);
    assert ([ctx.encode(n)] + s)[1..] == s;
  }

  /** A reach twice in a row. */
  function ReachTwice(op: Op, n: nat, s: Stack): (r: Outcome)
    requires op.Roll? || op.Pick?
  {
    if |s| <= n then Underflow else Reach(op, n, Reach(op, n, s).stack)
  }

  lemma {:induction false} RunReachTwice(ctx: Context, op: Op, n: nat, s: Stack)
    requires Standard(ctx) && (op.Roll? || op.Pick?) && n < TWO63
    ensures Run(ctx, [Push(n), op, Push(n), op], s) == ReachTwice(op, n, s)
  {
    assert [Push(n), op, Push(n), op] == [Push(n), op] + [Push(n), op];
    RunAppend(ctx, [Push(n), op], [Push(n), op], s);
    RunReach(ctx, op, n, s);
    if |s| > n {
      RunReach(ctx, op, n, Reach(op, n, s).stack);
    }
  }

  lemma {:induction false} ReachRule(op: Op, n: nat, after: Op)
    requires (op, n, after) in {(Pick, 0, Dup), (Roll, 1, Swap), (Pick, 1, Over), (Roll, 2, Rot)}
    ensures Sound(Rule([Push(n), op], [after]))
  {
    forall ctx, s | Standard(ctx)
      ensures Agrees(ctx, Rule([Push(n), op], [after]), s)
    {
      RunReach(ctx, op, n, s);
      RunOne(ctx, after, s);
      if |s| > n {
        assert op.Roll? && n == 1 ==> RollTo(s, 1) == [s[1], s[0]] + s[2..];
        assert op.Roll? && n == 2 ==> RollTo(s, 2) == [s[2], s[0], s[1]] + s[3..];
      }
    }
  }

  lemma {:induction false} ReachZeroRule()
    ensures Sound(Rule([Push(0), Roll], []))
  {
    forall ctx, s | Standard(ctx)
      ensures Agrees(ctx, Rule([Push(0), Roll], []), s)
    {
      RunReach(ctx, Roll, 0, s);
      assert s != [] ==> RollTo(s, 0) == s;
    }
  }

  lemma {:induction false} RollTwice<T>(s: seq<T>, n: nat)
    requires 1 <= n < |s|
    ensures RollTo(RollTo(s, n), n) == [s[n - 1], s[n]] + s[..n - 1] + s[n + 1..]
  {
    var r := RollTo(s, n);
    assert r[n] == s[n - 1];
    assert r[..n] == [s[n]] + s[..n - 1];
    assert r[n + 1..] == s[n + 1..];
  }

  lemma {:induction false} RollFiveTwice<T>(s: seq<T>)
    requires 5 < |s|
    ensures RollTo(RollTo(s, 5), 5) == [s[4], s[5], s[0], s[1], s[2], s[3]] + s[6..]
  {
    RollTwice(s, 5);
    assert s[..4] == [s[0], s[1], s[2], s[3]];
  }

  lemma {:induction false} RollThreeTwice<T>(s: seq<T>)
    requires 3 < |s|
    ensures RollTo(RollTo(s, 3), 3) == [s[2], s[3], s[0], s[1]] + s[4..]
  {
    RollTwice(s, 3);
    assert s[..2] == [s[0], s[1]];
  }

  lemma {:induction false} RollFiveTwin(ctx: Context, s: Stack)
    ensures Twin(ReachTwice(Roll, 5, s), Exec(ctx, Rot2, s))
  {
    if |s| > 5 {
      RollFiveTwice(s);
    }
  }

  lemma {:induction false} RollThreeTwin(ctx: Context, s: Stack)
    ensures Twin(ReachTwice(Roll, 3, s), Exec(ctx, Swap2, s))
  {
    if |s| > 3 {
      RollThreeTwice(s);
    }
  }

  lemma {:induction false} RollFiveTwiceRule()
    ensures Sound(Rule([Push(5), Roll, Push(5), Roll], [Rot2]))
  {
    forall ctx, s | Standard(ctx) ensures Agrees(ctx, Rule([Push(5), Roll, Push(5), Roll], [Rot2]), s) {
      RunReachTwice(ctx, Roll, 5, s);
      RunOne(ctx, Rot2, s);
      RollFiveTwin(ctx, s);
    }
  }

  lemma {:induction false} RollThreeTwiceRule()
    ensures Sound(Rule([Push(3), Roll, Push(3), Roll], [Swap2]))
  {
    forall ctx, s | Standard(ctx) ensures Agrees(ctx, Rule([Push(3), Roll, Push(3), Roll], [Swap2]), s) {
      RunReachTwice(ctx, Roll, 3, s);
      RunOne(ctx, Swap2, s);
      RollThreeTwin(ctx, s);
    }
  }

  lemma {:induction false} PickTwice(n: nat, s: Stack)
    requires 1 <= n < |s|
    ensures Reach(Pick, n, s) == Done([s[n]] + s)
    ensures Reach(Pick, n, [s[n]] + s) == Done([s[n - 1], s[n]] + s)
  {
  }

  lemma {:induction false} PickTwin(ctx: Context, s: Stack)
    ensures Twin(ReachTwice(Pick, 3, s), Exec(ctx, Over2, s))
  {
    if |s| > 3 {
      PickTwice(3, s);
    }
  }

  lemma {:induction false} PickTwiceRule()
    ensures Sound(Rule([Push(3), Pick, Push(3), Pick], [Over2]))
  {
    forall ctx, s | Standard(ctx)
      ensures Agrees(ctx, Rule([Push(3), Pick, Push(3), Pick], [Over2]), s)
    {
      RunReachTwice(ctx, Pick, 3, s);
      RunOne(ctx, Over2, s);
      PickTwin(ctx, s);
    }
  }

  lemma {:induction false} PickThrice(s: Stack)
    requires |s| > 2
    ensures ReachTwice(Pick, 2, s) == Done([s[1], s[2]] + s)
    ensures Reach(Pick, 2, [s[1], s[2]] + s) == Done([s[0], s[1], s[2]] + s)
  {
    PickTwice(2, s);
    assert [s[0]] + ([s[1], s[2]] + s) == [s[0], s[1], s[2]] + s;
  }

  lemma {:induction false} RunPickThrice(ctx: Context, s: Stack)
    requires Standard(ctx)
    ensures Run(ctx, [Push(2), Pick, Push(2), Pick, Push(2), Pick], s) == if |s| <= 2 then Underflow else Done([s[0], s[1], s[2]] + s)
  {
    var p := [Push(2), Pick, Push(2), Pick];
    assert p + [Push(2), Pick] == [Push(2), Pick, Push(2), Pick, Push(2), Pick];
    RunAppend(ctx, p, [Push(2), Pick], s);
    RunReachTwice(ctx, Pick, 2, s);
    if |s| > 2 {
      PickThrice(s);
      RunReach(ctx, Pick, 2, [s[1], s[2]] + s);
    }
  }

  lemma {:induction false} PickThriceAgrees(ctx: Context, r: Rule, s: Stack)
    requires Standard(ctx) && r == Rule([Push(2), Pick, Push(2), Pick, Push(2), Pick], [Dup3])
    ensures Agrees(ctx, r, s)
  {
    RunPickThrice(ctx, s);
    RunOne(ctx, Dup3, s);
  }

  lemma {:induction false} PickThriceRule()
    ensures Sound(Rule([Push(2), Pick, Push(2), Pick, Push(2), Pick], [Dup3]))
  {
    var r := Rule([Push(2), Pick, Push(2), Pick, Push(2), Pick], [Dup3]);
    forall ctx, s | Standard(ctx) ensures Agrees(ctx, r, s) {
      PickThriceAgrees(ctx, r, s);
    }
  }

  lemma {:induction false} DropPairRule(a: Op, after: Op)
    requires (a, after) in {(Drop, Drop2), (Swap, Nip)}
    ensures Sound(Rule([a, Drop], [after]))
  {
    forall ctx, s | Standard(ctx)
      ensures Agrees(ctx, Rule([a, Drop], [after]), s)
    {
      Run2(ctx, a, Drop, s);
      RunOne(ctx, after, s);
      if |s| >= 2 {
        assert ([s[1], s[0]] + s[2..])[1..] == [s[0]] + s[2..];
      }
    }
  }

  lemma {:induction false} OverPairAgrees(ctx: Context, a: Op, after: Op, s: Stack)
    requires Standard(ctx) && (a, after) in {(Over, Dup2), (Swap, Tuck)}
    ensures Agrees(ctx, Rule([a, Over], [after]), s)
  {
    Run2(ctx, a, Over, s);
    RunOne(ctx, after, s);
    if |s| >= 2 {
      assert [s[0]] + ([s[1]] + s) == [s[0], s[1]] + s;
      assert [s[0]] + ([s[1], s[0]] + s[2..]) == [s[0], s[1], s[0]] + s[2..];
    }
  }

  lemma {:induction false} OverPairRule(a: Op, after: Op)
    requires (a, after) in {(Over, Dup2), (Swap, Tuck)}
    ensures Sound(Rule([a, Over], [after]))
  {
    forall ctx, s | Standard(ctx) ensures Agrees(ctx, Rule([a, Over], [after]), s) {
      OverPairAgrees(ctx, a, after, s);
    }
  }

  lemma {:induction false} SwapSwapRule()
    ensures Sound(Rule([Swap, Swap], []))
  {
    forall ctx, s | Standard(ctx)
      ensures Agrees(ctx, Rule([Swap, Swap], []), s)
    {
      Run2(ctx, Swap, Swap, s);
      if |s| >= 2 {
        assert [s[0], s[1]] + s[2..] == s;
      }
    }
  }

  lemma {:induction false} TrueIsTrue(b: bool)
    ensures AsBool(BoolBytes(b)) == b
  {
    assert b ==> BoolBytes(b).bytes[0] != 0;
  }

  lemma {:induction false} TrueVerifyRule()
    ensures Sound(Rule([True, Verify], []))
  {
    forall ctx, s | Standard(ctx) ensures Agrees(ctx, Rule([True, Verify], []), s) {
      Run2(ctx, True, Verify, s);
      TrueIsTrue(true);
      assert ([BoolBytes(true)] + s)[1..] == s;
    }
  }

  lemma {:induction false} EqualVerifyTwin(ctx: Context, s: Stack)
    ensures Twin(Two(ctx, Equal, Verify, s), Exec(ctx, EqualVerify, s))
  {
    if |s| >= 2 {
      TrueIsTrue(s[1] == s[0]);
      assert ([BoolBytes(s[1] == s[0])] + s[2..])[1..] == s[2..];
    }
  }

  lemma {:induction false} EqualVerifyRule()
    ensures Sound(Rule([Equal, Verify], [EqualVerify]))
  {
    forall ctx, s | Standard(ctx) ensures Agrees(ctx, Rule([Equal, Verify], [EqualVerify]), s) {
      Run2(ctx, Equal, Verify, s);
      RunOne(ctx, EqualVerify, s);
      EqualVerifyTwin(ctx, s);
    }
  }

  lemma {:induction false} IncrementTwin(ctx: Context, a: Op, after: Op, s: Stack)
    requires (a, after) in {(Add, Add1), (Sub, Sub1)}
    ensures Twin(Two(ctx, Push(1), a, s), Exec(ctx, after, s))
  {
    if s != [] {
      assert ([ctx.encode(1)] + s)[2..] == s[1..];
    }
  }

  lemma {:induction false} IncrementRule(a: Op, after: Op)
    requires (a, after) in {(Add, Add1), (Sub, Sub1)}
    ensures Sound(Rule([Push(1), a], [after]))
  {
    forall ctx, s | Standard(ctx) ensures Agrees(ctx, Rule([Push(1), a], [after]), s) {
      Run2(ctx, Push(1), a, s);
      RunOne(ctx, after, s);
      IncrementTwin(ctx, a, after, s);
    }
  }

  lemma {:induction false} SigHashTwin(ctx: Context, s: Stack)
    ensures Twin(Three(ctx, Swap, TxSigHash, Rot, s), Two(ctx, TxSigHash, Swap, s))
  {
    if |s| >= 2 {
      var h := ctx.sigHash;
      assert ([h] + s)[2..] == s[1..];
      assert ([h] + ([s[1], s[0]] + s[2..]))[3..] == s[2..];
      assert [s[0], h, s[1]] + s[2..] == [s[0], h] + s[1..];
    }
  }

  lemma {:induction false} SigHashRule()
    ensures Sound(Rule([Swap, TxSigHash, Rot], [TxSigHash, Swap]))
  {
    forall ctx, s | Standard(ctx) ensures Agrees(ctx, Rule([Swap, TxSigHash, Rot], [TxSigHash, Swap]), s) {
      Run3(ctx, Swap, TxSigHash, Rot, s);
      Run2(ctx, TxSigHash, Swap, s);
      SigHashTwin(ctx, s);
    }
  }

  /** The opcodes that treat their two arguments alike. */
  predicate Commutative(op: Op) {
    op in {Equal, EqualVerify, Add, BoolAnd, BoolOr, Min, Max}
  }

  lemma {:induction false} ExecCommutes(ctx: Context, op: Op, x: Value, y: Value, rest: Stack)
    requires Commutative(op)
    ensures Exec(ctx, op, [x, y] + rest) == Exec(ctx, op, [y, x] + rest)
  {
    assert ([x, y] + rest)[2..] == rest == ([y, x] + rest)[2..];
  }

  lemma {:induction false} CommuteRule(op: Op)
    requires Commutative(op)
    ensures Sound(Rule([Swap, op], [op]))
  {
    forall ctx, s | Standard(ctx)
      ensures Agrees(ctx, Rule([Swap, op], [op]), s)
    {
      Run2(ctx, Swap, op, s);
      RunOne(ctx, op, s);
      if |s| >= 2 {
        ExecCommutes(ctx, op, s[0], s[1], s[2..]);
        assert [s[0], s[1]] + s[2..] == s;
      }
    }
  }

  lemma {:induction false} DupPickRuns(ctx: Context, s: Stack)
    requires Standard(ctx)
    ensures Run(ctx, [Dup, Push(2), Pick], s) == if |s| < 2 then Underflow else Done([s[1], s[0]] + s)
  {
    assert [Dup, Push(2), Pick] == [Dup] + [Push(2), Pick];
    RunAppend(ctx, [Dup], [Push(2), Pick], s);
    RunOne(ctx, Dup, s);
    if s != [] {
      RunReach(ctx, Pick, 2, [s[0]] + s);
      if |s| >= 2 {
        assert [([s[0]] + s)[2]] + ([s[0]] + s) == [s[1], s[0]] + s;
      }
    }
  }

  lemma {:induction false} DupPickTwin(ctx: Context, op: Op, s: Stack)
    requires Commutative(op)
    ensures Twin(Next(ctx, if |s| < 2 then Underflow else Done([s[1], s[0]] + s), op), Two(ctx, Dup2, op, s))
  {
    if |s| >= 2 {
      ExecCommutes(ctx, op, s[0], s[1], s);
    }
  }

  lemma {:induction false} DupPickRule(op: Op)
    requires Commutative(op)
    ensures Sound(Rule([Dup, Push(2), Pick, op], [Dup2, op]))
  {
    forall ctx, s | Standard(ctx)
      ensures Agrees(ctx, Rule([Dup, Push(2), Pick, op], [Dup2, op]), s)
    {
      assert [Dup, Push(2), Pick, op] == [Dup, Push(2), Pick] + [op];
      RunSnoc(ctx, [Dup, Push(2), Pick], op, s);
      DupPickRuns(ctx, s);
      Run2(ctx, Dup2, op, s);
      DupPickTwin(ctx, op, s);
    }
  }

  ghost predicate AllSound(rules: seq<Rule>) {
    forall i :: 0 <= i < |rules| ==> Sound(rules[i])
  }

  lemma {:induction false} AllSoundConcat(a: seq<Rule>, b: seq<Rule>)
    requires AllSound(a) && AllSound(b)
    ensures AllSound(a + b)
  {
  }

  lemma {:induction false} ShuffleRulesSound()
    ensures AllSound(SHUFFLE_RULES)
  {
    ReachZeroRule();
    ReachRule(Pick, 0, Dup);
    ReachRule(Roll, 1, Swap);
    ReachRule(Pick, 1, Over);
    ReachRule(Roll, 2, Rot);
    TrueVerifyRule();
    EqualVerifyRule();
    SwapSwapRule();
    OverPairRule(Over, Dup2);
    OverPairRule(Swap, Tuck);
    DropPairRule(Drop, Drop2);
    DropPairRule(Swap, Nip);
  }

  lemma {:induction false} LongRulesSound()
    ensures AllSound(LONG_RULES)
  {
    RollFiveTwiceRule();
    PickTwiceRule();
    RollThreeTwiceRule();
    PickThriceRule();
    IncrementRule(Add, Add1);
    IncrementRule(Sub, Sub1);
    TrueVerifyRule();
    EqualVerifyRule();
    SigHashRule();
  }

  lemma {:induction false} CommuteRulesSound()
    ensures AllSound(COMMUTE_RULES) && AllSound(DUPLICATE_RULES)
  {
    forall op | Commutative(op)
      ensures Sound(Rule([Swap, op], [op])) && Sound(Rule([Dup, Push(2), Pick, op], [Dup2, op]))
    {
      CommuteRule(op);
      DupPickRule(op);
    }
    assert Commutative(Equal) && Commutative(EqualVerify) && Commutative(Add) && Commutative(BoolAnd)
           && Commutative(BoolOr) && Commutative(Min) && Commutative(Max);
  }

  /** Every rewrite in the table shortens the code and keeps its meaning. */
  lemma {:induction false} RulesSound()
    ensures AllSound(RULES)
  {
    ShuffleRulesSound();
    LongRulesSound();
    CommuteRulesSound();
    AllSoundConcat(SHUFFLE_RULES, LONG_RULES);
    AllSoundConcat(SHUFFLE_RULES + LONG_RULES, COMMUTE_RULES);
    AllSoundConcat(SHUFFLE_RULES + LONG_RULES + COMMUTE_RULES, DUPLICATE_RULES);
  }

  // ----- rewriting inside a program

  lemma {:induction false} AfterAppend(a: seq<Op>, b: seq<Op>, l: string)
    ensures After(a + b, l) == if After(a, l).Some? then Some(After(a, l).value + b) else After(b, l)
    decreases |a|
  {
    if a == [] {
      assert a + b == b;
    } else {
      assert (a + b)[1..] == a[1..] + b;
      AfterAppend(a[1..], b, l);
    }
  }

  lemma {:induction false} NoLabelInStraight(a: seq<Op>, l: string)
    requires Straight(a)
    ensures After(a, l).None?
    decreases |a|
  {
    if a != [] {
      NoLabelInStraight(a[1..], l);
    }
  }

  /** Jumps land in the same place whichever straight-line code stands in the middle. */
  lemma {:induction false} AfterAround(p: seq<Op>, mid: seq<Op>, post: seq<Op>, l: string)
    requires Straight(mid)
    ensures After(p + mid + post, l) == if After(p, l).Some? then Some(After(p, l).value + mid + post) else After(post, l)
  {
    AfterAppend(p + mid, post, l);
    AfterAppend(p, mid, l);
    NoLabelInStraight(mid, l);
  }

  /** One rewrite anywhere in a program, jumps and labels included, keeps its outcome. */
  lemma {:induction false} RewriteKeeps(ctx: Context, pre: seq<Op>, r: Rule, post: seq<Op>, s: Stack)
    requires Standard(ctx) && Sound(r) && !Run(ctx, pre + r.before + post, s).Underflow?
    ensures Run(ctx, pre + r.after + post, s) == Run(ctx, pre + r.before + post, s)
    decreases |pre|
  {
    var a, b := pre + r.before + post, pre + r.after + post;
    if pre == [] {
      assert a == r.before + post && b == r.after + post;
      RunAppend(ctx, r.before, post, s);
      RunAppend(ctx, r.after, post, s);
      assert Agrees(ctx, r, s);
    } else {
      var rest := pre[1..];
      assert a[1..] == rest + r.before + post && b[1..] == rest + r.after + post;
      assert a[0] == pre[0] && b[0] == pre[0];
      match pre[0]
      case Label(_) => RewriteKeeps(ctx, rest, r, post, s);
      case Jump(l) => RewriteJump(ctx, rest, r, post, s, l);
      case JumpIf(l) =>
        if s != [] && AsBool(s[0]) {
          RewriteJump(ctx, rest, r, post, s[1..], l);
        } else if s != [] {
          RewriteKeeps(ctx, rest, r, post, s[1..]);
        }
      case _ =>
        var q := ctx.exec(pre[0], s);
        if q.Done? {
          RewriteKeeps(ctx, rest, r, post, q.stack);
        }
    }
  }

  lemma {:induction false} RewriteJump(ctx: Context, p: seq<Op>, r: Rule, post: seq<Op>, s: Stack, l: string)
    requires Standard(ctx) && Sound(r) && !JumpTo(ctx, p + r.before + post, s, l).Underflow?
    ensures JumpTo(ctx, p + r.after + post, s, l) == JumpTo(ctx, p + r.before + post, s, l)
    decreases |p|, 1
  {
    AfterAround(p, r.before, post, l);
    AfterAround(p, r.after, post, l);
    if After(p, l).Some? {
      RewriteKeeps(ctx, After(p, l).value, r, post, s);
    }
  }

  // ----- replacing all matches of one rule

  predicate Matches(r: Rule, code: seq<Op>) {
    r.before <= code
  }

  predicate Occurs(r: Rule, code: seq<Op>) {
    exists i :: 0 <= i <= |code| && Matches(r, code[i..])
  }

  /** Replace the matches from left to right. A match needs a separator before it (`lead`), and a
      match uses up the one after it, so the token that follows a match is always copied. */
  function ReplaceAll(r: Rule, code: seq<Op>, lead: bool): (q: seq<Op>)
    requires Shortens(r)
    ensures |q| <= |code|
    ensures |q| == |code| ==> q == code
    decreases |code|
  {
    if lead && Matches(r, code) then r.after + ReplaceAll(r, code[|r.before|..], false)
    else if code == [] then []
    else [code[0]] + ReplaceAll(r, code[1..], true)
  }

  lemma {:induction false} ReplaceAllKeeps(ctx: Context, r: Rule, pre: seq<Op>, code: seq<Op>, lead: bool, s: Stack)
    requires Standard(ctx) && Sound(r) && !Run(ctx, pre + code, s).Underflow?
    ensures Run(ctx, pre + ReplaceAll(r, code, lead), s) == Run(ctx, pre + code, s)
    decreases |code|
  {
    if lead && Matches(r, code) {
      var post := code[|r.before|..];
      assert pre + code == pre + r.before + post;
      RewriteKeeps(ctx, pre, r, post, s);
      ReplaceAllKeeps(ctx, r, pre + r.after, post, false, s);
      assert pre + r.after + ReplaceAll(r, post, false) == pre + ReplaceAll(r, code, lead);
    } else if code != [] {
      assert pre + code == pre + [code[0]] + code[1..];
      ReplaceAllKeeps(ctx, r, pre + [code[0]], code[1..], true, s);
      assert pre + [code[0]] + ReplaceAll(r, code[1..], true) == pre + ReplaceAll(r, code, lead);
    }
  }

  /** Where a left-hand side occurs, replacing shortens the code. */
  lemma {:induction false} OccurrenceShrinks(r: Rule, code: seq<Op>)
    requires Shortens(r) && Occurs(r, code)
    ensures |ReplaceAll(r, code, true)| < |code|
    decreases |code|
  {
    if !Matches(r, code) {
      var i :| 0 <= i <= |code| && Matches(r, code[i..]);
      assert code[0..] == code;
      assert code[1..][i - 1..] == code[i..];
      OccurrenceShrinks(r, code[1..]);
    }
  }

  /** A program that runs out of stack need not do so any more once rewritten: two swaps on an empty
      stack. */
  lemma {:induction false} UnderflowLost(ctx: Context)
    requires Standard(ctx)
    ensures Rule([Swap, Swap], []) in RULES
    ensures Run(ctx, [Swap, Swap], []).Underflow? && Run(ctx, [], []) == Done([])
  {
    assert RULES[6] == Rule([Swap, Swap], []);
    Run2(ctx, Swap, Swap, []);
  }

  // ----- the optimiser

  ghost predicate Keeps(a: seq<Op>, b: seq<Op>) {
    forall ctx, s {:trigger Run(ctx, a, s)} :: Standard(ctx) && !Run(ctx, a, s).Underflow? ==> Run(ctx, b, s) == Run(ctx, a, s)
  }

  lemma {:induction false} ReplaceStep(r: Rule, a: seq<Op>, b: seq<Op>)
    requires Sound(r) && Keeps(a, b)
    ensures Keeps(a, ReplaceAll(r, b, true))
  {
    forall ctx, s | Standard(ctx) && !Run(ctx, a, s).Underflow?
      ensures Run(ctx, ReplaceAll(r, b, true), s) == Run(ctx, a, s)
    {
      assert [] + b == b && [] + ReplaceAll(r, b, true) == ReplaceAll(r, b, true);
      ReplaceAllKeeps(ctx, r, [], b, true, s);
    }
  }

  /** Apply the rules, in passes over the table, until no left-hand side is left. */
  method ApplyUntilStable(rules: seq<Rule>, opcodes: seq<Op>) returns (code: seq<Op>)
    requires AllSound(rules)
    ensures Keeps(opcodes, code)
    ensures |code| <= |opcodes|
    ensures forall i :: 0 <= i < |rules| ==> !Occurs(rules[i], code)
  {
    code := opcodes;
    var looping := true;
    while looping
      invariant Keeps(opcodes, code) && |code| <= |opcodes|
      invariant !looping ==> forall i :: 0 <= i < |rules| ==> !Occurs(rules[i], code)
      decreases |code|, looping
    {
      looping := false;
      ghost var was := |code|;
      for i := 0 to |rules|
        invariant Keeps(opcodes, code) && |code| <= was
        invariant looping ==> |code| < was
        invariant !looping ==> forall j :: 0 <= j < i ==> !Occurs(rules[j], code)
      {
        ReplaceStep(rules[i], opcodes, code);
        var newCode := ReplaceAll(rules[i], code, true);
        if newCode != code {
          looping := true;
          code := newCode;
        } else if Occurs(rules[i], code) {
          OccurrenceShrinks(rules[i], code);
        }
      }
    }
  }

  /** The optimiser. Every program that does not run out of stack keeps its outcome, the code does
      not get longer, and no left-hand side of the table is left. */
  method Optimize(opcodes: seq<Op>) returns (code: seq<Op>)
    ensures Keeps(opcodes, code)
    ensures |code| <= |opcodes|
    ensures forall i :: 0 <= i < |RULES| ==> !Occurs(RULES[i], code)
  {
    RulesSound();
    code := ApplyUntilStable(RULES, opcodes);
  }
}
