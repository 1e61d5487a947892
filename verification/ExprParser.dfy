/** The precedence-climbing expression parser over tokens: the trees it builds, that there is only
    one such tree for a token sequence, and that printing and parsing fit together. */
module ExprParser {
  import opened Options
  import opened Codegen
  import opened ClauseCompiler

  /** Tokens of an expression. A minus sign is `glued` when digits follow it without a gap: where an
      operand is expected it then starts a negative literal. */
  datatype Token =
    | Number(n: nat) | Truth(b: bool) | Ident(name: string)
    | LParen | RParen | LBracket | RBracket | Comma
    | Dash(glued: bool) | Bang | Tilde | Infix(op: BinaryOp)

  type Tokens = seq<Token>

  /** Syntax trees that remember parentheses, glued minus signs and nothing else the parser drops. */
  datatype Tree =
    | Num(negative: bool, n: nat)
    | Flag(b: bool)
    | Name(x: string)
    | Paren(inner: Tree)
    | List(items: seq<Tree>)
    | Apply(fn: Tree, args: seq<Tree>)
    | Prefix(sign: Token, operand: Tree)
    | Chain(sign: Token, left: Tree, right: Tree)

  predicate IsInfix(t: Token) {
    t.Infix? || t.Dash?
  }

  function Precedence(op: BinaryOp): (p: nat)
    ensures 1 <= p <= 5
  {
    match op
    case LogicalOr => 1
    case LogicalAnd => 2
    case Greater | Less | GreaterEq | LessEq | Equals | Differs => 3
    case BitXor | BitOr | Plus | Minus => 4
    case BitAnd | ShiftLeft | ShiftRight | Modulo | Times | Divide => 5
  }

  function Infixed(t: Token): (op: BinaryOp)
    requires IsInfix(t)
  {
    if t.Dash? then Minus else t.op
  }

  function Binding(t: Token): (p: nat)
    requires IsInfix(t)
    ensures 1 <= p <= 5
  {
    Precedence(Infixed(t))
  }

  /** An operator starts `ts`, and it binds at least as tight as `p`. */
  predicate Continues(ts: Tokens, p: nat) {
    ts != [] && IsInfix(ts[0]) && Binding(ts[0]) >= p
  }

  /** `ts` starts with a prefix operator; a minus sign glued to digits is none. */
  predicate StartsPrefix(ts: Tokens) {
    ts != [] && (ts[0].Bang? || ts[0].Tilde? || (ts[0].Dash? && !StartsNegative(ts)))
  }

  predicate StartsNegative(ts: Tokens) {
    |ts| >= 2 && ts[0].Dash? && ts[0].glued && ts[1].Number?
  }

  // ----- the parser, on what is left of the input

  datatype Res<T> = Fail | Ok(value: T, rest: Tokens)

  function ParseExpr(ts: Tokens): (r: Res<Tree>)
    ensures r.Ok? ==> |r.rest| < |ts|
    decreases |ts|, 5
  {
    var u := ParseUnary(ts);
    if u.Fail? then u else ParseCont(u.value, u.rest, 0)
  }

  function ParseUnary(ts: Tokens): (r: Res<Tree>)
    ensures r.Ok? ==> |r.rest| < |ts|
    decreases |ts|, 4
  {
    if StartsPrefix(ts) then
      var u := ParseUnary(ts[1..]);
      if u.Fail? then u else Ok(Prefix(ts[0], u.value), u.rest)
    else ParseOperand(ts)
  }

  /** Operators at least as tight as `min` extend `lhs` to the left-associated tree. */
  function ParseCont(lhs: Tree, ts: Tokens, min: nat): (r: Res<Tree>)
    ensures r.Ok? ==> |r.rest| <= |ts| && (Continues(ts, min) ==> |r.rest| < |ts|)
    decreases |ts|, 1
  {
    if !Continues(ts, min) then Ok(lhs, ts) else
    var u := ParseUnary(ts[1..]);
    if u.Fail? then u else
    var rhs := ParseInner(u.value, u.rest, Binding(ts[0]));
    if rhs.Fail? then rhs else ParseCont(Chain(ts[0], lhs, rhs.value), rhs.rest, min)
  }

  /** Operators tighter than `p` belong to the right operand. */
  function ParseInner(rhs: Tree, ts: Tokens, p: nat): (r: Res<Tree>)
    ensures r.Ok? ==> |r.rest| <= |ts|
    decreases |ts|, 2
  {
    if !Continues(ts, p + 1) then Ok(rhs, ts) else
    var c := ParseCont(rhs, ts, Binding(ts[0]));
    if c.Fail? then c else ParseInner(c.value, c.rest, p)
  }

  function ParseOperand(ts: Tokens): (r: Res<Tree>)
    ensures r.Ok? ==> |r.rest| < |ts|
    decreases |ts|, 3
  {
    if ts == [] then Fail
    else if ts[0].Number? then Ok(Num(false, ts[0].n), ts[1..])
    else if StartsNegative(ts) then Ok(Num(true, ts[1].n), ts[2..])
    else if ts[0].Truth? then Ok(Flag(ts[0].b), ts[1..])
    else
      var e := ParsePrimary(ts);
      if e.Ok? && e.rest != [] && e.rest[0].LParen? then
        var args := ParseItems(e.rest[1..], RParen, true);
        if args.Fail? then Fail else Ok(Apply(e.value, args.value), args.rest)
      else e
  }

  function ParsePrimary(ts: Tokens): (r: Res<Tree>)
    ensures r.Ok? ==> |r.rest| < |ts|
    decreases |ts|, 2
  {
    if ts == [] then Fail
    else if ts[0].LParen? then
      var e := ParseExpr(ts[1..]);
      if e.Fail? || e.rest == [] || !e.rest[0].RParen? then Fail else Ok(Paren(e.value), e.rest[1..])
    else if ts[0].LBracket? then
      var es := ParseItems(ts[1..], RBracket, true);
      if es.Fail? then Fail else Ok(List(es.value), es.rest)
    else if ts[0].Ident? then Ok(Name(ts[0].name), ts[1..])
    else Fail
  }

  function ParseItem(ts: Tokens, first: bool): (r: Res<Tree>)
    requires ts != []
    ensures r.Ok? ==> |r.rest| < |ts|
    decreases |ts|, 6
  {
    if first then ParseExpr(ts) else if ts[0].Comma? then ParseExpr(ts[1..]) else Fail
  }

  /** Items separated by commas up to the closing token. */
  function ParseItems(ts: Tokens, close: Token, first: bool): (r: Res<seq<Tree>>)
    ensures r.Ok? ==> |r.rest| < |ts|
    decreases |ts|, 7
  {
    if ts == [] then Fail
    else if ts[0] == close then Ok([], ts[1..])
    else
      var e := ParseItem(ts, first);
      if e.Fail? then Fail else
      var es := ParseItems(e.rest, close, false);
      if es.Fail? then Fail else Ok([e.value] + es.value, es.rest)
  }

  // ----- trees and their tokens

  function Yield(t: Tree): (ts: Tokens)
    ensures ts != []
    decreases t
  {
    match t
    case Num(neg, n) => (if neg then [Dash(true)] else []) + [Number(n)]
    case Flag(b) => [Truth(b)]
    case Name(x) => [Ident(x)]
    case Paren(e) => [LParen] + Yield(e) + [RParen]
    case List(es) => [LBracket] + YieldItems(es, true) + [RBracket]
    case Apply(f, args) => Yield(f) + ([LParen] + YieldItems(args, true) + [RParen])
    case Prefix(op, e) => [op] + Yield(e)
    case Chain(op, l, r) => Yield(l) + ([op] + Yield(r))
  }

  function YieldItems(es: seq<Tree>, first: bool): (ts: Tokens)
    decreases es
  {
    if es == [] then []
    else (if first then [] else [Comma]) + Yield(es[0]) + YieldItems(es[1..], false)
  }

  /** The trees the parser may build: a bare right operand binds strictly tighter than its operator,
      a bare left operand at least as tight, a prefix operator takes no bare chain, and only names,
      lists and parenthesised expressions are called. */
  ghost predicate Good(t: Tree)
    decreases t
  {
    match t
    case Num(_, _) => true
    case Flag(_) => true
    case Name(_) => true
    case Paren(e) => Good(e)
    case List(es) => forall i :: 0 <= i < |es| ==> Good(es[i])
    case Apply(f, args) => (f.Name? || f.Paren? || f.List?) && Good(f) && forall i :: 0 <= i < |args| ==> Good(args[i])
    case Prefix(op, e) => Good(e) && !e.Chain? && StartsPrefix([op] + Yield(e))
    case Chain(op, l, r) =>
      && IsInfix(op) && Good(l) && Good(r)
      && (l.Chain? ==> IsInfix(l.sign) && Binding(l.sign) >= Binding(op))
      && (r.Chain? ==> IsInfix(r.sign) && Binding(r.sign) > Binding(op))
  }

  /** No operator that `t` would have to take in as its own starts `ts`. */
  predicate Below(t: Tree, ts: Tokens) {
    t.Chain? ==> IsInfix(t.sign) && !Continues(ts, Binding(t.sign) + 1)
  }

  // ----- what is parsed is good and has the tokens read

  lemma {:induction false} ExprSound(ts: Tokens)
    requires ParseExpr(ts).Ok?
    ensures var r := ParseExpr(ts); Good(r.value) && Yield(r.value) + r.rest == ts && !Continues(r.rest, 0)
    decreases |ts|, 5
  {
    var u := ParseUnary(ts);
    UnarySound(ts);
    ContSound(u.value, u.rest, 0);
  }

  lemma {:induction false} UnarySound(ts: Tokens)
    requires ParseUnary(ts).Ok?
    ensures var r := ParseUnary(ts); Good(r.value) && !r.value.Chain? && Yield(r.value) + r.rest == ts
    decreases |ts|, 4
  {
    if StartsPrefix(ts) {
      var u := ParseUnary(ts[1..]);
      UnarySound(ts[1..]);
      assert Yield(Prefix(ts[0], u.value)) + u.rest == [ts[0]] + (Yield(u.value) + u.rest);
      PrefixGood(ts, Yield(u.value), u.rest);
    } else {
      OperandSound(ts);
    }
  }

  lemma {:induction false} PrefixGood(ts: Tokens, body: Tokens, rest: Tokens)
    requires ts != [] && body != [] && ts[1..] == body + rest && StartsPrefix(ts)
    ensures StartsPrefix([ts[0]] + body)
  {
    assert ts[1] == ts[1..][0] == body[0];
  }

  lemma {:induction false} ChainTokens(left: Tokens, ts: Tokens, right: Tokens, rest: Tokens)
    requires ts != [] && ts[1..] == right + rest
    ensures left + ([ts[0]] + right) + rest == left + ts
  {
    assert ts == [ts[0]] + ts[1..];
  }

  lemma {:induction false} ContSound(lhs: Tree, ts: Tokens, min: nat)
    requires Good(lhs) && Below(lhs, ts) && ParseCont(lhs, ts, min).Ok?
    ensures var r := ParseCont(lhs, ts, min);
            && Good(r.value) && Yield(r.value) + r.rest == Yield(lhs) + ts && !Continues(r.rest, min)
            && (if Continues(ts, min) then r.value.Chain? && IsInfix(r.value.sign) && Binding(r.value.sign) >= min else r.value == lhs)
    decreases |ts|, 1
  {
    if Continues(ts, min) {
      var u := ParseUnary(ts[1..]);
      var rhs := ParseInner(u.value, u.rest, Binding(ts[0]));
      UnarySound(ts[1..]);
      InnerSound(u.value, u.rest, Binding(ts[0]));
      var c := Chain(ts[0], lhs, rhs.value);
      ChainTokens(Yield(lhs), ts, Yield(rhs.value), rhs.rest);
      ContSound(c, rhs.rest, min);
    }
  }

  lemma {:induction false} InnerSound(rhs: Tree, ts: Tokens, p: nat)
    requires Good(rhs) && Below(rhs, ts) && (rhs.Chain? ==> Binding(rhs.sign) > p) && ParseInner(rhs, ts, p).Ok?
    ensures var r := ParseInner(rhs, ts, p);
            && Good(r.value) && Yield(r.value) + r.rest == Yield(rhs) + ts && !Continues(r.rest, p + 1)
            && (r.value.Chain? ==> IsInfix(r.value.sign) && Binding(r.value.sign) > p)
    decreases |ts|, 2
  {
    if Continues(ts, p + 1) {
      var c := ParseCont(rhs, ts, Binding(ts[0]));
      ContSound(rhs, ts, Binding(ts[0]));
      InnerSound(c.value, c.rest, p);
    }
  }

  lemma {:induction false} OperandSound(ts: Tokens)
    requires ParseOperand(ts).Ok?
    ensures var r := ParseOperand(ts); Good(r.value) && !r.value.Chain? && Yield(r.value) + r.rest == ts
    decreases |ts|, 3
  {
    if ts[0].Number? || ts[0].Truth? {
      assert ts == [ts[0]] + ts[1..];
    } else if StartsNegative(ts) {
      assert ts == [ts[0], ts[1]] + ts[2..];
    } else {
      var e := ParsePrimary(ts);
      PrimarySound(ts);
      if e.rest != [] && e.rest[0].LParen? {
        var args := ParseItems(e.rest[1..], RParen, true);
        ItemsSound(e.rest[1..], RParen, true);
        Called(Yield(e.value), e.rest, YieldItems(args.value, true), args.rest);
      }
    }
  }

  lemma {:induction false} Wrapped(ts: Tokens, open: Token, body: Tokens, close: Token, rest: Tokens)
    requires ts != [] && ts[0] == open && ts[1..] == body + ([close] + rest)
    ensures [open] + body + [close] + rest == ts
  {
    assert ts == [open] + ts[1..];
  }

  lemma {:induction false} Called(fn: Tokens, ts: Tokens, body: Tokens, rest: Tokens)
    requires ts != [] && ts[0] == LParen && ts[1..] == body + ([RParen] + rest)
    ensures fn + ([LParen] + body + [RParen]) + rest == fn + ts
  {
    Wrapped(ts, LParen, body, RParen, rest);
  }

  lemma {:induction false} PrimarySound(ts: Tokens)
    requires ParsePrimary(ts).Ok?
    ensures var r := ParsePrimary(ts);
            Good(r.value) && (r.value.Name? || r.value.Paren? || r.value.List?) && Yield(r.value) + r.rest == ts
    decreases |ts|, 2
  {
    if ts[0].LParen? {
      var e := ParseExpr(ts[1..]);
      ExprSound(ts[1..]);
      assert e.rest == [RParen] + e.rest[1..];
      Wrapped(ts, LParen, Yield(e.value), RParen, e.rest[1..]);
    } else if ts[0].LBracket? {
      var es := ParseItems(ts[1..], RBracket, true);
      ItemsSound(ts[1..], RBracket, true);
      Wrapped(ts, LBracket, YieldItems(es.value, true), RBracket, es.rest);
    } else {
      assert ts == [ts[0]] + ts[1..];
    }
  }

  lemma {:induction false} ItemTokens(comma: Tokens, item: Tokens, more: Tokens, rest: Tokens)
    ensures comma + item + more + rest == comma + (item + (more + rest))
  {
  }

  lemma {:induction false} ItemsSound(ts: Tokens, close: Token, first: bool)
    requires ParseItems(ts, close, first).Ok?
    ensures var r := ParseItems(ts, close, first);
            (forall i :: 0 <= i < |r.value| ==> Good(r.value[i])) && YieldItems(r.value, first) + ([close] + r.rest) == ts
    decreases |ts|, 7
  {
    if ts[0] == close {
      assert ts == [ts[0]] + ts[1..];
    } else {
      var us := if first then ts else ts[1..];
      var e := ParseExpr(us);
      var es := ParseItems(e.rest, close, false);
      ExprSound(us);
      ItemsSound(e.rest, close, false);
      var all := [e.value] + es.value;
      assert all[1..] == es.value;
      var comma := if first then [] else [Comma];
      assert comma + us == ts;
      ItemTokens(comma, Yield(e.value), YieldItems(es.value, false), [close] + es.rest);
    }
  }

  // ----- every good tree is parsed back from its tokens

  function Leftmost(t: Tree): (u: Tree)
    ensures !u.Chain?
  {
    if t.Chain? then Leftmost(t.left) else t
  }

  /** The tokens of `t` after its leftmost operand. */
  function AfterLeftmost(t: Tree): (ts: Tokens) {
    if t.Chain? then AfterLeftmost(t.left) + ([t.sign] + Yield(t.right)) else []
  }

  /** What follows is not an argument list. */
  predicate NoCall(rest: Tokens) {
    rest == [] || !rest[0].LParen?
  }

  lemma {:induction false} ExprOk(t: Tree, rest: Tokens)
    requires Good(t) && NoCall(rest) && !Continues(rest, 0)
    ensures ParseExpr(Yield(t) + rest) == Ok(t, rest)
    decreases t, 5
  {
    UnaryOk(t, rest);
    if t.Chain? {
      ContOk(t, 0, rest);
    } else {
      assert [] + rest == rest;
    }
  }

  lemma {:induction false} UnaryOk(t: Tree, rest: Tokens)
    requires Good(t) && NoCall(rest)
    ensures ParseUnary(Yield(t) + rest) == Ok(Leftmost(t), AfterLeftmost(t) + rest)
    decreases t, 3
  {
    if t.Chain? {
      var x := [t.sign] + Yield(t.right) + rest;
      UnaryOk(t.left, x);
      assert Yield(t.left) + ([t.sign] + Yield(t.right)) + rest == Yield(t.left) + x;
      assert AfterLeftmost(t.left) + ([t.sign] + Yield(t.right)) + rest == AfterLeftmost(t.left) + x;
    } else if t.Prefix? {
      var ts := Yield(t) + rest;
      UnaryOk(t.operand, rest);
      assert ts[1..] == Yield(t.operand) + rest;
      assert ([t.sign] + Yield(t.operand))[1] == Yield(t.operand)[0] == ts[1];
      assert [] + rest == rest;
    } else {
      OperandOk(t, rest);
      assert [] + rest == rest;
    }
  }

  /** The loop takes in one more operator and its right operand. */
  lemma {:induction false} StepOk(t: Tree, p: nat, rest: Tokens)
    requires t.Chain? && Good(t) && Binding(t.sign) >= p && NoCall(rest) && Below(t, rest)
    ensures ParseCont(t.left, [t.sign] + Yield(t.right) + rest, p) == ParseCont(t, rest, p)
    decreases t, 3, 0
  {
    var x := [t.sign] + Yield(t.right) + rest;
    assert x[1..] == Yield(t.right) + rest;
    UnaryOk(t.right, rest);
    if t.right.Chain? {
      InnerOk(t.right, Binding(t.sign), rest);
    } else {
      assert [] + rest == rest;
    }
  }

  lemma {:induction false} LeftmostShift(t: Tree, rest: Tokens)
    requires t.Chain?
    ensures AfterLeftmost(t) + rest == AfterLeftmost(t.left) + ([t.sign] + Yield(t.right) + rest)
    ensures !t.left.Chain? ==> AfterLeftmost(t) + rest == [t.sign] + Yield(t.right) + rest
  {
  }

  lemma {:induction false} ContOk(t: Tree, p: nat, rest: Tokens)
    requires t.Chain? && Good(t) && Binding(t.sign) >= p && NoCall(rest) && Below(t, rest)
    ensures ParseCont(Leftmost(t), AfterLeftmost(t) + rest, p) == ParseCont(t, rest, p)
    decreases t, 4
  {
    LeftmostShift(t, rest);
    if t.left.Chain? {
      ContOk(t.left, p, [t.sign] + Yield(t.right) + rest);
    }
    StepOk(t, p, rest);
  }

  lemma {:induction false} InnerOk(t: Tree, q: nat, rest: Tokens)
    requires t.Chain? && Good(t) && Binding(t.sign) > q && NoCall(rest) && Below(t, rest)
    ensures ParseInner(Leftmost(t), AfterLeftmost(t) + rest, q) == ParseInner(t, rest, q)
    decreases t, 4
  {
    LeftmostShift(t, rest);
    if t.left.Chain? {
      InnerOk(t.left, q, [t.sign] + Yield(t.right) + rest);
    }
    InnerStepOk(t, q, rest);
  }

  lemma {:induction false} InnerStepOk(t: Tree, q: nat, rest: Tokens)
    requires t.Chain? && Good(t) && Binding(t.sign) > q && NoCall(rest) && Below(t, rest)
    ensures ParseInner(t.left, [t.sign] + Yield(t.right) + rest, q) == ParseInner(t, rest, q)
    decreases t, 3, 1
  {
    var p := Binding(t.sign);
    StepOk(t, p, rest);
    if Continues(rest, p) {
      assert Binding(rest[0]) == p;
    } else {
      assert ParseCont(t, rest, p) == Ok(t, rest);
    }
  }

  lemma {:induction false} OperandOk(t: Tree, rest: Tokens)
    requires Good(t) && !t.Chain? && !t.Prefix? && NoCall(rest)
    ensures !StartsPrefix(Yield(t) + rest) && ParseOperand(Yield(t) + rest) == Ok(t, rest)
    decreases t, 2
  {
    var ts := Yield(t) + rest;
    match t
    case Num(neg, n) =>
      assert neg ==> ts[2..] == rest;
      assert !neg ==> ts[1..] == rest;
    case Flag(_) => assert ts[1..] == rest;
    case Apply(f, args) => ApplyOk(t, rest);
    case Name(_) => PrimaryOk(t, rest);
    case Paren(_) => PrimaryOk(t, rest);
    case List(_) => PrimaryOk(t, rest);
  }

  lemma {:induction false} ApplyOk(t: Tree, rest: Tokens)
    requires Good(t) && t.Apply?
    ensures !StartsPrefix(Yield(t) + rest) && ParseOperand(Yield(t) + rest) == Ok(t, rest)
    decreases t, 1
  {
    var x := [LParen] + YieldItems(t.args, true) + [RParen] + rest;
    assert Yield(t) + rest == Yield(t.fn) + x;
    PrimaryOk(t.fn, x);
    assert x[1..] == YieldItems(t.args, true) + ([RParen] + rest);
    ItemsOk(t.args, RParen, true, rest);
  }

  lemma {:induction false} PrimaryOk(t: Tree, rest: Tokens)
    requires Good(t) && (t.Name? || t.Paren? || t.List?)
    ensures ParsePrimary(Yield(t) + rest) == Ok(t, rest)
    ensures Yield(t)[0].Ident? || Yield(t)[0].LParen? || Yield(t)[0].LBracket?
    decreases t, 1
  {
    var ts := Yield(t) + rest;
    match t
    case Name(_) => assert ts[1..] == rest;
    case Paren(e) =>
      assert ts[1..] == Yield(e) + ([RParen] + rest);
      ExprOk(e, [RParen] + rest);
      assert ([RParen] + rest)[1..] == rest;
    case List(es) =>
      assert ts[1..] == YieldItems(es, true) + ([RBracket] + rest);
      ItemsOk(es, RBracket, true, rest);
  }

  lemma {:induction false} StartsExpression(t: Tree)
    requires Good(t)
    ensures Yield(t)[0] !in {RParen, RBracket, Comma}
  {
    match t
    case Apply(f, _) => StartsExpression(f);
    case Chain(_, l, _) => StartsExpression(l);
    case Num(neg, n) =>
    case Flag(_) =>
    case Name(_) =>
    case Paren(_) =>
    case List(_) =>
    case Prefix(op, e) =>
  }

  lemma {:induction false} ItemOk(t: Tree, first: bool, rest: Tokens)
    requires Good(t) && NoCall(rest) && !Continues(rest, 0)
    ensures var ts := (if first then [] else [Comma]) + (Yield(t) + rest);
            ParseItem(ts, first) == Ok(t, rest) && !ts[0].RParen? && !ts[0].RBracket?
    decreases t, 6
  {
    var ts := (if first then [] else [Comma]) + (Yield(t) + rest);
    StartsExpression(t);
    ExprOk(t, rest);
    assert (if first then ts else ts[1..]) == Yield(t) + rest;
  }

  lemma {:induction false} ItemsOk(es: seq<Tree>, close: Token, first: bool, rest: Tokens)
    requires (close.RParen? || close.RBracket?) && forall i :: 0 <= i < |es| ==> Good(es[i])
    ensures ParseItems(YieldItems(es, first) + ([close] + rest), close, first) == Ok(es, rest)
    decreases es, 0
  {
    var ts := YieldItems(es, first) + ([close] + rest);
    if es == [] {
      assert ts == [close] + rest;
      assert ts[1..] == rest;
    } else {
      var x := YieldItems(es[1..], false) + ([close] + rest);
      ItemTokens(if first then [] else [Comma], Yield(es[0]), YieldItems(es[1..], false), [close] + rest);
      assert x[0] == if |es| == 1 then close else Comma;
      ItemOk(es[0], first, x);
      ItemsOk(es[1..], close, false, rest);
      assert [es[0]] + es[1..] == es;
    }
  }

  /** The parser accepts a token sequence with a tree exactly when the tree is good and has these
      tokens. So there is at most one good tree for a token sequence. */
  lemma {:induction false} ParsesExactly(ts: Tokens, t: Tree)
    ensures ParseExpr(ts) == Ok(t, []) <==> Good(t) && Yield(t) == ts
  {
    if ParseExpr(ts) == Ok(t, []) {
      ExprSound(ts);
      assert Yield(t) + [] == Yield(t);
    }
    if Good(t) && Yield(t) == ts {
      ExprOk(t, []);
      assert ts + [] == ts;
    }
  }

  lemma {:induction false} TreeUnique(t: Tree, u: Tree)
    requires Good(t) && Good(u) && Yield(t) == Yield(u)
    ensures t == u
  {
    ParsesExactly(Yield(t), t);
    ParsesExactly(Yield(t), u);
  }

  // ----- printing

  function Sign(op: UnaryOp, operand: Tokens): (t: Token) {
    match op
    case Negate => Dash(operand != [] && operand[0].Number?)
    case LogicalNot => Bang
    case Invert => Tilde
  }

  function InfixToken(op: BinaryOp): (t: Token)
    ensures IsInfix(t)
  {
    if op.Minus? then Dash(false) else Infix(op)
  }

  /** The fully parenthesised print. */
  function Print(e: Expr): (ts: Tokens)
    ensures ts != []
    decreases e
  {
    match e
    case Var(x) => [Ident(x)]
    case Int(n) => if n < 0 then [Dash(true), Number(-n)] else [Number(n)]
    case Bool(b) => [Truth(b)]
    case Unary(op, f) => [Sign(op, Print(f))] + Print(f)
    case Binary(op, l, r) => [LParen] + (Print(l) + ([InfixToken(op)] + Print(r))) + [RParen]
    case Call(fn, args) => [Ident(BuiltinName(fn))] + ([LParen] + PrintArgs(args, true) + [RParen])
  }

  function PrintArgs(args: seq<Expr>, first: bool): (ts: Tokens)
    decreases args
  {
    if args == [] then []
    else (if first then [] else [Comma]) + Print(args[0]) + PrintArgs(args[1..], false)
  }

  /** A minus sign in front of a literal that is not negative. */
  predicate NegatedLiteral(e: Expr) {
    e.Unary? && e.uop.Negate? && e.e.Int? && e.e.n >= 0
  }

  /** The tree of an expression's print. */
  function Printed(e: Expr): (t: Tree)
    decreases e
  {
    match e
    case Var(x) => Name(x)
    case Int(n) => Num(n < 0, if n < 0 then -n else n)
    case Bool(b) => Flag(b)
    case Unary(op, f) => if NegatedLiteral(e) then Num(true, f.n) else Prefix(Sign(op, Print(f)), Printed(f))
    case Binary(op, l, r) => Paren(Chain(InfixToken(op), Printed(l), Printed(r)))
    case Call(fn, args) => Apply(Name(BuiltinName(fn)), PrintedArgs(args))
  }

  function PrintedArgs(args: seq<Expr>): (ts: seq<Tree>)
    ensures |ts| == |args| && forall i :: 0 <= i < |args| ==> ts[i] == Printed(args[i])
    decreases args
  {
    if args == [] then [] else [Printed(args[0])] + PrintedArgs(args[1..])
  }

  lemma {:induction false} PrintedGood(e: Expr)
    ensures Yield(Printed(e)) == Print(e) && Good(Printed(e)) && !Printed(e).Chain?
    ensures Print(e)[0].Number? <==> e.Int? && e.n >= 0
    decreases e, 1
  {
    match e
    case Var(_) =>
    case Int(_) =>
    case Bool(_) =>
    case Unary(op, f) => PrintedGood(f);
    case Binary(op, l, r) =>
      PrintedGood(l);
      PrintedGood(r);
    case Call(fn, args) => PrintedArgsGood(args, true);
  }

  lemma {:induction false} PrintedArgsGood(args: seq<Expr>, first: bool)
    ensures YieldItems(PrintedArgs(args), first) == PrintArgs(args, first)
    ensures forall i :: 0 <= i < |args| ==> Good(PrintedArgs(args)[i])
    decreases args, 0
  {
    if args != [] {
      PrintedGood(args[0]);
      PrintedArgsGood(args[1..], false);
      assert PrintedArgs(args)[1..] == PrintedArgs(args[1..]);
    }
  }

  // ----- from trees back to expressions

  function BuiltinNamed(x: string): (b: Option<Builtin>) {
    if x == "sha3" then Some(Sha3)
    else if x == "sha256" then Some(Sha256)
    else if x == "size" then Some(SizeOf)
    else if x == "abs" then Some(AbsOf)
    else if x == "min" then Some(MinOf)
    else if x == "max" then Some(MaxOf)
    else if x == "checkTxSig" then Some(CheckTxSig)
    else if x == "concat" then Some(Concat)
    else if x == "concatpush" then Some(ConcatPush)
    else if x == "below" then Some(Builtin.Below)
    else if x == "above" then Some(Above)
    else None
  }

  function UnarySigned(t: Token): (op: Option<UnaryOp>) {
    if t.Dash? then Some(Negate) else if t.Bang? then Some(LogicalNot) else if t.Tilde? then Some(Invert) else None
  }

  /** The expression a tree stands for, parentheses gone; lists and calls of anything but a builtin
      have none. */
  function Expression(t: Tree): (r: Option<Expr>)
    decreases t
  {
    match t
    case Num(neg, n) => var k: int := n; Some(Int(if neg then -k else k))
    case Flag(b) => Some(Bool(b))
    case Name(x) => Some(Var(x))
    case Paren(e) => Expression(e)
    case List(_) => None
    case Apply(f, args) =>
      if !f.Name? then None else
      var fn :- BuiltinNamed(f.x);
      var es :- Expressions(args);
      Some(Call(fn, es))
    case Prefix(op, e) =>
      var o :- UnarySigned(op);
      var f :- Expression(e);
      Some(Unary(o, f))
    case Chain(op, l, r) =>
      if !IsInfix(op) then None else
      var x :- Expression(l);
      var y :- Expression(r);
      Some(Binary(Infixed(op), x, y))
  }

  function Expressions(ts: seq<Tree>): (r: Option<seq<Expr>>)
    decreases ts
  {
    if ts == [] then Some([]) else
    var e :- Expression(ts[0]);
    var es :- Expressions(ts[1..]);
    Some([e] + es)
  }

  /** A negated literal turned into a negative one, throughout. */
  function Folded(e: Expr): (r: Expr)
    decreases e
  {
    match e
    case Var(_) => e
    case Int(_) => e
    case Bool(_) => e
    case Unary(op, f) => if NegatedLiteral(e) then Int(-f.n) else Unary(op, Folded(f))
    case Binary(op, l, r) => Binary(op, Folded(l), Folded(r))
    case Call(fn, args) => Call(fn, FoldedArgs(args))
  }

  function FoldedArgs(args: seq<Expr>): (r: seq<Expr>)
    decreases args
  {
    if args == [] then [] else [Folded(args[0])] + FoldedArgs(args[1..])
  }

  ghost predicate HasNegatedLiteral(e: Expr)
    decreases e
  {
    || NegatedLiteral(e)
    || (e.Unary? && HasNegatedLiteral(e.e))
    || (e.Binary? && (HasNegatedLiteral(e.left) || HasNegatedLiteral(e.right)))
    || (e.Call? && exists i :: 0 <= i < |e.args| && HasNegatedLiteral(e.args[i]))
  }

  lemma {:induction false} BuiltinNames(b: Builtin)
    ensures BuiltinNamed(BuiltinName(b)) == Some(b)
  {
  }

  lemma {:induction false} PrintedMeans(e: Expr)
    ensures Expression(Printed(e)) == Some(Folded(e))
    decreases e, 1
  {
    match e
    case Var(_) =>
    case Int(_) =>
    case Bool(_) =>
    case Unary(op, f) => PrintedMeans(f);
    case Binary(op, l, r) =>
      PrintedMeans(l);
      PrintedMeans(r);
    case Call(fn, args) =>
      BuiltinNames(fn);
      PrintedArgsMean(args);
  }

  lemma {:induction false} PrintedArgsMean(args: seq<Expr>)
    ensures Expressions(PrintedArgs(args)) == Some(FoldedArgs(args))
    decreases args, 0
  {
    if args != [] {
      PrintedMeans(args[0]);
      PrintedArgsMean(args[1..]);
      assert PrintedArgs(args)[1..] == PrintedArgs(args[1..]);
    }
  }

  lemma {:induction false} FoldedSame(e: Expr)
    ensures Folded(e) == e <==> !HasNegatedLiteral(e)
    decreases e, 1
  {
    match e
    case Var(_) =>
    case Int(_) =>
    case Bool(_) =>
    case Unary(op, f) => FoldedSame(f);
    case Binary(op, l, r) =>
      FoldedSame(l);
      FoldedSame(r);
    case Call(fn, args) => FoldedArgsSame(args);
  }

  lemma {:induction false} FoldedArgsSame(args: seq<Expr>)
    ensures FoldedArgs(args) == args <==> forall i :: 0 <= i < |args| ==> !HasNegatedLiteral(args[i])
    decreases args, 0
  {
    if args != [] {
      FoldedSame(args[0]);
      FoldedArgsSame(args[1..]);
      var all := FoldedArgs(args);
      assert all[0] == Folded(args[0]) && all[1..] == FoldedArgs(args[1..]);
      assert args == [args[0]] + args[1..];
      assert all == args <==> all[0] == args[0] && all[1..] == args[1..];
      assert forall i :: 0 < i < |args| ==> args[i] == args[1..][i - 1];
    }
  }

  /** Parsing the print of an expression always succeeds and gives the expression with its negated
      literals folded, so the very same expression exactly when it has none. */
  lemma {:induction false} PrintThenParse(e: Expr)
    ensures ParseExpr(Print(e)) == Ok(Printed(e), [])
    ensures Expression(Printed(e)) == Some(Folded(e))
    ensures Folded(e) == e <==> !HasNegatedLiteral(e)
  {
    PrintedGood(e);
    ParsesExactly(Print(e), Printed(e));
    PrintedMeans(e);
    FoldedSame(e);
  }

  // ----- the parser as it runs

  /** The parser object: the input and a position that its methods move forward. A method that
      returns nothing has met an error; the position is then of no use. */
  class Parser {
    const buf: Tokens
    var pos: nat

    constructor (buf: Tokens)
      ensures this.buf == buf && pos == 0
    {
      this.buf, pos := buf, 0;
    }

    ghost predicate Valid()
      reads this
    {
      pos <= |buf|
    }

    /** The method has done what `r` says, having started at position `from`. */
    ghost predicate Did<T>(r: Res<T>, got: Option<T>, from: nat)
      reads this
    {
      if r.Fail? then got.None?
      else got == Some(r.value) && from <= pos <= |buf| && buf[pos..] == r.rest
    }

    method Parse() returns (t: Option<Tree>)
      requires Valid()
      modifies this
      ensures Did(ParseExpr(buf[old(pos)..]), t, old(pos))
      decreases |buf| - pos, 5
    {
      t := Unary();
      if t.Some? {
        t := Cont(t.value, 0);
      }
    }

    method Unary() returns (t: Option<Tree>)
      requires Valid()
      modifies this
      ensures Did(ParseUnary(buf[old(pos)..]), t, old(pos))
      decreases |buf| - pos, 4
    {
      if StartsPrefix(buf[pos..]) {
        var sign := buf[pos];
        assert buf[pos..][1..] == buf[pos + 1..];
        pos := pos + 1;
        t := Unary();
        if t.Some? {
          t := Some(Prefix(sign, t.value));
        }
      } else {
        t := Operand();
      }
    }

    /** The two nested loops of precedence climbing. */
    method Cont(start: Tree, min: nat) returns (t: Option<Tree>)
      requires Valid()
      modifies this
      ensures Did(ParseCont(start, buf[old(pos)..], min), t, old(pos))
      decreases |buf| - pos, 1
    {
      var lhs := start;
      while Continues(buf[pos..], min)
        invariant old(pos) <= pos <= |buf|
        invariant ParseCont(lhs, buf[pos..], min) == ParseCont(start, buf[old(pos)..], min)
        decreases |buf| - pos
      {
        ghost var ts := buf[pos..];
        var sign := buf[pos];
        assert ts[1..] == buf[pos + 1..];
        pos := pos + 1;
        t := Unary();
        if t.None? {
          return;
        }
        t := Inner(t.value, Binding(sign));
        if t.None? {
          return;
        }
        lhs := Chain(sign, lhs, t.value);
      }
      t := Some(lhs);
    }

    method Inner(start: Tree, p: nat) returns (t: Option<Tree>)
      requires Valid()
      modifies this
      ensures Did(ParseInner(start, buf[old(pos)..], p), t, old(pos))
      decreases |buf| - pos, 2
    {
      var rhs := start;
      while Continues(buf[pos..], p + 1)
        invariant old(pos) <= pos <= |buf|
        invariant ParseInner(rhs, buf[pos..], p) == ParseInner(start, buf[old(pos)..], p)
        decreases |buf| - pos
      {
        t := Cont(rhs, Binding(buf[pos]));
        if t.None? {
          return;
        }
        rhs := t.value;
      }
      t := Some(rhs);
    }

    method Operand() returns (t: Option<Tree>)
      requires Valid()
      modifies this
      ensures Did(ParseOperand(buf[old(pos)..]), t, old(pos))
      decreases |buf| - pos, 3
    {
      if pos == |buf| {
        return None;
      }
      var first := buf[pos];
      if first.Number? || first.Truth? {
        assert buf[pos..][1..] == buf[pos + 1..];
        pos := pos + 1;
        return Some(if first.Number? then Num(false, first.n) else Flag(first.b));
      }
      if StartsNegative(buf[pos..]) {
        assert buf[pos..][2..] == buf[pos + 2..];
        pos := pos + 2;
        return Some(Num(true, buf[pos - 1].n));
      }
      t := Primary();
      if t.Some? && pos < |buf| && buf[pos].LParen? {
        assert buf[pos..][1..] == buf[pos + 1..];
        pos := pos + 1;
        var args := Items(RParen);
        t := if args.None? then None else Some(Apply(t.value, args.value));
      }
    }

    method Primary() returns (t: Option<Tree>)
      requires Valid()
      modifies this
      ensures Did(ParsePrimary(buf[old(pos)..]), t, old(pos))
      decreases |buf| - pos, 2
    {
      if pos == |buf| {
        return None;
      }
      var first := buf[pos];
      assert buf[pos..][1..] == buf[pos + 1..];
      pos := pos + 1;
      if first.LParen? {
        t := Parse();
        if t.None? || pos == |buf| || !buf[pos].RParen? {
          return None;
        }
        assert buf[pos..][1..] == buf[pos + 1..];
        pos := pos + 1;
        t := Some(Paren(t.value));
      } else if first.LBracket? {
        var es := Items(RBracket);
        t := if es.None? then None else Some(List(es.value));
      } else {
        t := if first.Ident? then Some(Name(first.name)) else None;
      }
    }

    /** An item behind the comma it needs unless it is the first. */
    method Item(first: bool) returns (t: Option<Tree>)
      requires Valid() && pos < |buf|
      modifies this
      ensures Did(ParseItem(buf[old(pos)..], first), t, old(pos))
      decreases |buf| - pos, 6
    {
      if !first {
        assert buf[pos..][1..] == buf[pos + 1..];
        if !buf[pos].Comma? {
          return None;
        }
        pos := pos + 1;
      }
      t := Parse();
    }

    /** The list items up to the closing token, one loop for lists and arguments. */
    method Items(close: Token) returns (r: Option<seq<Tree>>)
      requires Valid()
      modifies this
      ensures Did(ParseItems(buf[old(pos)..], close, true), r, old(pos))
      decreases |buf| - pos, 7
    {
      var es: seq<Tree> := [];
      var first := true;
      PrependNone(ParseItems(buf[pos..], close, true));
      while pos < |buf| && buf[pos] != close
        invariant old(pos) <= pos <= |buf|
        invariant Prepended(es, ParseItems(buf[pos..], close, first)) == ParseItems(buf[old(pos)..], close, true)
        decreases |buf| - pos
      {
        ItemsUnfold(es, buf[pos..], close, first);
        var e := Item(first);
        if e.None? {
          return None;
        }
        es, first := es + [e.value], false;
      }
      if pos == |buf| {
        return None;
      }
      assert buf[pos..][1..] == buf[pos + 1..];
      pos := pos + 1;
      assert es + [] == es;
      r := Some(es);
    }
  }

  function Prepended(es: seq<Tree>, r: Res<seq<Tree>>): (q: Res<seq<Tree>>) {
    if r.Fail? then r else Ok(es + r.value, r.rest)
  }

  lemma {:induction false} PrependNone(r: Res<seq<Tree>>)
    ensures Prepended([], r) == r
  {
    if r.Ok? {
      assert [] + r.value == r.value;
    }
  }

  lemma {:induction false} ItemsUnfold(es: seq<Tree>, ts: Tokens, close: Token, first: bool)
    requires ts != [] && ts[0] != close
    ensures Prepended(es, ParseItems(ts, close, first)) ==
              var e := ParseItem(ts, first);
              if e.Fail? then Fail else Prepended(es + [e.value], ParseItems(e.rest, close, false))
  {
    var e := ParseItem(ts, first);
    if e.Ok? && ParseItems(e.rest, close, false).Ok? {
      var more := ParseItems(e.rest, close, false).value;
      assert es + ([e.value] + more) == es + [e.value] + more;
    }
  }

  /** Parsing a whole input succeeds exactly on the token sequences of good trees, and then with
      that tree. */
  method ParseAll(buf: Tokens) returns (r: Option<Tree>)
    ensures r.Some? ==> Good(r.value) && Yield(r.value) == buf
    ensures r.None? ==> forall t :: Good(t) ==> Yield(t) != buf
  {
    var p := new Parser(buf);
    assert buf[0..] == buf;
    r := p.Parse();
    ghost var spec := ParseExpr(buf);
    if r.Some? && p.pos < |buf| {
      r := None;
    }
    forall t ensures spec == Ok(t, []) <==> Good(t) && Yield(t) == buf {
      ParsesExactly(buf, t);
    }
  }
}
