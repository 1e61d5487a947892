/** Merging many outputs into one through a chain of transactions: a work queue that grows by the
    output of every transaction built. Amounts are unsigned 64-bit numbers: the code adds and takes
    off the gas without looking, so what a transaction pays is given modulo 2^64. */
module MergeChain {
  import opened Options
  import opened Arithmetic
  import opened CoinSelection

  const CHAIN_TX_UTXO_NUM := 20

  /** A number as an unsigned 64-bit one. */
  function Wrap(n: int): (r: nat) {
    n % TWO64
  }

  datatype Template = Template(inputs: seq<Utxo>, output: Utxo)

  /** The output of a merging transaction: in the native asset, not filed under an account. */
  function Merged(id: Hash, amount: nat): (u: Utxo) {
    Utxo(id, 0, 0, [], amount, 0)
  }

  function Outputs(tpls: seq<Template>): (us: seq<Utxo>)
    ensures |us| == |tpls|
  {
    if tpls == [] then [] else Outputs(tpls[..|tpls| - 1]) + [tpls[|tpls| - 1].output]
  }

  function Inputs(tpls: seq<Template>): (us: seq<Utxo>) {
    if tpls == [] then [] else Inputs(tpls[..|tpls| - 1]) + tpls[|tpls| - 1].inputs
  }

  /** A transaction passes on the amount of its inputs but the gas, as 64-bit numbers. */
  ghost predicate Pays(t: Template, gas: nat) {
    t.output.amount == Wrap(Sum(t.inputs) - gas)
  }

  /** It really does. */
  ghost predicate PaysExactly(t: Template, gas: nat) {
    t.output.amount + gas == Sum(t.inputs)
  }

  /** What a transaction pays is right exactly when its inputs cover the gas and do not overflow. */
  lemma {:induction false} PaysRight(t: Template, gas: nat)
    requires Pays(t, gas)
    ensures PaysExactly(t, gas) <==> gas <= Sum(t.inputs) < TWO64 + gas
  {
  }

  function TemplateCount(n: nat): (k: nat)
    requires n >= 1
  {
    (n - 1 + 18) / 19
  }

  /** The gas of `n` transactions. */
  function TotalGas(n: nat, gas: nat): (g: nat) {
    if n == 0 then 0 else TotalGas(n - 1, gas) + gas
  }

  lemma {:induction false} TotalGasIs(n: nat, gas: nat)
    ensures TotalGas(n, gas) == n * gas
  {
    if n > 0 {
      TotalGasIs(n - 1, gas);
      assert (n - 1) * gas + gas == n * gas;
    }
  }

  lemma {:induction false} Snoc(tpls: seq<Template>, t: Template)
    ensures Outputs(tpls + [t]) == Outputs(tpls) + [t.output] && Inputs(tpls + [t]) == Inputs(tpls) + t.inputs
  {
    assert (tpls + [t])[..|tpls|] == tpls;
  }

  lemma {:induction false} WrapSum(a: int, b: int, c: int, d: int)
    requires Wrap(a) == Wrap(b) && Wrap(c) == Wrap(d)
    ensures Wrap(a + c) == Wrap(b + d)
  {
    var x, y := (a - b) / TWO64, (c - d) / TWO64;
    assert a - b == TWO64 * x && c - d == TWO64 * y;
    assert a + c == b + d + TWO64 * (x + y);
  }

  lemma {:induction false} WrapAdd(a: int, b: int)
    ensures Wrap(Wrap(a) + b) == Wrap(a + b)
  {
    WrapSum(Wrap(a), a, b, b);
  }

  lemma {:induction false} WrapPaid(out: nat, ins: int, gas: int)
    requires out == Wrap(ins - gas)
    ensures Wrap(ins) == Wrap(out + gas)
  {
    WrapAdd(ins - gas, gas);
  }

  /** What goes in comes out, but the gas, as 64-bit numbers. */
  lemma {:induction false} Conserved(tpls: seq<Template>, gas: nat)
    requires forall i :: 0 <= i < |tpls| ==> Pays(tpls[i], gas)
    ensures Wrap(Sum(Inputs(tpls))) == Wrap(Sum(Outputs(tpls)) + TotalGas(|tpls|, gas))
    decreases |tpls|
  {
    if tpls != [] {
      var n := |tpls| - 1;
      Conserved(tpls[..n], gas);
      SumAppend(Inputs(tpls[..n]), tpls[n].inputs);
      SumOne(Outputs(tpls[..n]), tpls[n].output);
      assert Pays(tpls[n], gas);
      WrapPaid(tpls[n].output.amount, Sum(tpls[n].inputs), gas);
      WrapSum(Sum(Inputs(tpls[..n])), Sum(Outputs(tpls[..n])) + TotalGas(n, gas), Sum(tpls[n].inputs), tpls[n].output.amount + gas);
    }
  }

  lemma {:induction false} SumOne(us: seq<Utxo>, u: Utxo)
    ensures Sum(us + [u]) == Sum(us) + u.amount
  {
    SumAppend(us, [u]);
    assert [u][1..] == [];
  }

  /** The gas to merge `n` outputs, as a 64-bit number. */
  function GasFor(n: nat, mergeGas: nat): (g: nat) {
    Wrap(if n <= 1 then 0 else TemplateCount(n) * mergeGas)
  }

  method CalcMergeGas(num: nat, mergeGas: nat) returns (gas: nat)
    ensures gas == GasFor(num, mergeGas)
  {
    gas := 0;
    var left: int := num;
    ghost var k := 0;
    while left > 1
      invariant left == num - 19 * k && gas == Wrap(TotalGas(k, mergeGas)) && (k > 0 ==> left > -18)
      decreases left
    {
      WrapAdd(TotalGas(k, mergeGas), mergeGas);
      gas := Wrap(gas + mergeGas);
      left := left - (CHAIN_TX_UTXO_NUM - 1);
      k := k + 1;
    }
    TotalGasIs(k, mergeGas);
  }

  /** The chain made of the queue `utxos` grown by the outputs of `tpls`: every output but the last is
      spent once, in order, by transactions of two to twenty inputs. */
  ghost predicate Chained(utxos: seq<Utxo>, tpls: seq<Template>, last: Utxo, gas: nat) {
    && Inputs(tpls) + [last] == utxos + Outputs(tpls)
    && (forall i :: 0 <= i < |tpls| ==> Pays(tpls[i], gas) && 2 <= |tpls[i].inputs| <= CHAIN_TX_UTXO_NUM)
  }

  lemma {:induction false} FinalSum(total: int, ins: int, outs: int, g: int, last: int)
    requires ins + last == total + outs && Wrap(ins) == Wrap(outs + g) && 0 <= last < TWO64
    ensures last == Wrap(total - g)
  {
    WrapSum(ins, outs + g, last - outs - g, last - outs - g);
    assert ins + (last - outs - g) == total - g && outs + g + (last - outs - g) == last;
  }

  /** The final output is worth the inputs but the gas of all transactions, as a 64-bit number. */
  lemma {:induction false} FinalAmount(utxos: seq<Utxo>, tpls: seq<Template>, last: Utxo, gas: nat)
    requires Chained(utxos, tpls, last, gas) && last.amount < TWO64
    ensures last.amount == Wrap(Sum(utxos) - TotalGas(|tpls|, gas))
  {
    Conserved(tpls, gas);
    SumOne(Inputs(tpls), last);
    SumAppend(utxos, Outputs(tpls));
    FinalSum(Sum(utxos), Sum(Inputs(tpls)), Sum(Outputs(tpls)), TotalGas(|tpls|, gas), last.amount);
  }

  /** So it is right exactly when the inputs cover the gas and what is left fits 64 bits. */
  lemma {:induction false} FinalRight(total: nat, gas: nat, last: nat)
    requires last == Wrap(total - gas)
    ensures last + gas == total <==> gas <= total < TWO64 + gas
  {
  }

  ghost predicate Rich(us: seq<Utxo>, gas: nat) {
    forall i :: 0 <= i < |us| ==> us[i].amount >= gas
  }

  /** The loop has closed full transactions `tpls` and taken `cur` for the next one. */
  ghost predicate Going(utxos: seq<Utxo>, queue: seq<Utxo>, tpls: seq<Template>, cur: seq<Utxo>, index: nat, gas: nat) {
    && index <= |queue| && queue == utxos + Outputs(tpls) && Inputs(tpls) + cur == queue[..index]
    && index == CHAIN_TX_UTXO_NUM * |tpls| + |cur|
    && forall i :: 0 <= i < |tpls| ==> Pays(tpls[i], gas) && |tpls[i].inputs| == CHAIN_TX_UTXO_NUM
  }

  lemma {:induction false} TakeOne(utxos: seq<Utxo>, queue: seq<Utxo>, tpls: seq<Template>, cur: seq<Utxo>, index: nat, gas: nat)
    requires Going(utxos, queue, tpls, cur, index, gas) && index < |queue|
    ensures Going(utxos, queue, tpls, cur + [queue[index]], index + 1, gas)
  {
    assert queue[..index + 1] == queue[..index] + [queue[index]];
    assert Inputs(tpls) + (cur + [queue[index]]) == Inputs(tpls) + cur + [queue[index]];
  }

  lemma {:induction false} CloseFull(utxos: seq<Utxo>, queue: seq<Utxo>, tpls: seq<Template>, t: Template, index: nat, gas: nat)
    requires Going(utxos, queue, tpls, t.inputs, index, gas) && Pays(t, gas) && |t.inputs| == CHAIN_TX_UTXO_NUM
    ensures Going(utxos, queue + [t.output], tpls + [t], [], index, gas)
  {
    Snoc(tpls, t);
    assert Inputs(tpls) + t.inputs + [] == Inputs(tpls) + t.inputs;
    assert (queue + [t.output])[..index] == queue[..index];
  }

  lemma {:induction false} CloseLast(utxos: seq<Utxo>, queue: seq<Utxo>, tpls: seq<Template>, t: Template, gas: nat)
    requires Going(utxos, queue, tpls, t.inputs, |queue|, gas) && Pays(t, gas) && 2 <= |t.inputs| <= CHAIN_TX_UTXO_NUM && |utxos| >= 1
    ensures Chained(utxos, tpls + [t], t.output, gas) && |tpls + [t]| == TemplateCount(|utxos|)
  {
    Snoc(tpls, t);
    assert queue[..|queue|] == queue;
    assert utxos + Outputs(tpls) + [t.output] == utxos + (Outputs(tpls) + [t.output]);
  }

  // ----- when every single transaction pays what it should

  lemma {:induction false} AtLeast(us: seq<Utxo>, gas: nat)
    requires |us| >= 2 && Rich(us, gas)
    ensures Sum(us) >= gas + gas
  {
    assert us[1..][0] == us[1];
  }

  /** What the outputs from `i` on are worth. */
  function SumFrom(us: seq<Utxo>, i: nat): (n: nat)
    decreases |us| - i
  {
    if i >= |us| then 0 else us[i].amount + SumFrom(us, i + 1)
  }

  lemma {:induction false} SumFromMore(us: seq<Utxo>, u: Utxo, i: nat)
    requires i <= |us|
    ensures SumFrom(us + [u], i) == SumFrom(us, i) + u.amount
    decreases |us| - i
  {
    if i < |us| {
      SumFromMore(us, u, i + 1);
    } else {
      assert SumFrom(us + [u], |us| + 1) == 0;
    }
  }

  lemma {:induction false} SumFromIs(us: seq<Utxo>, i: nat)
    requires i <= |us|
    ensures SumFrom(us, i) == Sum(us[i..])
    decreases |us| - i
  {
    if i < |us| {
      SumFromIs(us, i + 1);
      assert us[i..][1..] == us[i + 1..];
    }
  }

  /** So far every transaction pays what it should: nothing waiting is worth less than the gas, and
      all of it is worth no more than the outputs merged. */
  ghost predicate Sound(utxos: seq<Utxo>, queue: seq<Utxo>, tpls: seq<Template>, cur: seq<Utxo>, index: nat, gas: nat) {
    && Rich(cur, gas) && Rich(queue, gas) && Sum(cur) + SumFrom(queue, index) <= Sum(utxos)
    && forall i :: 0 <= i < |tpls| ==> PaysExactly(tpls[i], gas)
  }

  lemma {:induction false} SoundTake(utxos: seq<Utxo>, queue: seq<Utxo>, tpls: seq<Template>, cur: seq<Utxo>, index: nat, gas: nat)
    requires index < |queue| && Sound(utxos, queue, tpls, cur, index, gas)
    ensures Sound(utxos, queue, tpls, cur + [queue[index]], index + 1, gas)
  {
    SumOne(cur, queue[index]);
  }

  lemma {:induction false} SoundClose(utxos: seq<Utxo>, queue: seq<Utxo>, tpls: seq<Template>, t: Template, index: nat, gas: nat)
    requires index <= |queue| && Sound(utxos, queue, tpls, t.inputs, index, gas) && Pays(t, gas) && |t.inputs| >= 2 && Sum(utxos) < TWO64
    ensures Sound(utxos, queue + [t.output], tpls + [t], [], index, gas)
  {
    AtLeast(t.inputs, gas);
    PaysRight(t, gas);
    SumFromMore(queue, t.output, index);
  }

  /** Amounts that cover the gas each and fit 64 bits together. */
  ghost predicate Plain(utxos: seq<Utxo>, gas: nat) {
    Rich(utxos, gas) && Sum(utxos) < TWO64
  }

  /** What the merging of two or more outputs comes to. */
  ghost predicate Merges(utxos: seq<Utxo>, tpls: seq<Template>, last: Utxo, gas: nat)
    requires |utxos| >= 1
  {
    && Chained(utxos, tpls, last, gas) && |tpls| == TemplateCount(|utxos|)
    && last.amount == Wrap(Sum(utxos) - TemplateCount(|utxos|) * gas)
    && (Plain(utxos, gas) ==> forall i :: 0 <= i < |tpls| ==> PaysExactly(tpls[i], gas))
  }

  ghost predicate Merging(utxos: seq<Utxo>, queue: seq<Utxo>, tpls: seq<Template>, cur: seq<Utxo>, index: nat, gas: nat)
    requires index <= |queue|
  {
    Going(utxos, queue, tpls, cur, index, gas) && (Plain(utxos, gas) ==> Sound(utxos, queue, tpls, cur, index, gas))
  }

  lemma {:induction false} Started(utxos: seq<Utxo>, gas: nat)
    ensures Merging(utxos, utxos, [], [], 0, gas)
  {
    SumFromIs(utxos, 0);
    assert utxos[0..] == utxos;
  }

  lemma {:induction false} Added(cur: seq<Utxo>, u: Utxo)
    ensures Wrap(Wrap(Sum(cur)) + u.amount) == Wrap(Sum(cur + [u]))
  {
    SumOne(cur, u);
    WrapAdd(Sum(cur), u.amount);
  }

  lemma {:induction false} Took(utxos: seq<Utxo>, queue: seq<Utxo>, tpls: seq<Template>, cur: seq<Utxo>, index: nat, gas: nat)
    requires index < |queue| && Merging(utxos, queue, tpls, cur, index, gas)
    ensures Merging(utxos, queue, tpls, cur + [queue[index]], index + 1, gas)
  {
    TakeOne(utxos, queue, tpls, cur, index, gas);
    if Plain(utxos, gas) {
      SoundTake(utxos, queue, tpls, cur, index, gas);
    }
  }

  lemma {:induction false} Closed(utxos: seq<Utxo>, queue: seq<Utxo>, tpls: seq<Template>, t: Template, index: nat, gas: nat)
    requires index <= |queue| && Merging(utxos, queue, tpls, t.inputs, index, gas) && Pays(t, gas) && |t.inputs| == CHAIN_TX_UTXO_NUM
    ensures Merging(utxos, queue + [t.output], tpls + [t], [], index, gas)
  {
    CloseFull(utxos, queue, tpls, t, index, gas);
    if Plain(utxos, gas) {
      SoundClose(utxos, queue, tpls, t, index, gas);
    }
  }

  lemma {:induction false} Paid(t: Template, gas: nat)
    requires t.output.amount == Wrap(Wrap(Sum(t.inputs)) - gas)
    ensures Pays(t, gas)
  {
    WrapAdd(Sum(t.inputs), 0 - gas);
  }

  lemma {:induction false} Finished(utxos: seq<Utxo>, queue: seq<Utxo>, tpls: seq<Template>, t: Template, gas: nat)
    requires Merging(utxos, queue, tpls, t.inputs, |queue|, gas) && Pays(t, gas) && 2 <= |t.inputs| <= CHAIN_TX_UTXO_NUM && |utxos| >= 1
    ensures Merges(utxos, tpls + [t], t.output, gas)
  {
    CloseLast(utxos, queue, tpls, t, gas);
    FinalAmount(utxos, tpls + [t], t.output, gas);
    TotalGasIs(TemplateCount(|utxos|), gas);
    if Plain(utxos, gas) {
      SoundClose(utxos, queue, tpls, t, |queue|, gas);
    }
  }

  /** What the loop may rely on: `inv` over the queue, the transactions so far, the inputs taken and
      the place in the queue, and `fin` over all transactions and the final output. */
  type Stage = (seq<Utxo>, seq<Template>, seq<Utxo>, nat) -> bool
  type Result = (seq<Template>, Utxo) -> bool

  /** The transaction over `cur`, whose inputs the code has added up. */
  function Close(cur: seq<Utxo>, buildAmount: nat, gas: nat, id: Hash): (t: Template) {
    Template(cur, Merged(id, Wrap(buildAmount - gas)))
  }

  ghost predicate TakeAt(inv: Stage, queue: seq<Utxo>, tpls: seq<Template>, cur: seq<Utxo>, index: nat) {
    index < |queue| && inv(queue, tpls, cur, index) ==> inv(queue, tpls, cur + [queue[index]], index + 1)
  }

  ghost predicate CloseAt(inv: Stage, fin: Result, queue: seq<Utxo>, tpls: seq<Template>, cur: seq<Utxo>, index: nat, gas: nat, id: Hash) {
    var t := Close(cur, Wrap(Sum(cur)), gas, id);
    index < |queue| && inv(queue, tpls, cur, index + 1) && 2 <= |cur| <= CHAIN_TX_UTXO_NUM ==>
      if index == |queue| - 1 then fin(tpls + [t], t.output)
      else |cur| == CHAIN_TX_UTXO_NUM ==> inv(queue + [t.output], tpls + [t], [], index + 1)
  }

  ghost predicate Kept(inv: Stage, fin: Result, gas: nat) {
    && (forall queue, tpls, cur, index {:trigger TakeAt(inv, queue, tpls, cur, index)} :: TakeAt(inv, queue, tpls, cur, index))
    && (forall queue, tpls, cur, index, id {:trigger CloseAt(inv, fin, queue, tpls, cur, index, gas, id)} ::
          CloseAt(inv, fin, queue, tpls, cur, index, gas, id))
  }

  /** The loop: it takes inputs from the queue and closes a transaction at twenty inputs or at the end
      of the queue. `idOf` gives the id of the output of each transaction. */
  method MergeLoop(utxos: seq<Utxo>, mergeGas: nat, idOf: nat -> Hash, ghost inv: Stage, ghost fin: Result)
    returns (tpls: seq<Template>, last: Utxo)
    requires |utxos| >= 2 && Kept(inv, fin, mergeGas) && inv(utxos, [], [], 0)
    ensures fin(tpls, last)
  {
    var queue, cur: seq<Utxo>, buildAmount, index := utxos, [], 0, 0;
    tpls := [];
    while true
      invariant index < |queue| && |cur| < CHAIN_TX_UTXO_NUM && |cur| + |queue| - index >= 2
      invariant inv(queue, tpls, cur, index) && buildAmount == Wrap(Sum(cur))
      decreases 20 * (|queue| - index) + |cur|
    {
      assert TakeAt(inv, queue, tpls, cur, index);
      Added(cur, queue[index]);
      cur := cur + [queue[index]];
      buildAmount := Wrap(buildAmount + queue[index].amount);
      if |cur| != CHAIN_TX_UTXO_NUM && index != |queue| - 1 {
        index := index + 1;
        continue;
      }
      var t := Close(cur, buildAmount, mergeGas, idOf(|tpls|));
      assert CloseAt(inv, fin, queue, tpls, cur, index, mergeGas, idOf(|tpls|));
      queue, tpls, cur, buildAmount := queue + [t.output], tpls + [t], [], 0;
      if index == |queue| - 2 {
        return tpls, queue[|queue| - 1];
      }
      index := index + 1;
    }
  }

  ghost function Stages(utxos: seq<Utxo>, gas: nat): (inv: Stage) {
    (queue: seq<Utxo>, tpls: seq<Template>, cur: seq<Utxo>, index: nat) =>
      index <= |queue| && Merging(utxos, queue, tpls, cur, index, gas)
  }

  ghost function Results(utxos: seq<Utxo>, gas: nat): (fin: Result)
    requires |utxos| >= 1
  {
    (tpls: seq<Template>, last: Utxo) => Merges(utxos, tpls, last, gas)
  }

  lemma {:induction false} MergingKept(utxos: seq<Utxo>, gas: nat)
    requires |utxos| >= 1
    ensures Kept(Stages(utxos, gas), Results(utxos, gas), gas)
  {
    var inv, fin := Stages(utxos, gas), Results(utxos, gas);
    forall queue, tpls, cur, index: nat ensures TakeAt(inv, queue, tpls, cur, index) {
      if index < |queue| && Merging(utxos, queue, tpls, cur, index, gas) {
        Took(utxos, queue, tpls, cur, index, gas);
      }
    }
    forall queue, tpls, cur, index: nat, id ensures CloseAt(inv, fin, queue, tpls, cur, index, gas, id) {
      if index < |queue| && Merging(utxos, queue, tpls, cur, index + 1, gas) && 2 <= |cur| <= CHAIN_TX_UTXO_NUM {
        var t := Close(cur, Wrap(Sum(cur)), gas, id);
        Paid(t, gas);
        if index == |queue| - 1 {
          Finished(utxos, queue, tpls, t, gas);
        } else if |cur| == CHAIN_TX_UTXO_NUM {
          Closed(utxos, queue, tpls, t, index + 1, gas);
        }
      }
    }
  }

  method BuildTxChain(utxos: seq<Utxo>, mergeGas: nat, idOf: nat -> Hash) returns (r: Option<(seq<Template>, Utxo)>)
    ensures r.None? <==> utxos == []
    ensures |utxos| == 1 ==> r == Some(([], utxos[0]))
    ensures |utxos| >= 2 ==> r.Some? && Merges(utxos, r.value.0, r.value.1, mergeGas)
  {
    if utxos == [] {
      return None;
    }
    if |utxos| == 1 {
      return Some(([], utxos[0]));
    }
    Started(utxos, mergeGas);
    MergingKept(utxos, mergeGas);
    var tpls, last := MergeLoop(utxos, mergeGas, idOf, Stages(utxos, mergeGas), Results(utxos, mergeGas));
    r := Some((tpls, last));
  }
}
