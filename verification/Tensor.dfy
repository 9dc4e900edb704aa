// The forward pass of src/tensor.cpp with the arithmetic left abstract: F stands
// for float, add and weight for float addition and the synthesized weight.
module Tensor {
  const VOCAB_SIZE: nat := 256
  const CONTEXT_LEN: nat := 32
  const EMBED_DIM: nat := 64

  datatype Arith<!F> = Arith(zero: F, add: (F, F) -> F, weight: nat -> F)

  // x with the first dims weights of token v added, one after the other.
  function Row<F>(a: Arith<F>, v: nat, x: F, dims: nat): F {
    if dims == 0 then x else a.add(Row(a, v, x, dims - 1), a.weight(v + dims - 1))
  }

  // The activation of token v after n occurrences.
  function Activation<F>(a: Arith<F>, v: nat, n: nat): F {
    if n == 0 then a.zero else Row(a, v, Activation(a, v, n - 1), EMBED_DIM)
  }

  function Count(tokens: seq<nat>, v: nat): nat {
    if tokens == [] then 0 else Count(tokens[..|tokens| - 1], v) + if tokens[|tokens| - 1] == v then 1 else 0
  }

  // The layer after a prefix of the context: entry v depends on how often v occurs
  // in it and on nothing else.
  ghost predicate LayerIs<F>(a: Arith<F>, layer: seq<F>, tokens: seq<nat>) {
    |layer| == VOCAB_SIZE && forall v :: 0 <= v < VOCAB_SIZE ==> layer[v] == Activation(a, v, Count(tokens, v))
  }

  // evaluate_tensor_forward. layer is the static output layer, whatever earlier
  // calls left in it.
  method EvaluateForward<F>(a: Arith<F>, layer: array<F>, input: array?<nat>, output: array?<F>)
    requires layer.Length == 256 && layer != output
    requires input != null ==> input.Length == 32 && input as object != layer && input as object != output
    requires output != null ==> output.Length == 256
    modifies layer, output
    ensures input != null && output != null ==> LayerIs(a, output[..], input[..])
    ensures input == null && output != null ==> output[..] == old(output[..])
    ensures input == null || output == null ==> layer[..] == old(layer[..])
  {
    if input == null || output == null { return; }
    for i := 0 to VOCAB_SIZE
      invariant forall j :: 0 <= j < i ==> layer[j] == a.zero
    {
      layer[i] := a.zero;
    }
    ghost var tokens := input[..];
    var idx := 0;
    while idx < CONTEXT_LEN
      invariant 0 <= idx <= CONTEXT_LEN && input[..] == tokens && LayerIs(a, layer[..], tokens[..idx])
    {
      var current := input[idx];
      ghost var before := layer[..];
      if current < VOCAB_SIZE {
        var dim := 0;
        while dim < EMBED_DIM
          invariant 0 <= dim <= EMBED_DIM && input[..] == tokens
          invariant layer[..] == before[current := Row(a, current, before[current], dim)]
        {
          layer[current] := a.add(layer[current], a.weight(current + dim));
          dim := dim + 1;
        }
      }
      NextToken(a, before, layer[..], tokens, idx);
      idx := idx + 1;
    }
    assert tokens[..idx] == tokens;
    for i := 0 to VOCAB_SIZE
      invariant input[..] == tokens && LayerIs(a, layer[..], tokens)
      invariant output[..i] == layer[..i]
    {
      output[i] := layer[i];
    }
    assert output[..] == layer[..];
  }

  lemma NextToken<F>(a: Arith<F>, before: seq<F>, after: seq<F>, tokens: seq<nat>, i: nat)
    requires i < |tokens| && LayerIs(a, before, tokens[..i])
    requires if tokens[i] < VOCAB_SIZE then
               after == before[tokens[i] := Row(a, tokens[i], before[tokens[i]], EMBED_DIM)]
             else after == before
    ensures LayerIs(a, after, tokens[..i + 1])
  {
    hide Row;
    assert tokens[..i + 1][..i] == tokens[..i];
  }

  // The output does not depend on the order of the context, although add need not
  // be associative or commutative.
  lemma OrderFree<F>(a: Arith<F>, x: seq<nat>, y: seq<nat>, outX: seq<F>, outY: seq<F>)
    requires multiset(x) == multiset(y) && LayerIs(a, outX, x) && LayerIs(a, outY, y)
    ensures outX == outY
  {
    forall v | 0 <= v < VOCAB_SIZE
      ensures outX[v] == outY[v]
    {
      CountIsMultiplicity(x, v);
      CountIsMultiplicity(y, v);
    }
  }

  lemma {:induction false} CountIsMultiplicity(tokens: seq<nat>, v: nat)
    ensures Count(tokens, v) == multiset(tokens)[v]
  {
    if tokens != [] {
      CountIsMultiplicity(tokens[..|tokens| - 1], v);
      assert tokens == tokens[..|tokens| - 1] + [tokens[|tokens| - 1]];
    }
  }

  const REALS: Arith<real> := Arith(0.0, (x: real, y: real) => x + y, (k: nat) => 0.001 * k as real)

  lemma {:induction false} RealRow(v: nat, x: real, dims: nat)
    ensures Row(REALS, v, x, dims) == x + 0.001 * (dims * v + dims * (dims - 1) / 2) as real
  {
    if dims > 0 {
      RealRow(v, x, dims - 1);
      assert dims * (dims - 1) / 2 == (dims - 1) * (dims - 2) / 2 + (dims - 1) by {
        assert dims * (dims - 1) == (dims - 1) * (dims - 2) + 2 * (dims - 1);
      }
      assert dims * v == (dims - 1) * v + v;
    }
  }

  // Over the reals the activation is linear in the number of occurrences.
  lemma {:induction false} RealActivation(v: nat, n: nat)
    ensures Activation(REALS, v, n) == n as real * 0.001 * (64 * v + 2016) as real
  {
    if n > 0 {
      RealActivation(v, n - 1);
      RealRow(v, Activation(REALS, v, n - 1), EMBED_DIM);
      var step := 0.001 * (64 * v + 2016) as real;
      assert n as real * step == (n - 1) as real * step + step;
    }
  }
}
