/** Sequence helpers shared by the pipeline modules. */
module Seqs {

  /** The concatenation of a sequence of sequences, in order. */
  function Flatten<T>(xss: seq<seq<T>>): (r: seq<T>)
  {
    if xss == [] then [] else xss[0] + Flatten(xss[1..])
  }

  /** Flattening distributes over concatenation. */
  lemma {:induction false} FlattenAppend<T>(xss: seq<seq<T>>, yss: seq<seq<T>>)
    ensures Flatten(xss + yss) == Flatten(xss) + Flatten(yss)
  {
    if xss == [] {
      assert xss + yss == yss;
    } else {
      assert (xss + yss)[1..] == xss[1..] + yss;
      FlattenAppend(xss[1..], yss);
    }
  }

  /** Concatenation is associative. */
  lemma AppendAssoc<T>(a: seq<T>, b: seq<T>, c: seq<T>)
    ensures (a + b) + c == a + (b + c)
  {
  }

  /**
   * FirstOrDefault's position: the index of the first element satisfying `p`,
   * or -1 when none does.
   */
  function FirstWhere<T>(xs: seq<T>, p: T -> bool): (i: int)
    ensures -1 <= i < |xs|
    ensures 0 <= i ==> p(xs[i])
    ensures forall j :: 0 <= j < |xs| && (j < i || i == -1) ==> !p(xs[j])
  {
    FirstWhereFrom(xs, p, 0)
  }

  /** The index of the first element at or after `from` satisfying `p`, or -1. */
  function FirstWhereFrom<T>(xs: seq<T>, p: T -> bool, from: nat): (i: int)
    requires from <= |xs|
    ensures i == -1 || from <= i < |xs|
    ensures 0 <= i ==> p(xs[i])
    ensures forall j :: from <= j < |xs| && (j < i || i == -1) ==> !p(xs[j])
    decreases |xs| - from
  {
    if from == |xs| then -1
    else if p(xs[from]) then from
    else FirstWhereFrom(xs, p, from + 1)
  }
}
