/** Concatenating what a function writes for each element of a sequence. */
module Sequences {

  /** The text written for the elements of `xs`, in order, one after another. */
  function Concat<T>(f: T -> string, xs: seq<T>): string
  {
    if xs == [] then "" else f(xs[0]) + Concat(f, xs[1..])
  }

  /** Writing two runs of elements one after the other writes their texts one
      after the other. */
  lemma {:induction false} ConcatAppend<T>(f: T -> string, xs: seq<T>, ys: seq<T>)
    ensures Concat(f, xs + ys) == Concat(f, xs) + Concat(f, ys)
  {
    if xs == [] {
      assert xs + ys == ys;
    } else {
      assert (xs + ys)[1..] == xs[1..] + ys;
      ConcatAppend(f, xs[1..], ys);
    }
  }

  lemma ConcatSingle<T>(f: T -> string, x: T)
    ensures Concat(f, [x]) == f(x)
  {
    assert [x][1..] == [];
  }

  /** One step of a loop that writes element `i` after a text `prefix`: the text
      written so far grows by the text of that element. */
  lemma ConcatStep<T>(prefix: string, f: T -> string, xs: seq<T>, i: nat)
    requires i < |xs|
    ensures prefix + Concat(f, xs[..i + 1]) == prefix + Concat(f, xs[..i]) + f(xs[i])
  {
    assert xs[..i + 1] == xs[..i] + [xs[i]];
    ConcatAppend(f, xs[..i], [xs[i]]);
  }
}
