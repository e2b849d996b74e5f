/**
  Shared vocabulary of the model: an optional value, time-stamped events on a
  discrete clock, the subsequence relation, and sums over sequences.
 */
module Base {

  /** `undefined`/`null` versus a present value. */
  datatype Option<+T> = None | Some(value: T)

  /** Something that happens at a time on the discrete clock (milliseconds):
      a call of a wrapped function with its arguments, or a callback invocation. */
  datatype Timed<+A> = Timed(t: nat, args: A)

  /** The arguments of a sequence of timed events, in order. */
  function ArgsOf<A>(s: seq<Timed<A>>): (r: seq<A>)
    ensures |r| == |s|
    ensures forall i :: 0 <= i < |s| ==> r[i] == s[i].args
    decreases |s|
  {
    if |s| == 0 then [] else [s[0].args] + ArgsOf(s[1..])
  }

  /** Event times never go backwards. */
  ghost predicate Monotone<A>(s: seq<Timed<A>>) {
    forall i, j :: 0 <= i < j < |s| ==> s[i].t <= s[j].t
  }

  /** `xs` is obtained from `ys` by deleting elements (order kept). */
  predicate IsSubseq<T(==)>(xs: seq<T>, ys: seq<T>)
    decreases |ys|
  {
    || |xs| == 0
    || (&& |ys| > 0
        && ((xs[0] == ys[0] && IsSubseq(xs[1..], ys[1..])) || IsSubseq(xs, ys[1..])))
  }

  lemma {:induction false} SubseqLength<T>(xs: seq<T>, ys: seq<T>)
    requires IsSubseq(xs, ys)
    ensures |xs| <= |ys|
    decreases |ys|
  {
    if |xs| > 0 {
      if xs[0] == ys[0] && IsSubseq(xs[1..], ys[1..]) {
        SubseqLength(xs[1..], ys[1..]);
      } else {
        SubseqLength(xs, ys[1..]);
      }
    }
  }

  lemma {:induction false} SubseqMembers<T>(xs: seq<T>, ys: seq<T>)
    requires IsSubseq(xs, ys)
    ensures forall x :: x in xs ==> x in ys
    decreases |ys|
  {
    if |xs| > 0 {
      if xs[0] == ys[0] && IsSubseq(xs[1..], ys[1..]) {
        SubseqMembers(xs[1..], ys[1..]);
        forall x | x in xs ensures x in ys {
          if x != xs[0] {
            assert x in xs[1..];
          }
        }
      } else {
        SubseqMembers(xs, ys[1..]);
      }
    }
  }

  /** Deleting events and then dropping the times is the same as dropping the
      times and then deleting the same arguments. */
  lemma {:induction false} SubseqArgs<A>(xs: seq<Timed<A>>, ys: seq<Timed<A>>)
    requires IsSubseq(xs, ys)
    ensures IsSubseq(ArgsOf(xs), ArgsOf(ys))
    decreases |ys|
  {
    if |xs| > 0 {
      if xs[0] == ys[0] && IsSubseq(xs[1..], ys[1..]) {
        SubseqArgs(xs[1..], ys[1..]);
      } else {
        SubseqArgs(xs, ys[1..]);
      }
    }
  }

  /** Sum of a non-negative cost over a sequence. */
  function Sum<T>(s: seq<T>, cost: T -> nat): nat
    decreases |s|
  {
    if |s| == 0 then 0 else cost(s[0]) + Sum(s[1..], cost)
  }

  /** Deleting elements never increases a non-negative total. */
  lemma {:induction false} SubseqSumLe<T>(xs: seq<T>, ys: seq<T>, cost: T -> nat)
    requires IsSubseq(xs, ys)
    ensures Sum(xs, cost) <= Sum(ys, cost)
    decreases |ys|
  {
    if |xs| > 0 {
      if xs[0] == ys[0] && IsSubseq(xs[1..], ys[1..]) {
        SubseqSumLe(xs[1..], ys[1..], cost);
      } else {
        SubseqSumLe(xs, ys[1..], cost);
      }
    }
  }
}
