/** Writing and reading several things in a row, when each is told how many ids were given out before it. */
module EventRuns {
  import opened Bytes
  import opened Codec

  /** What was read, with the ids of the streams accepted meanwhile, in order. */
  datatype Accepted<T> = Accepted(value: T, ids: seq<nat>)

  /** The ids given out after `last`. */
  function Ids(last: nat, n: nat): seq<nat>
    decreases n
  {
    if n == 0 then [] else [last + 1] + Ids(last + 1, n - 1)
  }

  lemma {:induction false} IdsJoin(last: nat, m: nat, n: nat)
    ensures Ids(last, m) + Ids(last + m, n) == Ids(last, m + n)
    decreases m
  {
    if m > 0 { IdsJoin(last + 1, m - 1, n); }
  }

  lemma OneId(last: nat)
    ensures Ids(last, 1) == [last + 1]
  {
    assert Ids(last + 1, 0) == [];
  }

  function Cons<T>(a: Accepted<T>, r: Parsed<Accepted<seq<T>>>): Parsed<Accepted<seq<T>>> {
    if r.Ok? then Ok(Accepted([a.value] + r.value.value, a.ids + r.value.ids), r.pos) else r
  }

  /** How one thing is written after so many ids, how many it takes, and how it is read at a position. */
  datatype Format<!T> = Format(write: (T, nat) -> seq<byte>, leaves: T -> nat, read: nat -> Parsed<Accepted<T>>)

  function WriteRun<T>(f: Format<T>, xs: seq<T>, last: nat): seq<byte> {
    if xs == [] then [] else f.write(xs[0], last) + WriteRun(f, xs[1..], last + f.leaves(xs[0]))
  }

  function ReadRun<T>(f: Format<T>, n: nat, pos: nat): Parsed<Accepted<seq<T>>> {
    if n == 0 then Ok(Accepted([], []), pos)
    else
      match f.read(pos)
      case Ok(a, p) => Cons(a, ReadRun(f, n - 1, p))
      case Err(er) => Err(er)
  }

  function RunLeaves<T>(f: Format<T>, xs: seq<T>): nat {
    if xs == [] then 0 else f.leaves(xs[0]) + RunLeaves(f, xs[1..])
  }

  /** Wherever `x` stands it is read back, with the ids it was given. */
  ghost predicate Back<T(!new)>(f: Format<T>, b: seq<byte>, x: T) {
    forall last: nat, pos: nat :: last + f.leaves(x) < U64_LIMIT && Stands(b, pos, f.write(x, last)) ==>
      f.read(pos) == Ok(Accepted(x, Ids(last, f.leaves(x))), pos + |f.write(x, last)|)
  }

  ghost predicate AllBack<T(!new)>(f: Format<T>, b: seq<byte>, xs: seq<T>) {
    xs == [] || (Back(f, b, xs[0]) && AllBack(f, b, xs[1..]))
  }

  lemma BackHere<T(!new)>(f: Format<T>, b: seq<byte>, x: T, last: nat, pos: nat)
    requires Back(f, b, x) && last + f.leaves(x) < U64_LIMIT && Stands(b, pos, f.write(x, last))
    ensures f.read(pos) == Ok(Accepted(x, Ids(last, f.leaves(x))), pos + |f.write(x, last)|)
  {
  }

  lemma RunStands<T>(f: Format<T>, b: seq<byte>, xs: seq<T>, last: nat, pos: nat) returns (p: nat, q: nat)
    requires xs != [] && Stands(b, pos, WriteRun(f, xs, last))
    ensures Stands(b, pos, f.write(xs[0], last)) && p == pos + |f.write(xs[0], last)|
    ensures Stands(b, p, WriteRun(f, xs[1..], last + f.leaves(xs[0])))
    ensures q == p + |WriteRun(f, xs[1..], last + f.leaves(xs[0]))| == pos + |WriteRun(f, xs, last)|
  {
    var s, rest := f.write(xs[0], last), WriteRun(f, xs[1..], last + f.leaves(xs[0]));
    StandsSplit(b, pos, s, rest);
    p, q := pos + |s|, pos + |s| + |rest|;
  }

  lemma RunStep<T>(f: Format<T>, xs: seq<T>, pos: nat, p: nat, q: nat, ids: seq<nat>, more: seq<nat>)
    requires xs != [] && f.read(pos) == Ok(Accepted(xs[0], ids), p)
    requires ReadRun(f, |xs| - 1, p) == Ok(Accepted(xs[1..], more), q)
    ensures ReadRun(f, |xs|, pos) == Ok(Accepted(xs, ids + more), q)
  {
    assert [xs[0]] + xs[1..] == xs;
  }

  lemma RunIds<T>(f: Format<T>, xs: seq<T>, last: nat, pos: nat, p: nat, q: nat)
    requires xs != [] && f.read(pos) == Ok(Accepted(xs[0], Ids(last, f.leaves(xs[0]))), p)
    requires ReadRun(f, |xs| - 1, p) == Ok(Accepted(xs[1..], Ids(last + f.leaves(xs[0]), RunLeaves(f, xs[1..]))), q)
    ensures ReadRun(f, |xs|, pos) == Ok(Accepted(xs, Ids(last, RunLeaves(f, xs))), q)
  {
    var m, n := f.leaves(xs[0]), RunLeaves(f, xs[1..]);
    RunStep(f, xs, pos, p, q, Ids(last, m), Ids(last + m, n));
    IdsJoin(last, m, n);
  }

  /** Then a run of them is read back, and its ids are consecutive throughout. */
  lemma {:induction false} RunBack<T(!new)>(f: Format<T>, b: seq<byte>, xs: seq<T>, last: nat, pos: nat)
    requires AllBack(f, b, xs)
    requires last + RunLeaves(f, xs) < U64_LIMIT && Stands(b, pos, WriteRun(f, xs, last))
    ensures ReadRun(f, |xs|, pos) == Ok(Accepted(xs, Ids(last, RunLeaves(f, xs))), pos + |WriteRun(f, xs, last)|)
  {
    if xs != [] {
      var p, q := RunStands(f, b, xs, last, pos);
      BackHere(f, b, xs[0], last, pos);
      RunBack(f, b, xs[1..], last + f.leaves(xs[0]), p);
      RunIds(f, xs, last, pos, p, q);
    }
  }
}
