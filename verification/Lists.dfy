/** Lists of cells, whose links are changed in place. */
module Lists {
  class Pair<T> {
    var car: T
    var cdr: Pair?<T>

    constructor (a: T, d: Pair?<T>)
      ensures car == a && cdr == d
    {
      car := a;
      cdr := d;
    }
  }

  /** The list from `x` runs through the cells `s`, each once, and ends. */
  ghost predicate Chain<T>(x: Pair?<T>, s: seq<Pair<T>>)
    reads s
  {
    && x == (if s == [] then null else s[0])
    && (forall i :: 0 <= i < |s| - 1 ==> s[i].cdr == s[i + 1])
    && (s != [] ==> s[|s| - 1].cdr == null)
    && (forall i, j :: 0 <= i < j < |s| ==> s[i] != s[j])
  }

  /** What a list holds. */
  ghost function Contents<T>(s: seq<Pair<T>>): (c: seq<T>)
    reads s
    ensures |c| == |s| && forall i :: 0 <= i < |s| ==> c[i] == s[i].car
  {
    if s == [] then [] else [s[0].car] + Contents(s[1..])
  }

  function Reverse<T>(s: seq<T>): (r: seq<T>)
    ensures |r| == |s| && forall i :: 0 <= i < |s| ==> r[i] == s[|s| - 1 - i]
  {
    if s == [] then [] else Reverse(s[1..]) + [s[0]]
  }

  ghost predicate Apart<T>(s: seq<Pair<T>>, t: seq<Pair<T>>) {
    forall i, j :: 0 <= i < |s| && 0 <= j < |t| ==> s[i] != t[j]
  }

  lemma ReverseStep<T>(s: seq<T>, k: nat)
    requires k < |s|
    ensures Reverse(s[..k + 1]) == [s[k]] + Reverse(s[..k])
  {
  }

  /** A cell in front of a list that it is not part of. */
  lemma Linked<T>(x: Pair<T>, s: seq<Pair<T>>)
    requires Chain(x.cdr, s) && x !in s
    ensures Chain(x, [x] + s) && Contents([x] + s) == [x.car] + Contents(s)
  {
    var t := [x] + s;
    assert t[1..] == s;
    assert forall i :: 0 < i < |t| ==> t[i] == s[i - 1];
  }

  lemma Empty<T>(all: seq<T>)
    ensures Chain<T>(null, []) && Contents<T>([]) == Reverse(all[..0])
  {
  }

  lemma ContentsAt<T>(s: seq<Pair<T>>, k: nat)
    requires k < |s|
    ensures Contents(s)[k] == s[k].car
  {
  }

  lemma NoCells<T>(xs: seq<Pair<T>>, ys: seq<Pair<T>>)
    requires Chain(null, xs)
    ensures [] + ys == ys && Contents<T>([]) == Contents(xs)
  {
  }

  lemma BackAgain<T>(xs: seq<Pair<T>>, made: seq<Pair<T>>, copy: seq<Pair<T>>)
    requires Contents(made) == Reverse(Contents(xs)) && copy == Reverse(made)
    ensures Contents(copy) == Contents(xs)
  {
  }

  lemma Start<T>(x: Pair?<T>, s: seq<Pair<T>>, done: seq<Pair<T>>)
    ensures s[0..] == s && Reverse(s[..0]) + done == done
  {
  }

  lemma Finished<T>(s: seq<Pair<T>>)
    requires Chain(null, s)
    ensures s == []
  {
  }

  lemma Unlinked<T>(x: Pair<T>, s: seq<Pair<T>>)
    requires Chain(x, s)
    ensures s != [] && s[0] == x && Chain(x.cdr, s[1..]) && x !in s[1..]
  {
    var t := s[1..];
    assert forall i :: 0 <= i < |t| ==> t[i] == s[i + 1];
  }

  lemma OneAcross<T>(s: seq<Pair<T>>, done: seq<Pair<T>>)
    requires s != [] && Apart(s, done) && s[0] !in s[1..]
    ensures s[0] !in done && Apart(s[1..], [s[0]] + done)
  {
    var t, u := s[1..], [s[0]] + done;
    assert forall i :: 0 <= i < |t| ==> t[i] == s[i + 1];
    assert forall j :: 0 < j < |u| ==> u[j] == done[j - 1];
  }

  /** Moves a cell from the front of one list to the front of another. */
  method TurnRound<T>(x: Pair<T>, r: Pair?<T>, ghost rest: seq<Pair<T>>, ghost done: seq<Pair<T>>)
    returns (next: Pair?<T>)
    requires Chain(x, rest) && Chain(r, done) && Apart(rest, done)
    modifies x`cdr
    ensures rest != [] && rest[0] == x && x !in rest[1..]
    ensures Chain(next, rest[1..]) && Chain(x, [x] + done) && Apart(rest[1..], [x] + done)
  {
    Unlinked(x, rest);
    OneAcross(rest, done);
    hide Chain;
    hide Apart;
    next := x.cdr;
    x.cdr := r;
    Linked(x, done);
  }

  /** Reverses `x` in front of `t` by turning its links round. */
  method ReverseX<T>(x0: Pair?<T>, t: Pair?<T>, ghost xs: seq<Pair<T>>, ghost ts: seq<Pair<T>>)
    returns (r: Pair?<T>)
    requires Chain(x0, xs) && Chain(t, ts) && Apart(xs, ts)
    modifies xs
    ensures Chain(r, Reverse(xs) + ts)
    ensures forall i :: 0 <= i < |xs| ==> xs[i].car == old(xs[i].car)
  {
    hide Chain;
    hide Apart;
    hide Reverse;
    var x := x0;
    r := t;
    ghost var k, done := 0, ts;
    Start(x, xs, ts);
    while x != null
      invariant 0 <= k <= |xs| && Chain(x, xs[k..])
      invariant Chain(r, done) && done == Reverse(xs[..k]) + ts
      invariant Apart(xs[k..], done)
      invariant forall i :: 0 <= i < |xs| ==> xs[i].car == old(xs[i].car)
      decreases |xs| - k
    {
      Unlinked(x, xs[k..]);
      assert xs[k..][1..] == xs[k + 1..];
      ReverseStep(xs, k);
      var next := TurnRound(x, r, xs[k..], done);
      r := x;
      x := next;
      done := [xs[k]] + done;
      k := k + 1;
    }
    Finished(xs[k..]);
    assert xs[..k] == xs;
  }

  /** A copy of `x` in front of `y`; neither is changed, and `y` is shared. */
  method Append2<T>(x0: Pair?<T>, y: Pair?<T>, ghost xs: seq<Pair<T>>, ghost ys: seq<Pair<T>>)
    returns (r: Pair?<T>, ghost copy: seq<Pair<T>>)
    requires Chain(x0, xs) && Chain(y, ys)
    ensures fresh(copy) && Chain(r, copy + ys) && Contents(copy) == Contents(xs)
  {
    hide Chain;
    hide Contents;
    hide Reverse;
    if x0 == null {
      NoCells(xs, ys);
      return y, [];
    }
    var back;
    ghost var made;
    back, made := Backwards(x0, xs);
    r := ReverseX(back, y, made, ys);
    copy := Reverse(made);
    BackAgain(xs, made, copy);
  }

  method Backwards<T>(x0: Pair?<T>, ghost xs: seq<Pair<T>>) returns (back: Pair?<T>, ghost made: seq<Pair<T>>)
    requires Chain(x0, xs)
    ensures fresh(made) && Chain(back, made) && Contents(made) == Reverse(Contents(xs))
  {
    var x := x0;
    back := null;
    made := [];
    hide Chain;
    hide Reverse;
    hide Contents;
    ghost var k, all := 0, Contents(xs);
    Start(x, xs, []);
    Empty<T>(all);
    while x != null
      invariant 0 <= k <= |xs| && Chain(x, xs[k..])
      invariant fresh(made) && Chain(back, made)
      invariant Contents(made) == Reverse(all[..k]) && Contents(xs) == all
      decreases |xs| - k
    {
      Unlinked(x, xs[k..]);
      assert xs[k..][1..] == xs[k + 1..];
      ReverseStep(all, k);
      var cell := new Pair<T>(x.car, back);
      Linked(cell, made);
      ContentsAt(xs, k);
      back := cell;
      made := [cell] + made;
      x := x.cdr;
      k := k + 1;
    }
    Finished(xs[k..]);
    assert all[..k] == all;
  }
}
