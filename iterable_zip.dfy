/**
  Iterating several sources in lockstep. `IterableZip` holds the sources;
  every `iterator` it hands out is an `IteratorZip` with one fresh iterator
  per source, whose `moveNext` advances them all and produces one row per call
  until the shortest source runs out.
 */
module IterableZips {
  import opened Optional

  /**
    A Dart iterator over a finite source. `pos` counts the calls of
    `moveNext`, capped at `|elements| + 1`: position `p` with `1 <= p <=
    |elements|` means `current` is `elements[p - 1]`, and `|elements| + 1`
    means `moveNext` has answered false, after which it always does.
   */
  class SeqIterator<T> {
    const elements: seq<T>
    var pos: nat

    ghost predicate Valid()
      reads this
    {
      pos <= |elements| + 1
    }

    constructor (elements: seq<T>)
      ensures Valid()
      ensures this.elements == elements && pos == 0
    {
      this.elements := elements;
      pos := 0;
    }

    method MoveNext() returns (moved: bool)
      requires Valid()
      modifies this
      ensures Valid()
      ensures moved <==> old(pos) < |elements|
      ensures pos == Bump(|elements|, old(pos))
    {
      if pos <= |elements| {
        pos := pos + 1;
      }
      moved := pos <= |elements|;
    }

    function Current(): (r: Option<T>)
      reads this
      ensures r.Some? <==> 1 <= pos <= |elements|
      ensures r.Some? ==> r.value == elements[pos - 1]
    {
      if 1 <= pos <= |elements| then Some(elements[pos - 1]) else None
    }
  }

  /** The position of an iterator over `n` elements after one more `moveNext`. */
  function Bump(n: nat, p: nat): (q: nat)
    ensures p <= n + 1 ==> q <= n + 1
    ensures p < n ==> q == p + 1
    ensures n <= p ==> (q == n + 1 <==> p <= n + 1)
  {
    if p <= n then p + 1 else p
  }

  /** What an `IteratorZip` is at a given moment: the positions of its iterators, and `current`. */
  datatype Cursor<T> = Cursor(positions: seq<nat>, current: Option<seq<T>>)

  /** Positions an iterator over each source can be at. */
  ghost predicate Fits<T>(src: seq<seq<T>>, positions: seq<nat>) {
    |positions| == |src| && forall j :: 0 <= j < |src| ==> positions[j] <= |src[j]| + 1
  }

  /** The first index at or after `i` whose iterator has no next element, or `|src|`. */
  function FailAt<T>(src: seq<seq<T>>, positions: seq<nat>, i: nat): (f: nat)
    requires |positions| == |src| && i <= |src|
    ensures i <= f <= |src|
    ensures forall j :: i <= j < f ==> positions[j] < |src[j]|
    ensures f < |src| ==> positions[f] >= |src[f]|
    decreases |src| - i
  {
    if i == |src| || positions[i] >= |src[i]| then i else FailAt(src, positions, i + 1)
  }

  /** The positions after advancing the iterators `0..f` (all of them when `f >= |src|`) once each. */
  function Advanced<T>(src: seq<seq<T>>, positions: seq<nat>, f: nat): (q: seq<nat>)
    requires |positions| == |src|
    ensures |q| == |src|
    ensures forall j :: 0 <= j <= f && j < |src| ==> q[j] == Bump(|src[j]|, positions[j])
    ensures forall j :: f < j < |src| ==> q[j] == positions[j]
  {
    seq(|src|, j requires 0 <= j < |src| => if j <= f then Bump(|src[j]|, positions[j]) else positions[j])
  }

  /** The current elements of the iterators, as a fresh list in source order. */
  function CurrentRow<T>(src: seq<seq<T>>, positions: seq<nat>): (row: seq<T>)
    requires |positions| == |src| && forall j :: 0 <= j < |src| ==> positions[j] < |src[j]|
    ensures |row| == |src|
    ensures forall j :: 0 <= j < |src| ==> row[j] == src[j][positions[j]]
  {
    seq(|src|, j requires 0 <= j < |src| => src[j][positions[j]])
  }

  /** Every one of `n` iterators at position `p`. */
  function Level(n: nat, p: nat): (q: seq<nat>)
    ensures |q| == n && forall j :: 0 <= j < n ==> q[j] == p
  {
    seq(n, _ => p)
  }

  /**
    One call of `moveNext` on a zip over `src`. With no sources nothing
    happens and the answer is false. Otherwise the iterators are advanced in
    index order; the first one with no next element makes the answer false,
    sets `current` to None, and leaves the iterators after it untouched. If
    all advance, `current` becomes the row of their current elements.
   */
  function Step<T>(src: seq<seq<T>>, c: Cursor<T>): (r: (bool, Cursor<T>))
    requires |c.positions| == |src|
    ensures |r.1.positions| == |src|
    ensures r.0 <==> |src| > 0 && forall j :: 0 <= j < |src| ==> c.positions[j] < |src[j]|
    ensures |src| == 0 ==> r.1 == c
    ensures r.0 ==> && r.1.current.Some?
                    && |r.1.current.value| == |src|
                    && (forall j :: 0 <= j < |src| ==> r.1.current.value[j] == src[j][c.positions[j]])
                    && (forall j :: 0 <= j < |src| ==> r.1.positions[j] == c.positions[j] + 1)
    ensures !r.0 && |src| > 0 ==> r.1.current == None
  {
    if |src| == 0 then (false, c)
    else
      var f := FailAt(src, c.positions, 0);
      if f < |src| then (false, Cursor(Advanced(src, c.positions, f), None))
      else (true, Cursor(Advanced(src, c.positions, f), Some(CurrentRow(src, c.positions))))
  }

  /**
    A false answer from a zip with sources: the iterators before the first
    exhausted one `f` have each moved one element on, iterator `f` has
    answered false, and the iterators after it are untouched.
   */
  lemma StepFailure<T>(src: seq<seq<T>>, c: Cursor<T>)
    requires |c.positions| == |src| && |src| > 0
    requires !Step(src, c).0
    ensures var f := FailAt(src, c.positions, 0);
            var next := Step(src, c).1;
            && f < |src| && c.positions[f] >= |src[f]|
            && (forall j :: 0 <= j < f ==> c.positions[j] < |src[j]| && next.positions[j] == c.positions[j] + 1)
            && next.positions[f] == Bump(|src[f]|, c.positions[f])
            && (forall j :: f < j < |src| ==> next.positions[j] == c.positions[j])
  {
  }

  /** Conversely, a zip whose iterators stop at `i` as described is at the state a failing `moveNext` leaves. */
  lemma StepStopsAt<T>(src: seq<seq<T>>, c: Cursor<T>, after: seq<nat>, i: nat)
    requires |c.positions| == |src| == |after| && i < |src|
    requires forall j :: 0 <= j < i ==> c.positions[j] < |src[j]| && after[j] == c.positions[j] + 1
    requires c.positions[i] >= |src[i]| && after[i] == Bump(|src[i]|, c.positions[i])
    requires forall j :: i < j < |src| ==> after[j] == c.positions[j]
    ensures Step(src, c) == (false, Cursor(after, None))
  {
    assert FailAt(src, c.positions, 0) == i;
    assert Advanced(src, c.positions, i) == after;
  }

  /** Conversely, every iterator moved one on and the row of their elements is the state a successful `moveNext` leaves. */
  lemma StepAdvancesAll<T>(src: seq<seq<T>>, c: Cursor<T>, after: seq<nat>, row: seq<T>)
    requires |src| > 0 && |c.positions| == |src| == |after| == |row|
    requires forall j :: 0 <= j < |src| ==> c.positions[j] < |src[j]| && after[j] == c.positions[j] + 1
    requires forall j :: 0 <= j < |src| ==> row[j] == src[j][c.positions[j]]
    ensures Step(src, c) == (true, Cursor(after, Some(row)))
  {
    assert FailAt(src, c.positions, 0) == |src|;
    assert Advanced(src, c.positions, |src|) == after;
    assert CurrentRow(src, c.positions) == row;
  }

  /** The answers of `k` successive `moveNext` calls, each with the `current` it leaves. */
  function Trace<T>(src: seq<seq<T>>, c: Cursor<T>, k: nat): (t: seq<(bool, Option<seq<T>>)>)
    requires |c.positions| == |src|
    ensures |t| == k
    decreases k
  {
    if k == 0 then []
    else
      var (moved, next) := Step(src, c);
      [(moved, next.current)] + Trace(src, next, k - 1)
  }

  /** The length of the shortest source; 0 when there are none. */
  function MinLength<T>(src: seq<seq<T>>): (m: nat)
    ensures forall j :: 0 <= j < |src| ==> m <= |src[j]|
    ensures |src| > 0 ==> exists j :: 0 <= j < |src| && m == |src[j]|
    ensures |src| == 0 ==> m == 0
  {
    if |src| == 0 then 0
    else if |src| == 1 then |src[0]|
    else
      var rest := MinLength(src[1..]);
      if |src[0]| <= rest then |src[0]| else rest
  }

  /** Row `r` of the zip: element `r` of every source, in source order. */
  function RowAt<T>(src: seq<seq<T>>, r: nat): (row: seq<T>)
    requires forall j :: 0 <= j < |src| ==> r < |src[j]|
    ensures |row| == |src|
    ensures forall j :: 0 <= j < |src| ==> row[j] == src[j][r]
  {
    CurrentRow(src, Level(|src|, r))
  }

  /** A fresh zip iterator over `n` sources: every iterator before its first element, no row. */
  function Initial<T>(n: nat): (c: Cursor<T>)
    ensures |c.positions| == n && c.current == None
    ensures forall j :: 0 <= j < n ==> c.positions[j] == 0
  {
    Cursor(Level(n, 0), None)
  }

  /** Some iterator has answered false, so it will again. */
  ghost predicate Exhausted<T>(src: seq<seq<T>>, c: Cursor<T>) {
    |c.positions| == |src| && exists j :: 0 <= j < |src| && c.positions[j] == |src[j]| + 1
  }

  /** Once a source is exhausted, `moveNext` answers false, clears `current`, and the zip stays exhausted. */
  lemma ExhaustedStaysExhausted<T>(src: seq<seq<T>>, c: Cursor<T>)
    requires Exhausted(src, c)
    ensures !Step(src, c).0 && Step(src, c).1.current == None
    ensures Exhausted(src, Step(src, c).1)
  {
    var j :| 0 <= j < |src| && c.positions[j] == |src[j]| + 1;
    var next := Step(src, c).1;
    var f := FailAt(src, c.positions, 0);
    assert f <= j;
    assert next.positions[j] == |src[j]| + 1;
  }

  /** A false answer from a zip with sources leaves it exhausted. */
  lemma FalseExhausts<T>(src: seq<seq<T>>, c: Cursor<T>)
    requires Fits(src, c.positions) && |src| > 0
    requires !Step(src, c).0
    ensures Exhausted(src, Step(src, c).1)
  {
    var next := Step(src, c).1;
    var f := FailAt(src, c.positions, 0);
    assert next.positions[f] == |src[f]| + 1;
  }

  lemma {:induction false} TraceExhausted<T>(src: seq<seq<T>>, c: Cursor<T>, k: nat)
    requires Exhausted(src, c)
    ensures forall i :: 0 <= i < k ==> Trace(src, c, k)[i] == (false, None)
    decreases k
  {
    if k > 0 {
      ExhaustedStaysExhausted(src, c);
      TraceExhausted(src, Step(src, c).1, k - 1);
    }
  }

  /** With no sources, `moveNext` never changes anything, so every answer is false and `current` stays as it was. */
  lemma {:induction false} TraceNoSources<T>(src: seq<seq<T>>, c: Cursor<T>, k: nat)
    requires |src| == 0 && |c.positions| == 0
    ensures forall i :: 0 <= i < k ==> Trace(src, c, k)[i] == (false, c.current)
    decreases k
  {
    if k > 0 {
      TraceNoSources(src, c, k - 1);
    }
  }

  /** All iterators at position `p`, no further than the shortest source. */
  lemma {:induction false} TraceFrom<T>(src: seq<seq<T>>, p: nat, cur: Option<seq<T>>, k: nat)
    requires |src| > 0 && p <= MinLength(src)
    ensures forall i :: 0 <= i < k ==>
              Trace(src, Cursor(Level(|src|, p), cur), k)[i] == if p + i < MinLength(src) then (true, Some(RowAt(src, p + i))) else (false, None)
    decreases k
  {
    var c := Cursor(Level(|src|, p), cur);
    if k > 0 {
      var next := Step(src, c).1;
      TraceUnfold(src, c, k);
      if p < MinLength(src) {
        StepInLockstep(src, p, cur);
        TraceFrom(src, p + 1, Some(RowAt(src, p)), k - 1);
        var t := Trace(src, c, k);
        var rest := Trace(src, Cursor(Level(|src|, p + 1), Some(RowAt(src, p))), k - 1);
        forall i | 0 <= i < k
          ensures t[i] == if p + i < MinLength(src) then (true, Some(RowAt(src, p + i))) else (false, None)
        {
          if i == 0 {
            assert t[0] == (true, Some(RowAt(src, p)));
          } else {
            assert t[i] == rest[i - 1];
          }
        }
      } else {
        var j :| 0 <= j < |src| && MinLength(src) == |src[j]|;
        assert c.positions[j] == |src[j]|;
        FalseExhausts(src, c);
        TraceExhausted(src, next, k - 1);
      }
    }
  }

  /** The first answer of a trace is that of one step, and the rest is the trace from there. */
  lemma TraceUnfold<T>(src: seq<seq<T>>, c: Cursor<T>, k: nat)
    requires |c.positions| == |src| && k > 0
    ensures Trace(src, c, k)[0] == (Step(src, c).0, Step(src, c).1.current)
    ensures forall i :: 0 < i < k ==> Trace(src, c, k)[i] == Trace(src, Step(src, c).1, k - 1)[i - 1]
  {
  }

  /** From all iterators at position `p` below the shortest length, a call yields row `p` and moves all to `p + 1`. */
  lemma StepInLockstep<T>(src: seq<seq<T>>, p: nat, cur: Option<seq<T>>)
    requires |src| > 0 && p < MinLength(src)
    ensures Step(src, Cursor(Level(|src|, p), cur)) ==
              (true, Cursor(Level(|src|, p + 1), Some(RowAt(src, p))))
  {
    var c := Cursor(Level(|src|, p), cur);
    assert FailAt(src, c.positions, 0) == |src|;
    assert Advanced(src, c.positions, |src|) == Level(|src|, p + 1);
  }

  /**
    The whole run of a fresh zip iterator: call `i` answers true exactly when
    `i` is below the length of the shortest source, and then `current` is row
    `i`; every later call answers false with no row.
   */
  lemma ZipTrace<T>(src: seq<seq<T>>, k: nat)
    ensures forall i :: 0 <= i < k ==>
              Trace(src, Initial(|src|), k)[i] == if i < MinLength(src) then (true, Some(RowAt(src, i))) else (false, None)
  {
    if |src| == 0 {
      TraceNoSources(src, Initial(|src|), k);
    } else {
      assert Initial<T>(|src|) == Cursor(Level(|src|, 0), None);
      TraceFrom(src, 0, None, k);
    }
  }

  /** With one source, row `i` is the one-element list of its element `i`. */
  lemma SingleSource<T>(s: seq<T>, k: nat)
    ensures forall i :: 0 <= i < k ==> Trace([s], Initial(1), k)[i] == if i < |s| then (true, Some([s[i]])) else (false, None)
  {
    ZipTrace([s], k);
    assert MinLength([s]) == |s|;
    forall i | 0 <= i < |s| ensures RowAt([s], i) == [s[i]] {
    }
  }

  /** Sources of lengths 3, 5 and 2 zip to exactly two rows, then only false answers. */
  lemma ShortestOfThree<T>(src: seq<seq<T>>)
    requires |src| == 3 && |src[0]| == 3 && |src[1]| == 5 && |src[2]| == 2
    ensures Trace(src, Initial(3), 4)
         == [ (true, Some([src[0][0], src[1][0], src[2][0]])),
              (true, Some([src[0][1], src[1][1], src[2][1]])),
              (false, None),
              (false, None) ]
  {
    assert MinLength(src) == 2;
    ZipTrace(src, 4);
    var t := Trace(src, Initial(3), 4);
    assert t[0] == (true, Some([src[0][0], src[1][0], src[2][0]])) by {
      assert RowAt(src, 0) == [src[0][0], src[1][0], src[2][0]];
    }
    assert t[1] == (true, Some([src[0][1], src[1][1], src[2][1]])) by {
      assert RowAt(src, 1) == [src[0][1], src[1][1], src[2][1]];
    }
  }

  /** `_IteratorZip`: the iterators of the sources, and the row `current`. */
  class IteratorZip<T> {
    const iterators: seq<SeqIterator<T>>
    var current: Option<seq<T>>
    ghost const Repr: set<object>

    ghost predicate Valid()
      reads this, Repr
    {
      && (forall j :: 0 <= j < |iterators| ==> iterators[j] in Repr)
      && (forall i, j :: 0 <= i < j < |iterators| ==> iterators[i] != iterators[j])
      && (forall j :: 0 <= j < |iterators| ==> iterators[j].Valid())
    }

    ghost function Sources(): (src: seq<seq<T>>)
      ensures |src| == |iterators|
    {
      seq(|iterators|, j requires 0 <= j < |iterators| => iterators[j].elements)
    }

    ghost function Positions(): (ps: seq<nat>)
      reads this, Repr
      requires Valid()
      ensures |ps| == |iterators|
      ensures forall j :: 0 <= j < |iterators| ==> ps[j] == iterators[j].pos
    {
      seq(|iterators|, j requires 0 <= j < |iterators| reads Repr => iterators[j].pos)
    }

    ghost function State(): (c: Cursor<T>)
      reads this, Repr
      requires Valid()
      ensures Fits(Sources(), c.positions)
    {
      Cursor(Positions(), current)
    }

    /** `new _IteratorZip(iterators)`: no row yet. */
    constructor (iterators: seq<SeqIterator<T>>)
      requires forall i, j :: 0 <= i < j < |iterators| ==> iterators[i] != iterators[j]
      requires forall j :: 0 <= j < |iterators| ==> iterators[j].Valid()
      ensures Valid()
      ensures this.iterators == iterators && current == None
      ensures Repr == set j | 0 <= j < |iterators| :: iterators[j] as object
    {
      this.iterators := iterators;
      current := None;
      Repr := set j | 0 <= j < |iterators| :: iterators[j] as object;
    }

    /** `moveNext()` */
    method MoveNext() returns (moved: bool)
      requires Valid()
      modifies this, Repr
      ensures Valid()
      ensures (moved, State()) == Step(Sources(), old(State()))
    {
      ghost var src := Sources();
      ghost var before := State();
      if |iterators| == 0 {
        assert State() == before;
        return false;
      }
      var i := 0;
      while i < |iterators|
        invariant 0 <= i <= |iterators|
        invariant Valid()
        invariant current == old(current)
        invariant forall j :: 0 <= j < i ==>
                    before.positions[j] < |src[j]| && iterators[j].pos == before.positions[j] + 1
        invariant forall j :: i <= j < |iterators| ==> iterators[j].pos == before.positions[j]
      {
        var ok := iterators[i].MoveNext();
        if !ok {
          current := None;
          StepStopsAt(src, before, Positions(), i);
          return false;
        }
        i := i + 1;
      }
      var row: seq<T> := [];
      for j := 0 to |iterators|
        invariant |row| == j
        invariant forall l :: 0 <= l < j ==> row[l] == src[l][before.positions[l]]
      {
        var c := iterators[j].Current();
        row := row + [c.value];
      }
      current := Some(row);
      moved := true;
      StepAdvancesAll(src, before, Positions(), row);
    }
  }

  /** `IterableZip(iterables)`: the sources, never changed. */
  datatype IterableZip<T> = IterableZip(iterables: seq<seq<T>>) {

    /** The `iterator` getter: a fresh iterator per source, in source order, and no row. */
    method Iterator() returns (it: IteratorZip<T>)
      ensures fresh(it) && fresh(it.Repr)
      ensures it.Valid()
      ensures it.Sources() == iterables
      ensures it.State() == Initial(|iterables|)
    {
      var iterators: seq<SeqIterator<T>> := [];
      for i := 0 to |iterables|
        invariant |iterators| == i
        invariant forall j :: 0 <= j < i ==> fresh(iterators[j])
        invariant forall j :: 0 <= j < i ==> iterators[j].Valid() && iterators[j].pos == 0
        invariant forall j :: 0 <= j < i ==> iterators[j].elements == iterables[j]
        invariant forall l, j :: 0 <= l < j < i ==> iterators[l] != iterators[j]
      {
        var x := new SeqIterator(iterables[i]);
        iterators := iterators + [x];
      }
      it := new IteratorZip(iterators);
    }
  }

  /**
    Two iterators of one zip share no state: after taking both and moving the
    first once, the first is one step on and the second is still at the start.
   */
  method IndependentIterators<T>(zip: IterableZip<T>) returns (a: IteratorZip<T>, b: IteratorZip<T>)
    ensures a.Valid() && b.Valid()
    ensures a.Repr !! b.Repr
    ensures a.Sources() == b.Sources() == zip.iterables
    ensures a.State() == Step(zip.iterables, Initial(|zip.iterables|)).1
    ensures b.State() == Initial(|zip.iterables|)
  {
    a := zip.Iterator();
    b := zip.Iterator();
    var _ := a.MoveNext();
  }
}
