/**
 * The one list-building pattern both scripts use: walk a list front to back
 * and append a derived item for every element that passes a test, in
 * Python either `[g(x) for x in xs if c(x)]` or a `for` loop with a
 * guarded `append`. `f(x) == Some(g(x))` exactly when `c(x)` holds.
 */
module Sequences {
  import opened Wrappers

  function Emit<B>(o: Option<B>): seq<B>
  {
    match o
    case Some(y) => [y]
    case None => []
  }

  /** The items appended, in order, by one front-to-back pass over `xs`. */
  function FilterMap<A, B>(xs: seq<A>, f: A -> Option<B>): seq<B>
  {
    if |xs| == 0 then []
    else FilterMap(xs[..|xs| - 1], f) + Emit(f(xs[|xs| - 1]))
  }

  /** The positions in `xs` of the elements that pass, in increasing order. */
  function Survivors<A, B>(xs: seq<A>, f: A -> Option<B>): seq<nat>
  {
    if |xs| == 0 then []
    else Survivors(xs[..|xs| - 1], f) + (if f(xs[|xs| - 1]).Some? then [|xs| - 1] else [])
  }

  lemma {:induction false} SurvivorsLength<A, B>(xs: seq<A>, f: A -> Option<B>)
    ensures |FilterMap(xs, f)| == |Survivors(xs, f)| <= |xs|
  {
    if |xs| > 0 {
      SurvivorsLength(xs[..|xs| - 1], f);
    }
  }

  lemma {:induction false} SurvivorsIncreasing<A, B>(xs: seq<A>, f: A -> Option<B>)
    ensures forall k :: 0 <= k < |Survivors(xs, f)| ==> Survivors(xs, f)[k] < |xs|
    ensures forall k, l :: 0 <= k < l < |Survivors(xs, f)| ==> Survivors(xs, f)[k] < Survivors(xs, f)[l]
  {
    if |xs| > 0 {
      var init := xs[..|xs| - 1];
      SurvivorsIncreasing(init, f);
      var idx0 := Survivors(init, f);
      var idx := Survivors(xs, f);
      assert forall k :: 0 <= k < |idx0| ==> idx[k] == idx0[k];
    }
  }

  lemma {:induction false} SurvivorsItems<A, B>(xs: seq<A>, f: A -> Option<B>)
    ensures |FilterMap(xs, f)| == |Survivors(xs, f)|
    ensures forall k :: 0 <= k < |Survivors(xs, f)| ==>
      Survivors(xs, f)[k] < |xs| && f(xs[Survivors(xs, f)[k]]) == Some(FilterMap(xs, f)[k])
  {
    SurvivorsLength(xs, f);
    SurvivorsIncreasing(xs, f);
    if |xs| > 0 {
      var init := xs[..|xs| - 1];
      SurvivorsItems(init, f);
      var idx0, out0 := Survivors(init, f), FilterMap(init, f);
      var idx, out := Survivors(xs, f), FilterMap(xs, f);
      forall k | 0 <= k < |idx| ensures f(xs[idx[k]]) == Some(out[k]) {
        if k < |idx0| {
          assert idx[k] == idx0[k] && out[k] == out0[k];
          assert xs[idx0[k]] == init[idx0[k]];
        }
      }
    }
  }

  lemma {:induction false} SurvivorsMembership<A, B>(xs: seq<A>, f: A -> Option<B>)
    ensures forall i :: 0 <= i < |xs| ==> (i in Survivors(xs, f) <==> f(xs[i]).Some?)
  {
    if |xs| > 0 {
      var init := xs[..|xs| - 1];
      SurvivorsMembership(init, f);
      SurvivorsIncreasing(init, f);
      var idx0 := Survivors(init, f);
      assert |xs| - 1 !in idx0;
      forall i | 0 <= i < |init| ensures xs[i] == init[i] {
      }
    }
  }

  /**
   * FilterMap keeps exactly the elements that pass, in their original order,
   * and item k of the result is derived from the element at position
   * Survivors(xs, f)[k].
   */
  lemma FilterMapBySurvivors<A, B>(xs: seq<A>, f: A -> Option<B>)
    ensures |FilterMap(xs, f)| == |Survivors(xs, f)| <= |xs|
    ensures forall k :: 0 <= k < |Survivors(xs, f)| ==>
      Survivors(xs, f)[k] < |xs| && f(xs[Survivors(xs, f)[k]]) == Some(FilterMap(xs, f)[k])
    ensures forall k, l :: 0 <= k < l < |Survivors(xs, f)| ==> Survivors(xs, f)[k] < Survivors(xs, f)[l]
    ensures forall i :: 0 <= i < |xs| ==> (i in Survivors(xs, f) <==> f(xs[i]).Some?)
  {
    SurvivorsLength(xs, f);
    SurvivorsIncreasing(xs, f);
    SurvivorsItems(xs, f);
    SurvivorsMembership(xs, f);
  }

  /** Every item of the result comes from some element of the input. */
  lemma FilterMapSound<A, B>(xs: seq<A>, f: A -> Option<B>, y: B)
    requires y in FilterMap(xs, f)
    ensures exists i :: 0 <= i < |xs| && f(xs[i]) == Some(y)
  {
    FilterMapBySurvivors(xs, f);
    var k :| 0 <= k < |FilterMap(xs, f)| && FilterMap(xs, f)[k] == y;
    var i := Survivors(xs, f)[k];
    assert f(xs[i]) == Some(y);
  }

  /** Every element that passes contributes its item to the result. */
  lemma FilterMapComplete<A, B>(xs: seq<A>, f: A -> Option<B>, i: nat)
    requires i < |xs| && f(xs[i]).Some?
    ensures f(xs[i]).value in FilterMap(xs, f)
  {
    FilterMapBySurvivors(xs, f);
    assert i in Survivors(xs, f);
    var k :| 0 <= k < |Survivors(xs, f)| && Survivors(xs, f)[k] == i;
    assert FilterMap(xs, f)[k] == f(xs[i]).value;
  }

  /** Each element is handled on its own: the pass over a concatenation is the concatenation of the passes. */
  lemma {:induction false} FilterMapAppend<A, B>(xs: seq<A>, ys: seq<A>, f: A -> Option<B>)
    ensures FilterMap(xs + ys, f) == FilterMap(xs, f) + FilterMap(ys, f)
  {
    if |ys| == 0 {
      assert xs + ys == xs;
    } else {
      var ys', y := ys[..|ys| - 1], ys[|ys| - 1];
      FilterMapAppend(xs, ys', f);
      assert (xs + ys)[..|xs + ys| - 1] == xs + ys';
      assert (xs + ys)[|xs + ys| - 1] == y;
      assert FilterMap(xs + ys, f) == FilterMap(xs + ys', f) + Emit(f(y));
      assert FilterMap(ys, f) == FilterMap(ys', f) + Emit(f(y));
    }
  }

  /** An element that fails the test leaves no trace and does not disturb the others. */
  lemma FilterMapSkip<A, B>(xs: seq<A>, x: A, ys: seq<A>, f: A -> Option<B>)
    requires f(x).None?
    ensures FilterMap(xs + [x] + ys, f) == FilterMap(xs + ys, f)
  {
    FilterMapAppend(xs + [x], ys, f);
    FilterMapAppend(xs, [x], f);
    FilterMapAppend(xs, ys, f);
    assert [x][..0] == [];
  }

  predicate NoDuplicates<T(==)>(s: seq<T>)
  {
    forall i, j :: 0 <= i < j < |s| ==> s[i] != s[j]
  }

  function Elements<T(==)>(s: seq<T>): set<T>
  {
    set x | x in s
  }

  lemma {:induction false} ElementsSize<T>(s: seq<T>)
    ensures |Elements(s)| <= |s|
    ensures NoDuplicates(s) ==> |Elements(s)| == |s|
  {
    if |s| > 0 {
      var init := s[..|s| - 1];
      ElementsSize(init);
      assert Elements(s) == Elements(init) + {s[|s| - 1]} by {
        assert forall x :: x in s <==> x in init || x == s[|s| - 1];
      }
      if NoDuplicates(s) {
        assert NoDuplicates(init);
        assert s[|s| - 1] !in Elements(init) by {
          forall j | 0 <= j < |init| ensures init[j] != s[|s| - 1] {
            assert init[j] == s[j];
          }
        }
      }
    }
  }
}
