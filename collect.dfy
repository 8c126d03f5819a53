/**
 * The list-building shape of generate_toc_from_ipynb, apart from what is
 * built: every line of a cell yields an optional entry, and the present
 * entries are appended to one list, cell after cell and line after line.
 *
 * `Flatten` collects the present entries of one cell, `Concat` those of a
 * sequence of cells.  `Picks` and `GridPicks` record where each collected
 * entry came from, so that order and completeness can be stated.
 */
module Collect {
  import opened Wrappers

  /** The entry of one line as a list of zero or one element. */
  function Present(o: Option<string>): seq<string> {
    match o
    case None => []
    case Some(e) => [e]
  }

  /** The present entries of `xs`, in order. */
  function Flatten(xs: seq<Option<string>>): seq<string> {
    if xs == [] then [] else Present(xs[0]) + Flatten(xs[1..])
  }

  /** The present entries of every row of `g`, row after row. */
  function Concat(g: seq<seq<Option<string>>>): seq<string> {
    if g == [] then [] else Flatten(g[0]) + Concat(g[1..])
  }

  lemma {:induction false} FlattenAppend(xs: seq<Option<string>>, ys: seq<Option<string>>)
    ensures Flatten(xs + ys) == Flatten(xs) + Flatten(ys)
    decreases |xs|
  {
    if xs == [] {
      assert xs + ys == ys;
    } else {
      FlattenAppend(xs[1..], ys);
      assert (xs + ys)[1..] == xs[1..] + ys;
    }
  }

  lemma {:induction false} ConcatAppend(g: seq<seq<Option<string>>>, h: seq<seq<Option<string>>>)
    ensures Concat(g + h) == Concat(g) + Concat(h)
    decreases |g|
  {
    if g == [] {
      assert g + h == h;
    } else {
      ConcatAppend(g[1..], h);
      assert (g + h)[1..] == g[1..] + h;
    }
  }

  /** Taking one more element of `xs` appends its entry, if any. */
  lemma FlattenSnoc(xs: seq<Option<string>>, j: nat)
    requires j < |xs|
    ensures Flatten(xs[..j + 1]) == Flatten(xs[..j]) + Present(xs[j])
  {
    assert xs[..j + 1] == xs[..j] + [xs[j]];
    FlattenAppend(xs[..j], [xs[j]]);
    assert [xs[j]][1..] == [];
  }

  /** Taking one more row of `g` appends its entries. */
  lemma ConcatSnoc(g: seq<seq<Option<string>>>, i: nat)
    requires i < |g|
    ensures Concat(g[..i + 1]) == Concat(g[..i]) + Flatten(g[i])
  {
    assert g[..i + 1] == g[..i] + [g[i]];
    ConcatAppend(g[..i], [g[i]]);
    assert [g[i]][1..] == [];
  }

  // --------------------------------------------------- where entries come from

  /** `Flatten` read from the back: the entries of all but the last element,
      then the entry of the last. */
  lemma FlattenLast(xs: seq<Option<string>>)
    requires xs != []
    ensures Flatten(xs) == Flatten(xs[..|xs| - 1]) + Present(xs[|xs| - 1])
  {
    FlattenSnoc(xs, |xs| - 1);
    assert xs[..|xs|] == xs;
  }

  /** `Concat` read from the back. */
  lemma ConcatLast(g: seq<seq<Option<string>>>)
    requires g != []
    ensures Concat(g) == Concat(g[..|g| - 1]) + Flatten(g[|g| - 1])
  {
    ConcatSnoc(g, |g| - 1);
    assert g[..|g|] == g;
  }

  /** The indices of the present entries of `xs`, in increasing order. */
  function Picks(xs: seq<Option<string>>): (r: seq<nat>)
    ensures forall m :: 0 <= m < |r| ==> r[m] < |xs|
  {
    if xs == [] then []
    else Picks(xs[..|xs| - 1]) + (if xs[|xs| - 1].Some? then [|xs| - 1] else [])
  }

  /** Entry `m` of `Flatten(xs)` is the value at index `Picks(xs)[m]`. */
  lemma {:induction false} PicksMatch(xs: seq<Option<string>>)
    ensures |Picks(xs)| == |Flatten(xs)|
    ensures forall m :: 0 <= m < |Picks(xs)| ==> xs[Picks(xs)[m]] == Some(Flatten(xs)[m])
    decreases |xs|
  {
    if xs != [] {
      var init := xs[..|xs| - 1];
      PicksMatch(init);
      FlattenLast(xs);
      forall m | 0 <= m < |Picks(init)|
        ensures xs[Picks(init)[m]] == Some(Flatten(xs)[m])
      {
        assert xs[Picks(init)[m]] == init[Picks(init)[m]];
      }
    }
  }

  /** The picked indices increase strictly. */
  lemma {:induction false} PicksIncrease(xs: seq<Option<string>>)
    ensures forall m, l :: 0 <= m < l < |Picks(xs)| ==> Picks(xs)[m] < Picks(xs)[l]
    decreases |xs|
  {
    if xs != [] {
      PicksIncrease(xs[..|xs| - 1]);
    }
  }

  /** Every present entry is picked. */
  lemma {:induction false} PicksComplete(xs: seq<Option<string>>)
    ensures forall k :: 0 <= k < |xs| && xs[k].Some? ==> k in Picks(xs)
    decreases |xs|
  {
    if xs != [] {
      var init := xs[..|xs| - 1];
      PicksComplete(init);
      forall k | 0 <= k < |init| && xs[k].Some?
        ensures k in Picks(xs)
      {
        assert init[k] == xs[k];
      }
    }
  }

  /** Reading order on (row, column) positions. */
  predicate Before(p: (nat, nat), q: (nat, nat)) {
    p.0 < q.0 || (p.0 == q.0 && p.1 < q.1)
  }

  /** The column indices `ps`, all placed in row `i`. */
  function InRow(i: nat, ps: seq<nat>): seq<(nat, nat)> {
    seq(|ps|, m requires 0 <= m < |ps| => (i, ps[m]))
  }

  /** The positions of the present entries of `g`, in reading order. */
  function GridPicks(g: seq<seq<Option<string>>>): (r: seq<(nat, nat)>)
    ensures forall m :: 0 <= m < |r| ==> r[m].0 < |g| && r[m].1 < |g[r[m].0]|
  {
    if g == [] then []
    else
      var init := g[..|g| - 1];
      var r := GridPicks(init) + InRow(|g| - 1, Picks(g[|g| - 1]));
      assert forall m :: 0 <= m < |GridPicks(init)| ==> g[r[m].0] == init[r[m].0];
      r
  }

  /** Entry `m` of `Concat(g)` is the value at position `GridPicks(g)[m]`. */
  lemma {:induction false} GridPicksMatch(g: seq<seq<Option<string>>>)
    ensures |GridPicks(g)| == |Concat(g)|
    ensures forall m :: 0 <= m < |GridPicks(g)| ==>
              g[GridPicks(g)[m].0][GridPicks(g)[m].1] == Some(Concat(g)[m])
    decreases |g|
  {
    if g != [] {
      var init, last := g[..|g| - 1], g[|g| - 1];
      GridPicksMatch(init);
      PicksMatch(last);
      ConcatLast(g);
      var ps := GridPicks(init);
      forall m | 0 <= m < |ps|
        ensures g[ps[m].0][ps[m].1] == Some(Concat(g)[m])
      {
        assert g[ps[m].0] == init[ps[m].0];
      }
    }
  }

  /** The positions are in strictly increasing reading order. */
  lemma {:induction false} GridPicksOrdered(g: seq<seq<Option<string>>>)
    ensures forall m, l :: 0 <= m < l < |GridPicks(g)| ==> Before(GridPicks(g)[m], GridPicks(g)[l])
    decreases |g|
  {
    if g != [] {
      GridPicksOrdered(g[..|g| - 1]);
      PicksIncrease(g[|g| - 1]);
    }
  }

  /** Every present entry of every row is picked. */
  lemma {:induction false} GridPicksComplete(g: seq<seq<Option<string>>>)
    ensures forall i, j :: 0 <= i < |g| && 0 <= j < |g[i]| && g[i][j].Some? ==> (i, j) in GridPicks(g)
    decreases |g|
  {
    if g != [] {
      var init, last := g[..|g| - 1], g[|g| - 1];
      GridPicksComplete(init);
      PicksComplete(last);
      var qs := InRow(|g| - 1, Picks(last));
      forall i, j | 0 <= i < |g| && 0 <= j < |g[i]| && g[i][j].Some?
        ensures (i, j) in GridPicks(g)
      {
        if i < |g| - 1 {
          assert init[i] == g[i];
        } else {
          var m :| 0 <= m < |Picks(last)| && Picks(last)[m] == j;
          assert qs[m] == (i, j);
        }
      }
    }
  }

  /** A list in strictly increasing reading order has as many elements as
      the set of its elements. */
  lemma {:induction false} DistinctCount(ps: seq<(nat, nat)>)
    requires forall m, l :: 0 <= m < l < |ps| ==> Before(ps[m], ps[l])
    ensures |set m | 0 <= m < |ps| :: ps[m]| == |ps|
    decreases |ps|
  {
    if ps != [] {
      var init := ps[..|ps| - 1];
      DistinctCount(init);
      var last := ps[|ps| - 1];
      assert (set m | 0 <= m < |ps| :: ps[m]) == (set m | 0 <= m < |init| :: init[m]) + {last};
    }
  }

  /** The number of collected entries is the number of present entries. */
  lemma ConcatCount(g: seq<seq<Option<string>>>)
    ensures |Concat(g)| == |set i, j | 0 <= i < |g| && 0 <= j < |g[i]| && g[i][j].Some? :: (i, j)|
  {
    GridPicksMatch(g);
    GridPicksOrdered(g);
    GridPicksComplete(g);
    var ps := GridPicks(g);
    DistinctCount(ps);
    var present := set i, j | 0 <= i < |g| && 0 <= j < |g[i]| && g[i][j].Some? :: (i, j);
    assert present == set m | 0 <= m < |ps| :: ps[m];
  }
}
