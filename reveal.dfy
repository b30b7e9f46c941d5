/** Showing the solution: every card on the path of a solver entry whose score
    is the target turns Green. */
module Reveal {
  import opened Cards
  import opened Pyramid
  import opened Solver

  /** Entry e has the target score and passes through card (i, j). */
  predicate Hits(e: Target, target: int, i: int, j: int) {
    e.score == target && 0 <= i < |e.path| && e.path[i] == j
  }

  /** Some entry of ts, taken in order, hits card (i, j). */
  function Marked(ts: seq<Target>, target: int, i: int, j: int): bool
    decreases |ts|
  {
    |ts| > 0 && (Marked(ts[..|ts| - 1], target, i, j) || Hits(ts[|ts| - 1], target, i, j))
  }

  /** Marked means: hit by at least one entry. */
  lemma {:induction false} MarkedIff(ts: seq<Target>, target: int, i: int, j: int)
    ensures Marked(ts, target, i, j) <==> exists t :: 0 <= t < |ts| && Hits(ts[t], target, i, j)
    decreases |ts|
  {
    if |ts| > 0 {
      var init := ts[..|ts| - 1];
      MarkedIff(init, target, i, j);
      if Marked(init, target, i, j) {
        var t :| 0 <= t < |init| && Hits(init[t], target, i, j);
        assert ts[t] == init[t];
      }
      if exists t :: 0 <= t < |ts| && Hits(ts[t], target, i, j) {
        var t :| 0 <= t < |ts| && Hits(ts[t], target, i, j);
        if t < |ts| - 1 {
          assert init[t] == ts[t];
        }
      }
    }
  }

  /** Taking one more entry marks what it hits besides what was marked. */
  lemma MarkedSnoc(ts: seq<Target>, k: int, target: int, i: int, j: int)
    requires 0 <= k < |ts|
    ensures Marked(ts[..k + 1], target, i, j) == (Marked(ts[..k], target, i, j) || Hits(ts[k], target, i, j))
  {
    assert ts[..k + 1][..k] == ts[..k];
  }

  /** The grid after the solution is shown: each card hit by an entry with the
      target score is Green, every other card is as it was. */
  function Revealed(g: Grid, ts: seq<Target>, target: int): (r: Grid)
    ensures |r| == |g| && forall i :: 0 <= i < |g| ==> |r[i]| == |g[i]|
  {
    seq(|g|, i requires 0 <= i < |g| =>
      seq(|g[i]|, j requires 0 <= j < |g[i]| =>
        if Marked(ts, target, i, j) then g[i][j].WithState(Green) else g[i][j]))
  }

  /** The grid after every card along p is set Green. */
  function PaintPath(g: Grid, p: seq<int>): (r: Grid)
    ensures |r| == |g| && forall i :: 0 <= i < |g| ==> |r[i]| == |g[i]|
  {
    seq(|g|, i requires 0 <= i < |g| =>
      seq(|g[i]|, j requires 0 <= j < |g[i]| =>
        if i < |p| && p[i] == j then g[i][j].WithState(Green) else g[i][j]))
  }

  /** Showing one more entry paints its path when its score is the target and
      changes nothing otherwise. */
  lemma RevealedSnoc(g: Grid, ts: seq<Target>, k: int, target: int)
    requires 0 <= k < |ts|
    ensures Revealed(g, ts[..k + 1], target) ==
      if ts[k].score == target then PaintPath(Revealed(g, ts[..k], target), ts[k].path)
      else Revealed(g, ts[..k], target)
  {
    var r: Grid := Revealed(g, ts[..k], target);
    var r': Grid := Revealed(g, ts[..k + 1], target);
    var q: Grid := if ts[k].score == target then PaintPath(r, ts[k].path) else r;
    forall i | 0 <= i < |g| ensures r'[i] == q[i] {
      forall j | 0 <= j < |g[i]| ensures r'[i][j] == q[i][j] {
        MarkedSnoc(ts, k, target, i, j);
      }
    }
  }

  /** Shown on a pyramid whose target is one of the solver's scores: every
      descent with that score is Green from the apex to the bottom, and every
      card that changed lies on such a descent; the cards themselves stay. */
  lemma RevealShowsSolutions(g: Grid, s: seq<Target>, target: int)
    requires Triangular(g) && |g| > 0 && s == Solved(g)
    ensures forall e :: e in s ==> IsPath(e.path, |g|) && OnGrid(g, e.path, 0)
    ensures forall e :: e in s ==> |e.path| == |g|
    ensures forall e, k :: e in s && 0 <= k < |g| ==> 0 <= e.path[k] < |g[k]|
    ensures SameCards(g, Revealed(g, s, target))
    ensures forall k :: 0 <= k < |g| ==> |Revealed(g, s, target)[k]| == |g[k]|
    ensures forall e, k :: e in s && e.score == target && 0 <= k < |g| ==>
      0 <= e.path[k] < |Revealed(g, s, target)[k]| && Revealed(g, s, target)[k][e.path[k]].state == Green
    ensures forall i, j :: 0 <= i < |g| && 0 <= j < |g[i]| && Revealed(g, s, target)[i][j] != g[i][j] ==>
      exists e :: e in s && e.score == target && e.path[i] == j
  {
    var r: Grid := Revealed(g, s, target);
    SolvedSound(g);
    forall e, k | e in s && e.score == target && 0 <= k < |g|
      ensures 0 <= e.path[k] < |r[k]| && r[k][e.path[k]].state == Green
    {
      MarkedIff(s, target, k, e.path[k]);
      var t :| 0 <= t < |s| && s[t] == e;
      assert Hits(s[t], target, k, e.path[k]);
    }
    forall i, j | 0 <= i < |g| && 0 <= j < |g[i]| && r[i][j] != g[i][j]
      ensures exists e :: e in s && e.score == target && e.path[i] == j
    {
      MarkedIff(s, target, i, j);
      assert Marked(s, target, i, j);
      var t :| 0 <= t < |s| && Hits(s[t], target, i, j);
      assert s[t] in s;
    }
  }

  /** When the target is one of the solver's scores, at least one full descent
      is shown, and its product is the target. */
  lemma RevealShowsOne(g: Grid, target: int, t0: nat) returns (p: seq<int>)
    requires Triangular(g) && |g| > 0 && t0 < |Solved(g)| && Solved(g)[t0].score == target
    ensures IsPath(p, |g|) && OnGrid(g, p, 0) && PathProduct(g, p) == target
    ensures forall k :: 0 <= k < |g| ==> Revealed(g, Solved(g), target)[k][p[k]].state == Green
  {
    RevealShowsSolutions(g, Solved(g), target);
    SolvedSound(g);
    p := Solved(g)[t0].path;
    assert Solved(g)[t0] in Solved(g);
  }
}
