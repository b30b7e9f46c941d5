/** The target-score solver: every descent from the apex to the bottom level,
    each with the product of the cards it passes. */
module Solver {
  import opened Pyramid

  /** One solver entry: a reachable score and the positions, level by level,
      of the cards whose product it is. */
  datatype Target = Target(score: int, path: seq<int>)

  function Pow2(k: nat): (r: nat)
    ensures r >= 1
  {
    if k == 0 then 1 else 2 * Pow2(k - 1)
  }

  /** Below `from`, each position equals the one above it or the one after it. */
  ghost predicate StepsFrom(p: seq<int>, from: int) {
    forall k :: 1 <= k < |p| && from < k ==> p[k] == p[k - 1] || p[k] == p[k - 1] + 1
  }

  /** A descent of an n-level pyramid: n positions, starting at the apex, each
      one under the previous card or under its right neighbour. */
  ghost predicate IsPath(p: seq<int>, n: int) {
    n > 0 && |p| == n && p[0] == 0 && StepsFrom(p, 0)
  }

  /** The entries produced from card `pos` of `level` with score `score` so far
      and the positions `path` already chosen. The recursion is the solver's own:
      past the bottom level it records (score, path); at the bottom level it
      multiplies by the card and goes one level further; above it, it branches
      into the two cards below, left first. */
  function Scores(g: Grid, level: nat, score: int, pos: int, path: seq<int>): seq<Target>
    requires Triangular(g) && level <= |g|
    requires level < |g| ==> 0 <= pos <= level
    decreases |g| - level
  {
    if level >= |g| then
      [Target(score, path)]
    else if level == |g| - 1 then
      Scores(g, level + 1, score * g[level][pos].num, 0, path + [pos])
    else
      Scores(g, level + 1, score * g[level][pos].num, pos, path + [pos]) +
      Scores(g, level + 1, score * g[level][pos].num, pos + 1, path + [pos])
  }

  /** The solver's whole result for a pyramid: the search from the apex. */
  function Solved(g: Grid): seq<Target>
    requires Triangular(g)
  {
    Scores(g, 0, 1, 0, [])
  }

  /** What an entry produced from (level, pos) after `path` looks like: it
      extends `path`, continues at pos, descends, reaches the bottom, and its
      score is `score` times the product of the cards from `level` down. */
  ghost predicate Continues(g: Grid, level: nat, score: int, pos: int, path: seq<int>, e: Target) {
    && level < |e.path| == |g|
    && e.path[..level] == path
    && e.path[level] == pos
    && StepsFrom(e.path, level)
    && OnGrid(g, e.path, level)
    && e.score == score * ProductAlong(g, e.path, level)
  }

  /** The number of entries from a level: one per way down. */
  lemma {:induction false} ScoresCount(g: Grid, level: nat, score: int, pos: int, path: seq<int>)
    requires Triangular(g) && level < |g| && 0 <= pos <= level
    ensures |Scores(g, level, score, pos, path)| == Pow2(|g| - 1 - level)
    decreases |g| - level
  {
    var v := g[level][pos].num;
    if level < |g| - 1 {
      ScoresCount(g, level + 1, score * v, pos, path + [pos]);
      ScoresCount(g, level + 1, score * v, pos + 1, path + [pos]);
    }
  }

  /** An entry that continues from a card under (level, pos) continues from
      (level, pos) itself, with that card's number multiplied in. */
  lemma ContinuesStep(g: Grid, level: nat, score: int, pos: int, path: seq<int>, q: int, e: Target)
    requires Triangular(g) && level < |g| && 0 <= pos <= level && |path| == level
    requires q == pos || q == pos + 1
    requires Continues(g, level + 1, score * g[level][pos].num, q, path + [pos], e)
    ensures Continues(g, level, score, pos, path, e)
  {
    var v := g[level][pos].num;
    assert e.path[..level] == e.path[..level + 1][..level];
    assert e.path[level] == (path + [pos])[level] == pos;
    var rest := ProductAlong(g, e.path, level + 1);
    assert ProductAlong(g, e.path, level) == v * rest;
    assert e.score == score * v * rest == score * (v * rest);
  }

  /** Every entry from a level is a descent from that card with the right score. */
  lemma {:induction false} ScoresContinue(g: Grid, level: nat, score: int, pos: int, path: seq<int>)
    requires Triangular(g) && level < |g| && 0 <= pos <= level && |path| == level
    ensures forall e :: e in Scores(g, level, score, pos, path) ==> Continues(g, level, score, pos, path, e)
    decreases |g| - level
  {
    var v := g[level][pos].num;
    var path' := path + [pos];
    if level == |g| - 1 {
      var e := Target(score * v, path');
      assert Scores(g, level, score, pos, path) == [e];
      assert e.path[..level] == path;
      assert ProductAlong(g, e.path, level + 1) == 1;
    } else {
      var left := Scores(g, level + 1, score * v, pos, path');
      var right := Scores(g, level + 1, score * v, pos + 1, path');
      assert Scores(g, level, score, pos, path) == left + right;
      ScoresContinue(g, level + 1, score * v, pos, path');
      ScoresContinue(g, level + 1, score * v, pos + 1, path');
      forall e | e in left + right
        ensures Continues(g, level, score, pos, path, e)
      {
        if e in left {
          ContinuesStep(g, level, score, pos, path, pos, e);
        } else {
          ContinuesStep(g, level, score, pos, path, pos + 1, e);
        }
      }
    }
  }

  /** No two entries from a level share a path. */
  lemma {:induction false} ScoresDistinct(g: Grid, level: nat, score: int, pos: int, path: seq<int>)
    requires Triangular(g) && level < |g| && 0 <= pos <= level && |path| == level
    ensures forall a, b :: 0 <= a < b < |Scores(g, level, score, pos, path)| ==>
      Scores(g, level, score, pos, path)[a].path != Scores(g, level, score, pos, path)[b].path
    decreases |g| - level
  {
    var v := g[level][pos].num;
    var path' := path + [pos];
    if level < |g| - 1 {
      var left := Scores(g, level + 1, score * v, pos, path');
      var right := Scores(g, level + 1, score * v, pos + 1, path');
      ScoresDistinct(g, level + 1, score * v, pos, path');
      ScoresDistinct(g, level + 1, score * v, pos + 1, path');
      ScoresContinue(g, level + 1, score * v, pos, path');
      ScoresContinue(g, level + 1, score * v, pos + 1, path');
      var s := left + right;
      assert Scores(g, level, score, pos, path) == s;
      forall a, b | 0 <= a < b < |s| ensures s[a].path != s[b].path {
        if b < |left| {
          assert s[a] == left[a] && s[b] == left[b];
        } else if |left| <= a {
          assert s[a] == right[a - |left|] && s[b] == right[b - |left|];
        } else {
          assert s[a] == left[a] && s[b] == right[b - |left|];
          assert s[a] in left && s[b] in right;
          assert Continues(g, level + 1, score * v, pos, path', s[a]);
          assert Continues(g, level + 1, score * v, pos + 1, path', s[b]);
          assert s[a].path[level + 1] != s[b].path[level + 1];
        }
      }
    }
  }

  /** Every descent from (level, pos) after `path` has an entry; t is its index. */
  lemma {:induction false} ScoresComplete(g: Grid, level: nat, score: int, pos: int, path: seq<int>, p: seq<int>)
      returns (t: nat)
    requires Triangular(g) && level < |g| && 0 <= pos <= level && |path| == level
    requires |p| == |g| && p[..level] == path && p[level] == pos && StepsFrom(p, level)
    ensures t < |Scores(g, level, score, pos, path)| && Scores(g, level, score, pos, path)[t].path == p
    decreases |g| - level
  {
    var v := g[level][pos].num;
    var path' := path + [pos];
    assert p[..level + 1] == p[..level] + [p[level]];
    if level == |g| - 1 {
      assert p == p[..level + 1];
      t := 0;
    } else {
      var left := Scores(g, level + 1, score * v, pos, path');
      var right := Scores(g, level + 1, score * v, pos + 1, path');
      assert Scores(g, level, score, pos, path) == left + right;
      assert p[level + 1] == pos || p[level + 1] == pos + 1;
      if p[level + 1] == pos {
        t := ScoresComplete(g, level + 1, score * v, pos, path', p);
        assert (left + right)[t] == left[t];
      } else {
        var u := ScoresComplete(g, level + 1, score * v, pos + 1, path', p);
        t := |left| + u;
        assert (left + right)[t] == right[u];
      }
    }
  }

  /** The solver leaves one entry per descent: 2^(n-1) of them. */
  lemma SolvedCount(g: Grid)
    requires Triangular(g) && |g| > 0
    ensures |Solved(g)| == Pow2(|g| - 1)
  {
    ScoresCount(g, 0, 1, 0, []);
  }

  /** Each entry is a descent of the pyramid and its score is the product of
      the cards along it. */
  lemma SolvedSound(g: Grid)
    requires Triangular(g) && |g| > 0
    ensures forall e :: e in Solved(g) ==>
      IsPath(e.path, |g|) && OnGrid(g, e.path, 0) && e.score == PathProduct(g, e.path)
  {
    ScoresContinue(g, 0, 1, 0, []);
  }

  /** No path appears twice. */
  lemma SolvedDistinct(g: Grid)
    requires Triangular(g) && |g| > 0
    ensures forall a, b :: 0 <= a < b < |Solved(g)| ==> Solved(g)[a].path != Solved(g)[b].path
  {
    ScoresDistinct(g, 0, 1, 0, []);
  }

  /** Every descent of the pyramid appears. */
  lemma SolvedComplete(g: Grid, p: seq<int>) returns (t: nat)
    requires Triangular(g) && IsPath(p, |g|)
    ensures t < |Solved(g)| && Solved(g)[t].path == p
  {
    assert p[..0] == [];
    t := ScoresComplete(g, 0, 1, 0, [], p);
  }

  /** The solver reads the card numbers only, not their colours. */
  lemma {:induction false} ScoresSameCards(g: Grid, g': Grid, level: nat, score: int, pos: int, path: seq<int>)
    requires Triangular(g) && SameCards(g, g') && level <= |g|
    requires level < |g| ==> 0 <= pos <= level
    ensures Triangular(g')
    ensures Scores(g', level, score, pos, path) == Scores(g, level, score, pos, path)
    decreases |g| - level
  {
    if level < |g| {
      assert g'[level][pos].num == g[level][pos].num;
      var v := g[level][pos].num;
      if level == |g| - 1 {
        ScoresSameCards(g, g', level + 1, score * v, 0, path + [pos]);
      } else {
        ScoresSameCards(g, g', level + 1, score * v, pos, path + [pos]);
        ScoresSameCards(g, g', level + 1, score * v, pos + 1, path + [pos]);
      }
    }
  }

  lemma SolvedSameCards(g: Grid, g': Grid)
    requires Triangular(g) && SameCards(g, g')
    ensures Triangular(g') && Solved(g') == Solved(g)
  {
    ScoresSameCards(g, g', 0, 1, 0, []);
  }
}
