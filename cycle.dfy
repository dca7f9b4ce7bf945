/**
 * Why the partner index being strictly below `i` matters (index.js:13):
 * the shuffle is Sattolo's algorithm, so the positions it produces form a
 * single cycle.  `Moves(rand, n, i)[k]` is the position of the input that
 * ends up at `k` after loop steps `i` down to 1; the whole shuffle's
 * position map is one cycle through all `n` positions, and for two or
 * more cards no card stays where it was.
 */
module Cycle {
  import opened Deck

  /** Position after `u` in a cyclic listing of length `m`. */
  function Next(u: nat, m: nat): nat {
    if u + 1 == m then 0 else u + 1
  }

  predicate Distinct(c: seq<nat>) {
    forall a, b :: 0 <= a < b < |c| ==> c[a] != c[b]
  }

  /**
   * `c` lists every position of `f` exactly once, and `f` maps each
   * listed position to the next one in the listing, cyclically: `f` is a
   * single cycle.
   */
  predicate IsCycle(f: seq<nat>, c: seq<nat>) {
    && |c| == |f|
    && Distinct(c)
    && (forall u :: 0 <= u < |c| ==> c[u] < |f|)
    && (forall x :: 0 <= x < |f| ==> x in c)
    && (forall u :: 0 <= u < |c| ==> c[u] < |f| && f[c[u]] == c[Next(u, |c|)])
  }

  /**
   * The position map one loop step further out: the new last position `m`
   * takes its element from `j`, and the one that used to take from `j`
   * now takes from `m` (where the exchange moved it).
   */
  function Extend(f: seq<nat>, j: nat): (g: seq<nat>)
    ensures |g| == |f| + 1
  {
    seq(|f| + 1, k requires 0 <= k < |f| + 1 =>
      if k == |f| then j else if f[k] == j then |f| else f[k])
  }

  /** The position map of loop steps `i` down to 1 on positions `0..i`. */
  function Moves(rand: seq<nat>, n: nat, i: nat): (f: seq<nat>)
    requires RandomOracle(rand, n) && i < n
    ensures |f| == i + 1
    ensures forall k :: 0 <= k < |f| ==> f[k] <= i
    decreases i
  {
    if i == 0 then [0] else Extend(Moves(rand, n, i - 1), rand[i])
  }

  /** The position map of the whole shuffle of `n` cards. */
  function ShuffleMap(rand: seq<nat>, n: nat): (f: seq<nat>)
    requires RandomOracle(rand, n) && n > 0
    ensures |f| == n
  {
    Moves(rand, n, n - 1)
  }

  /** `c` with `m` put in front of position `t`. */
  function InsertAt(c: seq<nat>, t: nat, m: nat): (d: seq<nat>)
    requires t <= |c|
    ensures |d| == |c| + 1
    ensures forall u :: 0 <= u < |d| ==> d[u] == if u < t then c[u] else if u == t then m else c[u - 1]
  {
    c[..t] + [m] + c[t..]
  }

  lemma InsertDistinct(c: seq<nat>, t: nat, m: nat)
    requires Distinct(c) && t <= |c| && forall u :: 0 <= u < |c| ==> c[u] < m
    ensures Distinct(InsertAt(c, t, m))
    ensures forall u :: 0 <= u < |c| + 1 ==> InsertAt(c, t, m)[u] <= m
  {
    var d := InsertAt(c, t, m);
    forall a, b | 0 <= a < b < |d| ensures d[a] != d[b] {
      if a != t && b != t {
        var a' := if a < t then a else a - 1;
        var b' := if b < t then b else b - 1;
        assert a' < b' && d[a] == c[a'] && d[b] == c[b'];
      }
    }
  }

  lemma InsertCovers(c: seq<nat>, t: nat, m: nat)
    requires t <= |c| && forall x :: 0 <= x < m ==> x in c
    ensures forall x :: 0 <= x <= m ==> x in InsertAt(c, t, m)
  {
    var d := InsertAt(c, t, m);
    forall x | 0 <= x <= m ensures x in d {
      if x < m {
        assert x in c;
        var u :| 0 <= u < |c| && c[u] == x;
        if u < t { assert d[u] == x; } else { assert d[u + 1] == x; }
      } else {
        assert d[t] == x;
      }
    }
  }

  /** The extended map sends each listed position to the next one in the new listing. */
  lemma InsertFollowsAt(f: seq<nat>, c: seq<nat>, t: nat, u: nat)
    requires IsCycle(f, c) && t < |c| && u <= |c|
    ensures var d := InsertAt(c, t, |f|);
      d[u] < |f| + 1 && Extend(f, c[t])[d[u]] == d[Next(u, |d|)]
  {
    var m := |f|;
    var d := InsertAt(c, t, m);
    if u + 1 < t {
      assert f[c[u]] == c[u + 1];
      assert c[u + 1] != c[t];
    } else if u + 1 == t {
      assert f[c[u]] == c[t];
    } else if u == t {
    } else if u < m {
      assert f[c[u - 1]] == c[u];
      assert c[u] != c[t];
    } else {
      assert f[c[m - 1]] == c[0];
      assert t != 0 ==> c[0] != c[t];
    }
  }

  /** Extending a single cycle with a partner `j` below the new position inserts it before `j`. */
  lemma ExtendKeepsCycle(f: seq<nat>, c: seq<nat>, j: nat)
    requires IsCycle(f, c) && j < |f|
    ensures exists d :: IsCycle(Extend(f, j), d)
  {
    assert j in c;
    var t :| 0 <= t < |c| && c[t] == j;
    var d := InsertAt(c, t, |f|);
    InsertDistinct(c, t, |f|);
    InsertCovers(c, t, |f|);
    forall u | 0 <= u < |d| ensures d[u] < |f| + 1 && Extend(f, j)[d[u]] == d[Next(u, |d|)] {
      InsertFollowsAt(f, c, t, u);
    }
    assert IsCycle(Extend(f, j), d);
  }

  /** After loop steps `i` down to 1, positions `0..i` form one cycle. */
  lemma {:induction false} MovesCycle(rand: seq<nat>, n: nat, i: nat)
    requires RandomOracle(rand, n) && i < n
    ensures exists c :: IsCycle(Moves(rand, n, i), c)
    decreases i
  {
    if i == 0 {
      assert IsCycle(Moves(rand, n, 0), [0]);
    } else {
      MovesCycle(rand, n, i - 1);
      var c :| IsCycle(Moves(rand, n, i - 1), c);
      assert Moves(rand, n, i) == Extend(Moves(rand, n, i - 1), rand[i]);
      ExtendKeepsCycle(Moves(rand, n, i - 1), c, rand[i]);
    }
  }

  /** `Moves` is the shuffle's position map: the element at `k` came from `Moves[k]`. */
  lemma {:induction false} ShuffleFromMoves<T>(s: seq<T>, rand: seq<nat>, i: nat, k: nat)
    requires i < |s| && RandomOracle(rand, |s|) && k <= i
    ensures |ShuffleFrom(s, rand, i)| == |s|
    ensures Moves(rand, |s|, i)[k] < |s| && ShuffleFrom(s, rand, i)[k] == s[Moves(rand, |s|, i)[k]]
    decreases i
  {
    ShuffleFromPermutes(s, rand, i);
    if i > 0 {
      var s' := Swap(s, i, rand[i]);
      if k < i {
        ShuffleFromMoves(s', rand, i - 1, k);
        var x := Moves(rand, |s|, i - 1)[k];
        assert Moves(rand, |s|, i)[k] == if x == rand[i] then i else x;
      } else {
        ShuffleFromKeepsTail(s', rand, i - 1, i);
      }
    }
  }

  /**
   * The whole shuffle moves the element at position `ShuffleMap[k]` to `k`,
   * and that position map is a single cycle through all `n` positions.
   */
  lemma ShuffledIsCycle<T>(s: seq<T>, rand: seq<nat>)
    requires |s| > 0 && RandomOracle(rand, |s|)
    ensures |Shuffled(s, rand)| == |s|
    ensures forall k :: 0 <= k < |s| ==>
      ShuffleMap(rand, |s|)[k] < |s| && Shuffled(s, rand)[k] == s[ShuffleMap(rand, |s|)[k]]
    ensures exists c :: IsCycle(ShuffleMap(rand, |s|), c)
  {
    ShuffledPermutes(s, rand);
    assert Shuffled(s, rand) == ShuffleFrom(s, rand, |s| - 1);
    assert ShuffleMap(rand, |s|) == Moves(rand, |s|, |s| - 1);
    forall k | 0 <= k < |s|
      ensures ShuffleMap(rand, |s|)[k] < |s| && Shuffled(s, rand)[k] == s[ShuffleMap(rand, |s|)[k]]
    {
      ShuffleFromMoves(s, rand, |s| - 1, k);
    }
    MovesCycle(rand, |s|, |s| - 1);
  }

  /** A single cycle through two or more positions fixes none of them. */
  lemma CycleNoFixedPoint(f: seq<nat>, c: seq<nat>, x: nat)
    requires IsCycle(f, c) && |f| >= 2 && x < |f|
    ensures f[x] != x
  {
    assert x in c;
    var u :| 0 <= u < |c| && c[u] == x;
    assert c[Next(u, |c|)] != c[u];
  }

  /** No card of a deck of two or more ends where it started. */
  lemma ShuffledMovesEveryCard(rand: seq<nat>, n: nat, k: nat)
    requires RandomOracle(rand, n) && n >= 2 && k < n
    ensures ShuffleMap(rand, n)[k] != k
  {
    MovesCycle(rand, n, n - 1);
    var c :| IsCycle(ShuffleMap(rand, n), c);
    CycleNoFixedPoint(ShuffleMap(rand, n), c, k);
  }
}
