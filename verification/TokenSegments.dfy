/** Token lists by their parentheses: balanced segments, and the connectives outside of all
    parentheses in them. */
module TokenSegments {
  import opened Parsing

  function Nest(t: Token): int {
    if t.LParen? then 1 else if t.RParen? then -1 else 0
  }

  /** A connective counts one; BETWEEN uses one AND up. */
  function Weight(t: Token): int {
    if t.And_? || t.Or_? then 1 else if t.Between_? then -1 else 0
  }

  /** How many parentheses are open at `j` that were not at `i`. */
  function Level(ts: seq<Token>, i: nat, j: nat): int
    requires i <= j <= |ts|
    decreases j - i
  {
    if i == j then 0 else Level(ts, i, j - 1) + Nest(ts[j - 1])
  }

  /** The connectives outside of all parentheses, without those of BETWEEN. */
  function Excess(ts: seq<Token>, i: nat, j: nat): int
    requires i <= j <= |ts|
    decreases j - i
  {
    if i == j then 0 else Excess(ts, i, j - 1) + if Level(ts, i, j - 1) == 0 then Weight(ts[j - 1]) else 0
  }

  ghost predicate NeverBelow(ts: seq<Token>, i: nat, j: nat) {
    i <= j <= |ts| && forall k: nat :: i <= k <= j ==> Level(ts, i, k) >= 0
  }

  ghost predicate Balanced(ts: seq<Token>, i: nat, j: nat) {
    NeverBelow(ts, i, j) && Level(ts, i, j) == 0
  }

  ghost predicate Seg(ts: seq<Token>, i: nat, j: nat, n: int) {
    Balanced(ts, i, j) && Excess(ts, i, j) == n
  }

  lemma {:induction false} LevelSplit(ts: seq<Token>, i: nat, m: nat, j: nat)
    requires i <= m <= j <= |ts|
    ensures Level(ts, i, j) == Level(ts, i, m) + Level(ts, m, j)
    decreases j - m
  {
    if m < j {
      LevelSplit(ts, i, m, j - 1);
    }
  }

  lemma {:induction false} ExcessSplit(ts: seq<Token>, i: nat, m: nat, j: nat)
    requires i <= m <= j <= |ts| && Level(ts, i, m) == 0
    ensures Excess(ts, i, j) == Excess(ts, i, m) + Excess(ts, m, j)
    decreases j - m
  {
    if m < j {
      ExcessSplit(ts, i, m, j - 1);
      LevelSplit(ts, i, m, j - 1);
    }
  }

  lemma SegJoin(ts: seq<Token>, i: nat, m: nat, j: nat, a: int, b: int)
    requires Seg(ts, i, m, a) && Seg(ts, m, j, b)
    ensures Seg(ts, i, j, a + b)
  {
    hide Excess;
    ExcessSplit(ts, i, m, j);
    LevelSplit(ts, i, m, j);
    forall k: nat | i <= k <= j ensures Level(ts, i, k) >= 0 {
      if m < k {
        LevelSplit(ts, i, m, k);
      }
    }
  }

  lemma SegToken(ts: seq<Token>, i: nat)
    requires i < |ts| && Nest(ts[i]) == 0
    ensures Seg(ts, i, i + 1, Weight(ts[i]))
  {
    assert Level(ts, i, i) == 0 && Level(ts, i, i + 1) == 0 && Excess(ts, i, i) == 0;
    forall k: nat | i <= k <= i + 1 ensures Level(ts, i, k) >= 0 {
      assert k == i || k == i + 1;
    }
  }

  lemma SegNone(ts: seq<Token>, i: nat)
    requires i <= |ts|
    ensures Seg(ts, i, i, 0)
  {
    assert Level(ts, i, i) == 0;
  }

  lemma {:induction false} InsideParens(ts: seq<Token>, i: nat, k: nat)
    requires i < k <= |ts| && ts[i] == LParen && NeverBelow(ts, i + 1, k)
    ensures Level(ts, i, k) == 1 + Level(ts, i + 1, k) && Excess(ts, i, k) == 0
    decreases k - i
  {
    if k == i + 1 {
      assert Level(ts, i, i) == 0 && Excess(ts, i, i) == 0;
    } else {
      InsideParens(ts, i, k - 1);
      assert Level(ts, i + 1, k - 1) >= 0;
    }
  }

  lemma SegWrap(ts: seq<Token>, i: nat, j: nat)
    requires i + 1 <= j < |ts| && ts[i] == LParen && Balanced(ts, i + 1, j) && ts[j] == RParen
    ensures Seg(ts, i, j + 1, 0)
  {
    InsideParens(ts, i, j);
    assert Level(ts, i, j + 1) == 0 && Excess(ts, i, j + 1) == 0;
    forall k: nat | i <= k <= j + 1 ensures Level(ts, i, k) >= 0 {
      if i < k <= j {
        InsideParens(ts, i, k);
      }
    }
  }

  /** The parenthesis at `i` is closed at `j`. */
  ghost predicate Closes(ts: seq<Token>, i: nat, j: nat) {
    i < j < |ts| && Balanced(ts, i + 1, j) && ts[j] == RParen
  }

  lemma CloseLevel(ts: seq<Token>, i: nat, j: nat)
    requires Closes(ts, i, j)
    ensures Level(ts, i + 1, j + 1) == -1
  {
  }

  lemma ClosedOnce(ts: seq<Token>, i: nat, j: nat, k: nat)
    requires Closes(ts, i, j) && Closes(ts, i, k)
    ensures j == k
  {
    CloseLevel(ts, i, j);
    CloseLevel(ts, i, k);
  }

  /** An opening parenthesis there belongs to a list or a call. */
  predicate ListOpens(ts: seq<Token>, i: nat) {
    0 < i <= |ts| && (ts[i - 1].In_? || ts[i - 1].Ident?)
  }

  /** A list has no connective of its own, and a group has one. */
  ghost predicate WellGrouped(ts: seq<Token>, i: nat)
    requires i < |ts|
  {
    ts[i] == LParen ==> exists j :: Closes(ts, i, j) && Excess(ts, i + 1, j) == if ListOpens(ts, i) then 0 else 1
  }

  /** A token in front of a segment. */
  lemma AfterToken(ts: seq<Token>, pos: nat, q: nat, n: int)
    requires pos < |ts| && Nest(ts[pos]) == 0 && Seg(ts, pos + 1, q, n)
    ensures Seg(ts, pos, q, Weight(ts[pos]) + n)
  {
    hide Seg;
    SegToken(ts, pos);
    SegJoin(ts, pos, pos + 1, q, Weight(ts[pos]), n);
  }
}
