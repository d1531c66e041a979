/** WITH RECURSIVE: the anchor rows, extended by running the recursive member over everything
    found so far until a round finds nothing new. */
module RecursiveCte {
  import opened Results
  import opened Sets
  import opened Text

  type Row = seq<string>

  /** The recursive member, as a query over the rows of the temporary table; it fails when the
      table cannot be made, filled or queried. */
  type Member = seq<Row> -> Result<seq<Row>>

  datatype Query =
    | Plain
    | SetOperation(op: string, anchor: Result<seq<Row>>, member: Member)

  const MAX_ITERATIONS: nat := 100

  /** `rowKeyStr`. */
  function Key(row: Row): string {
    Join(row, '\0')
  }

  function Keys(rows: seq<Row>): set<string> {
    set i | 0 <= i < |rows| :: Key(rows[i])
  }

  /** One round: the rows of `more` with a key not seen before, each added once. */
  function Absorb(all: seq<Row>, more: seq<Row>): (r: seq<Row>)
    ensures |all| <= |r| && r[..|all|] == all
    decreases |more|
  {
    if more == [] then all
    else if Key(more[0]) in Keys(all) then Absorb(all, more[1..])
    else Absorb(all + [more[0]], more[1..])
  }

  /** At most `budget` more rounds; the last of them must find nothing new. */
  function Iterate(member: Member, all: seq<Row>, budget: nat): Result<seq<Row>>
    decreases budget
  {
    if budget == 0 then Err("maximum recursion exceeded")
    else if member(all).Err? then member(all)
    else
      var next := Absorb(all, member(all).value);
      if |next| == |all| then Ok(all) else Iterate(member, next, budget - 1)
  }

  function Evaluate(q: Query): Result<seq<Row>> {
    if q.Plain? || q.op != "UNION ALL" then Err("a recursive query must be a UNION ALL")
    else if q.anchor.Err? then q.anchor
    else Iterate(q.member, q.anchor.value, MAX_ITERATIONS)
  }

  /** `executeRecursiveCTE`. */
  method Execute(q: Query) returns (r: Result<seq<Row>>)
    ensures r == Evaluate(q)
  {
    if q.Plain? || q.op != "UNION ALL" {
      return Err("a recursive query must be a UNION ALL");
    }
    if q.anchor.Err? {
      return q.anchor;
    }
    var all := q.anchor.value;
    var visited := Keys(all);
    var iter := 0;
    while iter < MAX_ITERATIONS
      invariant iter <= MAX_ITERATIONS && visited == Keys(all)
      invariant Evaluate(q) == Iterate(q.member, all, MAX_ITERATIONS - iter)
    {
      var found := q.member(all);
      if found.Err? {
        return found;
      }
      var next, newRows, i := all, 0, 0;
      while i < |found.value|
        invariant i <= |found.value| && visited == Keys(next)
        invariant |next| == |all| + newRows
        invariant Absorb(all, found.value) == Absorb(next, found.value[i..])
      {
        var row := found.value[i];
        assert found.value[i..][1..] == found.value[i + 1..];
        if Key(row) !in visited {
          KeysPush(next, row);
          visited := visited + {Key(row)};
          next := next + [row];
          newRows := newRows + 1;
        }
        i := i + 1;
      }
      if newRows == 0 {
        return Ok(all);
      }
      all := next;
      iter := iter + 1;
    }
    r := Err("maximum recursion exceeded");
  }

  lemma KeysPush(rows: seq<Row>, row: Row)
    ensures Keys(rows + [row]) == Keys(rows) + {Key(row)}
  {
    var more := rows + [row];
    assert more[|rows|] == row;
    forall k | k in Keys(rows) ensures k in Keys(more) {
      var i :| 0 <= i < |rows| && Key(rows[i]) == k;
      assert more[i] == rows[i];
    }
  }

  // ----- one round

  /** No two rows from position `from` on, and none of those with an earlier one, share a key. */
  ghost predicate DistinctFrom(rows: seq<Row>, from: nat) {
    forall i, j :: 0 <= i < j < |rows| && from <= j ==> Key(rows[i]) != Key(rows[j])
  }

  lemma {:induction false} AbsorbFacts(all: seq<Row>, more: seq<Row>, from: nat)
    requires from <= |all| && DistinctFrom(all, from)
    ensures DistinctFrom(Absorb(all, more), from)
    ensures forall i :: 0 <= i < |more| ==> Key(more[i]) in Keys(Absorb(all, more))
    ensures forall i :: |all| <= i < |Absorb(all, more)| ==> Absorb(all, more)[i] in more
    decreases |more|
  {
    if more != [] {
      var step := if Key(more[0]) in Keys(all) then all else all + [more[0]];
      KeysPush(all, more[0]);
      AbsorbFacts(step, more[1..], from);
      var r := Absorb(all, more);
      assert r == Absorb(step, more[1..]);
      assert Key(more[0]) in Keys(step);
      KeysGrow(step, r);
      assert more == [more[0]] + more[1..];
      assert forall i :: |step| <= i < |r| ==> r[i] in more[1..];
      assert |step| > |all| ==> r[|all|] == step[|all|];
    }
  }

  lemma KeysGrow(a: seq<Row>, b: seq<Row>)
    requires |a| <= |b| && b[..|a|] == a
    ensures Keys(a) <= Keys(b)
  {
    forall k | k in Keys(a) ensures k in Keys(b) {
      var i :| 0 <= i < |a| && Key(a[i]) == k;
      assert b[i] == b[..|a|][i];
    }
  }

  // ----- what a successful evaluation returns

  /** The anchor comes first and unchanged; every derived row is new when it is added; and running
      the member once more finds only rows whose key is already there. */
  lemma {:induction false} SuccessClosed(member: Member, all: seq<Row>, budget: nat, from: nat)
    requires from <= |all| && DistinctFrom(all, from)
    requires Iterate(member, all, budget).Ok?
    ensures var r := Iterate(member, all, budget).value;
            && |all| <= |r| && r[..|all|] == all && DistinctFrom(r, from)
            && member(r).Ok? && forall i :: 0 <= i < |member(r).value| ==> Key(member(r).value[i]) in Keys(r)
    decreases budget
  {
    var next := Absorb(all, member(all).value);
    AbsorbFacts(all, member(all).value, from);
    if |next| == |all| {
      assert next == all;
    } else {
      SuccessClosed(member, next, budget - 1, from);
      var r := Iterate(member, all, budget).value;
      assert r[..|all|] == r[..|next|][..|all|];
    }
  }

  /** The rows a query can tell apart: all of one column, or all without a NUL. */
  predicate Clear(row: Row, single: bool) {
    if single then |row| == 1 else row != [] && AllWithout(row, '\0')
  }

  ghost predicate AllClear(rows: seq<Row>, single: bool) {
    forall i :: 0 <= i < |rows| ==> Clear(rows[i], single)
  }

  lemma ClearRowsTold(a: Row, b: Row, single: bool)
    requires Clear(a, single) && Clear(b, single) && Key(a) == Key(b)
    ensures a == b
  {
    if single {
      assert a == [a[0]] && b == [b[0]];
    } else {
      JoinInjective(a, b, '\0');
    }
  }

  /** Rows of one width are told apart by their keys where one of them has no NUL. */
  lemma KeysTellRows(a: Row, b: Row)
    requires |a| == |b| && AllWithout(a, '\0')
    ensures Key(a) == Key(b) <==> a == b
  {
    if Key(a) == Key(b) { JoinFixesParts(a, b, '\0'); }
  }

  /** No other row of the width has the key of `a`, exactly when there is one column or no NUL. */
  lemma KeyFixesRowIff(a: Row)
    ensures (forall b: Row :: |b| == |a| && Key(b) == Key(a) ==> b == a) <==> |a| == 1 || AllWithout(a, '\0')
  {
    if |a| == 1 {
      forall b: Row | |b| == |a| && Key(b) == Key(a) ensures b == a {
        assert b == [b[0]] && a == [a[0]];
      }
    } else if AllWithout(a, '\0') {
      forall b: Row | |b| == |a| && Key(b) == Key(a) ensures b == a {
        KeysTellRows(a, b);
      }
    } else {
      var b := Confusable(a);
    }
  }

  lemma Confusable(a: Row) returns (b: Row)
    requires |a| > 1 && !AllWithout(a, '\0')
    ensures |b| == |a| && b != a && Key(b) == Key(a)
  {
    var i :| 0 <= i < |a| && !Without(a[i], '\0');
    if i + 1 < |a| {
      var u, w := MoveRight(a, i, '\0');
      b := a[i := u][i + 1 := w];
      assert b[i] == u;
    } else {
      var w, v := MoveLeft(a, i, '\0');
      b := a[i - 1 := w][i := v];
      assert b[i] == v;
    }
  }

  /** Without that, rows are lost: two different rows can have one key. */
  lemma NulMergesRows() returns (a: Row, b: Row)
    ensures a != b && |a| == |b| && Key(a) == Key(b) && Absorb([a], [b]) == [a]
  {
    a, b := ["x\0y", "z"], ["x", "y\0z"];
    JoinMerge([], "x", "y", ["z"], '\0');
    JoinMerge(["x"], "y", "z", [], '\0');
    assert "x" + "\0" + "y" == "x\0y" && "y" + "\0" + "z" == "y\0z";
    assert [] + ["x\0y"] + ["z"] == a && ["x"] + ["y\0z"] + [] == b;
    assert [] + ["x", "y"] + ["z"] == ["x"] + ["y", "z"] + [];
    assert |a[0]| != |b[0]|;
    assert [a][0] == a && Key(b) in Keys([a]);
    assert Absorb([a], [b][1..]) == [a];
  }

  /** The member leads from such rows to such rows. */
  ghost predicate KeepsClear(member: Member, single: bool) {
    forall rows :: AllClear(rows, single) && member(rows).Ok? ==> AllClear(member(rows).value, single)
  }

  lemma {:induction false} StaysClear(member: Member, all: seq<Row>, budget: nat, single: bool)
    requires AllClear(all, single) && KeepsClear(member, single) && Iterate(member, all, budget).Ok?
    ensures AllClear(Iterate(member, all, budget).value, single)
    decreases budget
  {
    var next := Absorb(all, member(all).value);
    if |next| != |all| {
      AbsorbFacts(all, member(all).value, |all|);
      forall i | 0 <= i < |next|
        ensures Clear(next[i], single)
      {
        if i < |all| { assert next[i] == next[..|all|][i]; }
      }
      StaysClear(member, next, budget - 1, single);
    }
  }

  /** The rows of a successful evaluation contain the anchor, are closed under the member, and
      hold every derived row once. */
  lemma ResultClosed(q: Query, single: bool)
    requires Evaluate(q).Ok? && AllClear(q.anchor.value, single) && KeepsClear(q.member, single)
    ensures var r := Evaluate(q).value;
            && |q.anchor.value| <= |r| && r[..|q.anchor.value|] == q.anchor.value
            && q.member(r).Ok? && Members(q.member(r).value) <= Members(r)
            && forall i, j :: 0 <= i < j < |r| && |q.anchor.value| <= j ==> r[i] != r[j]
  {
    var anchor := q.anchor.value;
    SuccessClosed(q.member, anchor, MAX_ITERATIONS, |anchor|);
    StaysClear(q.member, anchor, MAX_ITERATIONS, single);
    var r := Evaluate(q).value;
    var again := q.member(r).value;
    forall i | 0 <= i < |again|
      ensures again[i] in Members(r)
    {
      assert Key(again[i]) in Keys(r);
      var j :| 0 <= j < |r| && Key(r[j]) == Key(again[i]);
      ClearRowsTold(again[i], r[j], single);
    }
  }

  ghost predicate Monotone(member: Member) {
    forall a, b :: member(a).Ok? && member(b).Ok? && Members(a) <= Members(b) ==> Members(member(a).value) <= Members(member(b).value)
  }

  /** Rows that hold the anchor and that the member does not lead out of. */
  ghost predicate Encloses(closed: seq<Row>, anchor: seq<Row>, member: Member) {
    Members(anchor) <= Members(closed) && member(closed).Ok? && Members(member(closed).value) <= Members(closed)
  }

  lemma AbsorbWithin(all: seq<Row>, more: seq<Row>, bound: set<Row>)
    requires Members(all) <= bound && Members(more) <= bound
    ensures Members(Absorb(all, more)) <= bound
  {
    AbsorbFacts(all, more, |all|);
    var next := Absorb(all, more);
    forall i | 0 <= i < |next|
      ensures next[i] in bound
    {
      if i < |all| {
        assert next[i] == next[..|all|][i] == all[i] && all[i] in Members(all);
      } else {
        assert next[i] in Members(more);
      }
    }
  }

  lemma RoundWithin(member: Member, all: seq<Row>, closed: seq<Row>)
    requires Monotone(member) && Encloses(closed, all, member) && member(all).Ok?
    ensures Members(all) <= Members(closed) && Encloses(closed, Absorb(all, member(all).value), member)
  {
    hide Absorb, Members;
    AbsorbWithin(all, member(all).value, Members(closed));
  }

  lemma {:induction false} IterateLeast(member: Member, all: seq<Row>, budget: nat, closed: seq<Row>)
    requires Monotone(member) && Encloses(closed, all, member) && Iterate(member, all, budget).Ok?
    ensures Members(Iterate(member, all, budget).value) <= Members(closed)
    decreases budget
  {
    hide Absorb, Monotone, Encloses, Members;
    var next := Absorb(all, member(all).value);
    RoundWithin(member, all, closed);
    if |next| != |all| {
      IterateLeast(member, next, budget - 1, closed);
    }
  }

  /** For a monotone member they are the least rows that contain the anchor and are closed. */
  lemma ResultLeast(q: Query, closed: seq<Row>, single: bool)
    requires Evaluate(q).Ok? && AllClear(q.anchor.value, single) && KeepsClear(q.member, single)
    requires Monotone(q.member) && Encloses(closed, q.anchor.value, q.member)
    ensures Encloses(Evaluate(q).value, q.anchor.value, q.member)
    ensures Members(Evaluate(q).value) <= Members(closed)
  {
    ResultClosed(q, single);
    var r, anchor := Evaluate(q).value, q.anchor.value;
    forall i | 0 <= i < |anchor|
      ensures anchor[i] in Members(r)
    {
      assert anchor[i] == r[..|anchor|][i] == r[i];
    }
    IterateLeast(q.member, anchor, MAX_ITERATIONS, closed);
  }

  // ----- when it succeeds

  /** What has been found after `k` rounds. */
  function Stage(member: Member, anchor: seq<Row>, k: nat): Result<seq<Row>>
  {
    if k == 0 then Ok(anchor)
    else
      var before := Stage(member, anchor, k - 1);
      if before.Err? then before
      else if member(before.value).Err? then member(before.value)
      else Ok(Absorb(before.value, member(before.value).value))
  }

  ghost predicate StableAt(member: Member, anchor: seq<Row>, k: nat) {
    var s := Stage(member, anchor, k);
    s.Ok? && member(s.value).Ok? && Absorb(s.value, member(s.value).value) == s.value
  }

  /** The evaluation succeeds exactly when one of the first hundred rounds finds nothing new, and
      then returns what had been found by that round. */
  lemma SucceedsWithinLimit(q: Query)
    requires q.SetOperation? && q.op == "UNION ALL" && q.anchor.Ok?
    ensures Evaluate(q).Ok? <==> exists k :: 0 <= k < MAX_ITERATIONS && StableAt(q.member, q.anchor.value, k)
    ensures forall k :: 0 <= k < MAX_ITERATIONS && StableAt(q.member, q.anchor.value, k) ==>
              Evaluate(q) == Stage(q.member, q.anchor.value, k)
  {
    var anchor := q.anchor.value;
    forall k | 0 <= k < MAX_ITERATIONS && StableAt(q.member, anchor, k)
      ensures Evaluate(q) == Stage(q.member, anchor, k)
    {
      StableReached(q.member, anchor, 0, k, MAX_ITERATIONS);
    }
    if Evaluate(q).Ok? {
      var k := ReachesStable(q.member, anchor, 0, MAX_ITERATIONS);
    }
  }

  lemma {:induction false} StableReached(member: Member, anchor: seq<Row>, i: nat, k: nat, budget: nat)
    requires i <= k < i + budget && StableAt(member, anchor, k)
    ensures Stage(member, anchor, i).Ok?
    ensures Iterate(member, Stage(member, anchor, i).value, budget) == Stage(member, anchor, k)
    decreases k - i
  {
    if i < k {
      StableReached(member, anchor, i + 1, k, budget - 1);
      var s, t := Stage(member, anchor, i).value, Stage(member, anchor, i + 1).value;
      if |t| == |s| {
        assert t == s;
        Constant(member, anchor, i, k);
      }
    }
  }

  lemma {:induction false} Constant(member: Member, anchor: seq<Row>, i: nat, k: nat)
    requires i <= k && StableAt(member, anchor, i)
    ensures Stage(member, anchor, k) == Stage(member, anchor, i)
    decreases k - i
  {
    if i < k { Constant(member, anchor, i, k - 1); }
  }

  lemma {:induction false} ReachesStable(member: Member, anchor: seq<Row>, i: nat, budget: nat) returns (k: nat)
    requires Stage(member, anchor, i).Ok? && Iterate(member, Stage(member, anchor, i).value, budget).Ok?
    ensures i <= k < i + budget && StableAt(member, anchor, k)
    decreases budget
  {
    var s := Stage(member, anchor, i).value;
    var next := Absorb(s, member(s).value);
    assert Stage(member, anchor, i + 1) == Ok(next);
    if |next| == |s| {
      assert next == s;
      k := i;
    } else {
      k := ReachesStable(member, anchor, i + 1, budget - 1);
    }
  }
}
