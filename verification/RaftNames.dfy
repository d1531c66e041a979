/** Why election safety asks for non-empty node names: the empty string is also the value of
    `VotedFor` that means "no vote", so a vote for a node with an empty name can be given again. */
module RaftNames {
  import opened RaftNodes
  import opened RaftCluster
  import opened RaftSafety

  function Last(run: Run): Cluster
    requires run.states != []
  {
    run.states[|run.states| - 1]
  }

  ghost function Extend(run: Run, step: Step): Run
    requires run.states != [] && Enabled(Last(run), step)
  {
    Run(run.states + [Apply(Last(run), step)], run.steps + [step])
  }

  lemma ExtendProper(ids: set<string>, run: Run, step: Step)
    requires ProperRun(ids, run) && Enabled(Last(run), step)
    requires step.StartElection? ==> NotAtLimit(Last(run), step.candidate)
    ensures ProperRun(ids, Extend(run, step)) && Last(Extend(run, step)) == Apply(Last(run), step)
  {
    var r := Extend(run, step);
    forall i | 0 <= i < |r.steps|
      ensures StepAt(r, i)
    {
      if i < |run.steps| { assert StepAt(run, i); }
    }
  }

  /** The state of a poll of the peers `ps`, all of which grant their vote. */
  ghost predicate Polled(s: Cluster, s': Cluster, c: string, t: nat, ps: set<string>)
    requires (c, t) in s.elections && ps <= s.nodes.Keys
  {
    var e := s.elections[(c, t)];
    && s'.nodes == (map id | id in s.nodes :: if id in ps then OnRequestVote(s.nodes[id], t, c).0 else s.nodes[id])
    && s'.elections == s.elections[(c, t) := Election(e.pending - ps, e.votes + |ps|)]
  }

  lemma {:induction false} Poll(ids: set<string>, run: Run, c: string, t: nat, ps: set<string>) returns (run': Run)
    requires ProperRun(ids, run) && (c, t) in Last(run).elections
    requires ps <= Last(run).elections[(c, t)].pending && ps <= Last(run).nodes.Keys
    requires forall p :: p in ps ==> OnRequestVote(Last(run).nodes[p], t, c).1
    ensures ProperRun(ids, run') && Polled(Last(run), Last(run'), c, t, ps)
    decreases ps
  {
    if ps == {} {
      run' := run;
      assert Last(run).elections[(c, t)].pending - ps == Last(run).elections[(c, t)].pending;
    } else {
      var p :| p in ps;
      var mid := Poll(ids, run, c, t, ps - {p});
      var step := DeliverVote(c, t, p, false);
      ExtendProper(ids, mid, step);
      run' := Extend(mid, step);
      PollOne(Last(run), Last(mid), c, t, ps, p);
    }
  }

  lemma PollOne(s: Cluster, m: Cluster, c: string, t: nat, ps: set<string>, p: string)
    requires (c, t) in s.elections && p in ps && ps <= s.elections[(c, t)].pending && ps <= s.nodes.Keys
    requires Polled(s, m, c, t, ps - {p}) && OnRequestVote(s.nodes[p], t, c).1
    ensures p in m.nodes && (c, t) in m.elections && Polled(s, AskForVote(m, c, t, p, false), c, t, ps)
  {
    var e := s.elections[(c, t)];
    assert (e.pending - (ps - {p})) - {p} == e.pending - ps;
    assert |ps - {p}| + 1 == |ps|;
  }

  /** In every cluster of at least three nodes one of which has an empty name, some run elects
      two leaders of term 1. */
  lemma EmptyNameElectsTwo(ids: set<string>) returns (run: Run, b: string)
    requires "" in ids && |ids| >= 3
    ensures ProperRun(ids, run) && b != ""
    ensures IsLeader(Last(run), "", 1) && IsLeader(Last(run), b, 1)
  {
    assert ids != {""} by { assert |{""}| == 1; }
    b :| b in ids && b != "";
    run := TwoCandidates(ids, b);
    run := FirstPolls(ids, run, b);
    run := FirstWins(ids, run, b);
    run := SecondWins(ids, run, b);
  }

  ghost predicate Candidates(ids: set<string>, s: Cluster, b: string)
  {
    && s.nodes == (map id | id in ids :: if id == "" || id == b then Node(Candidate, 1, id) else FRESH)
    && s.elections == map[("", 1) := Election(ids - {""}, 1), (b, 1) := Election(ids - {b}, 1)]
  }

  lemma TwoCandidates(ids: set<string>, b: string) returns (run: Run)
    requires "" in ids && b in ids && b != ""
    ensures ProperRun(ids, run) && Candidates(ids, Last(run), b)
  {
    run := Run([Init(ids)], []);
    var s0 := Init(ids);
    ExtendProper(ids, run, StartElection(""));
    run := Extend(run, StartElection(""));
    var s1 := Last(run);
    assert s1.nodes.Keys == ids && s0.nodes.Keys == ids;
    ExtendProper(ids, run, StartElection(b));
    run := Extend(run, StartElection(b));
    assert Last(run) == Start(Start(s0, ""), b);
  }

  ghost predicate FirstLeads(ids: set<string>, s: Cluster, b: string)
  {
    && s.nodes.Keys == ids && "" in ids && b in ids
    && s.nodes[""] == Node(Leader, 1, "") && s.nodes[b] == Node(Candidate, 1, b)
    && (forall id :: id in ids && id != "" && id != b ==> s.nodes[id] == Node(Follower, 1, ""))
    && s.elections == map[(b, 1) := Election(ids - {b}, 1)]
  }

  ghost predicate FirstCounts(ids: set<string>, s: Cluster, b: string)
  {
    && s.nodes.Keys == ids && "" in ids && b in ids
    && s.nodes[""] == Node(Candidate, 1, "") && s.nodes[b] == Node(Candidate, 1, b)
    && (forall id :: id in ids && id != "" && id != b ==> s.nodes[id] == Node(Follower, 1, ""))
    && s.elections == map[("", 1) := Election({}, |ids| - 1), (b, 1) := Election(ids - {b}, 1)]
  }

  lemma FirstPolls(ids: set<string>, run: Run, b: string) returns (run': Run)
    requires "" in ids && b in ids && b != "" && |ids| >= 3
    requires ProperRun(ids, run) && Candidates(ids, Last(run), b)
    ensures ProperRun(ids, run') && FirstCounts(ids, Last(run'), b)
  {
    var rest := ids - {"", b};
    var polled := Poll(ids, run, "", 1, rest);
    FirstCounted(ids, Last(run), Last(polled), b);
    ExtendProper(ids, polled, DropVoteRequest("", 1, b));
    run' := Extend(polled, DropVoteRequest("", 1, b));
  }

  lemma FirstCounted(ids: set<string>, s: Cluster, m: Cluster, b: string)
    requires "" in ids && b in ids && b != "" && |ids| >= 3 && Candidates(ids, s, b) && Polled(s, m, "", 1, ids - {"", b})
    ensures Enabled(m, DropVoteRequest("", 1, b)) && FirstCounts(ids, Apply(m, DropVoteRequest("", 1, b)), b)
  {
    FirstNodes(ids, s, m, b);
    FirstElections(ids, s, m, b);
  }

  lemma FirstNodes(ids: set<string>, s: Cluster, m: Cluster, b: string)
    requires "" in ids && b in ids && b != "" && Candidates(ids, s, b) && Polled(s, m, "", 1, ids - {"", b})
    ensures m.nodes.Keys == ids && m.nodes[""] == Node(Candidate, 1, "") && m.nodes[b] == Node(Candidate, 1, b)
    ensures forall id :: id in ids && id != "" && id != b ==> m.nodes[id] == Node(Follower, 1, "")
  {
  }

  lemma FirstElections(ids: set<string>, s: Cluster, m: Cluster, b: string)
    requires "" in ids && b in ids && b != "" && Candidates(ids, s, b) && Polled(s, m, "", 1, ids - {"", b})
    ensures ("", 1) in m.elections && m.elections[("", 1)] == Election({b}, |ids| - 1)
    ensures m.elections[("", 1) := Election({}, |ids| - 1)] == map[("", 1) := Election({}, |ids| - 1), (b, 1) := Election(ids - {b}, 1)]
    ensures {b} - {b} == {}
  {
    TwoOut(ids, "", b);
    var done := Election({}, |ids| - 1);
    assert s.elections[("", 1)] == Election(ids - {""}, 1);
    assert m.elections == s.elections[("", 1) := Election({b}, |ids| - 1)];
    assert m.elections[("", 1) := done] == s.elections[("", 1) := done];
  }

  lemma TwoOut<T>(s: set<T>, a: T, b: T)
    requires a in s && b in s && a != b
    ensures |s - {a, b}| == |s| - 2 && (s - {a}) - (s - {a, b}) == {b} && {b} - {b} == {}
  {
    assert s == (s - {a, b}) + {a, b};
  }

  lemma FirstWins(ids: set<string>, run: Run, b: string) returns (run': Run)
    requires b != "" && |ids| >= 3 && ProperRun(ids, run) && FirstCounts(ids, Last(run), b)
    ensures ProperRun(ids, run') && FirstLeads(ids, Last(run'), b)
  {
    var s := Last(run);
    assert |Others(s, "")| == |ids| - 1;
    ExtendProper(ids, run, FinishElection("", 1));
    run' := Extend(run, FinishElection("", 1));
    assert Last(run') == Count(s, "", 1);
  }

  lemma SecondWins(ids: set<string>, run: Run, b: string) returns (run': Run)
    requires b != "" && |ids| >= 3
    requires ProperRun(ids, run) && FirstLeads(ids, Last(run), b)
    ensures ProperRun(ids, run') && IsLeader(Last(run'), "", 1) && IsLeader(Last(run'), b, 1)
  {
    var rest := ids - {b};
    assert |rest| == |ids| - 1;
    var polled := Poll(ids, run, b, 1, rest);
    var s := Last(polled);
    assert s.elections[(b, 1)] == Election({}, |ids|) by { assert rest - rest == {}; }
    assert s.nodes.Keys == ids && Others(s, b) == rest;
    ExtendProper(ids, polled, FinishElection(b, 1));
    run' := Extend(polled, FinishElection(b, 1));
    assert Last(run') == Count(s, b, 1);
  }

  ghost predicate ElectionSafe(run: Run)
  {
    forall i, j, c, d, t | 0 <= i < |run.states| && 0 <= j < |run.states| ::
      IsLeader(run.states[i], c, t) && IsLeader(run.states[j], d, t) ==> c == d
  }

  /** Election safety holds in every run exactly when no node has an empty name or there are at most
      two nodes. */
  lemma NamesDecideSafety(ids: set<string>)
    ensures (forall run :: ProperRun(ids, run) ==> ElectionSafe(run)) <==> "" !in ids || |ids| <= 2
  {
    if !SafeNames(ids) {
      var run, b := EmptyNameElectsTwo(ids);
      var last := |run.states| - 1;
      assert IsLeader(run.states[last], "", 1) && IsLeader(run.states[last], b, 1);
    } else {
      forall run | ProperRun(ids, run)
        ensures ElectionSafe(run)
      {
        forall i, j, c, d, t | 0 <= i < |run.states| && 0 <= j < |run.states| &&
            IsLeader(run.states[i], c, t) && IsLeader(run.states[j], d, t)
          ensures c == d
        {
          ElectionSafety(ids, run, i, j, c, d, t);
        }
      }
    }
  }
}
