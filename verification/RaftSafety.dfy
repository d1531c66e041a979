/** Election safety and quorum safety over every run of the cluster. */
module RaftSafety {
  import opened RaftNodes
  import opened RaftCluster
  import opened Sets

  predicate Majority(vs: set<string>, ids: set<string>) {
    vs <= ids && |vs| > |ids| / 2
  }

  lemma MajoritiesMeet(a: set<string>, b: set<string>, ids: set<string>)
    requires Majority(a, ids) && Majority(b, ids)
    ensures exists v :: v in a && v in b
  {
    SubsetSize(a + b, ids);
    assert |a + b| == |a| + |b| - |a * b|;
    assert a * b != {};
    var v :| v in a * b;
  }

  // ----- the invariant, one predicate per kind of record

  /** A granted vote is never for a later term than the voter's, and at the voter's own term it
      is the vote on record, unless the candidate's name is empty.  The converse fails: `AppendEntries` raises the term and keeps the
      vote, so the vote on record may be an old one that no ballot of this term matches. */
  ghost predicate Honoured(s: Cluster, b: Ballot)
  {
    && b.voter in s.nodes && b.candidate in s.nodes
    && b.term <= s.nodes[b.voter].term
    && (b.term == s.nodes[b.voter].term && b.candidate != "" ==> s.nodes[b.voter].votedFor == b.candidate)
  }

  ghost predicate BallotsHonoured(s: Cluster)
  {
    forall b :: b in s.ballots ==> Honoured(s, b)
  }

  /** A voter votes for one candidate of a term; a vote for an empty name can be followed by another,
      but not by or after a vote of a voter for itself. */
  ghost predicate Consistent(a: Ballot, b: Ballot)
  {
    a.voter == b.voter && a.term == b.term && a.candidate != b.candidate ==>
      (a.candidate == "" || b.candidate == "") && (a.voter == "" || (a.candidate != a.voter && b.candidate != b.voter))
  }

  ghost predicate OneVotePerTerm(s: Cluster)
  {
    forall a, b :: a in s.ballots && b in s.ballots ==> Consistent(a, b)
  }

  ghost predicate Counted(s: Cluster, c: string, t: nat, e: Election)
  {
    && c in s.nodes && t <= s.nodes[c].term
    && (c, t) !in s.elected
    && e.pending <= Others(s, c)
    && e.votes <= |Voters(s, c, t) - e.pending|
  }

  ghost predicate ElectionsCounted(s: Cluster)
  {
    forall k :: k in s.elections ==> Counted(s, k.0, k.1, s.elections[k])
  }

  ghost predicate Won(s: Cluster, c: string, t: nat, quorum: set<string>)
  {
    && c in s.nodes && t <= s.nodes[c].term
    && Majority(quorum, s.nodes.Keys)
    && forall v :: v in quorum ==> Ballot(v, t, c) in s.ballots
  }

  ghost predicate ElectedWon(s: Cluster)
  {
    forall k :: k in s.elected ==> Won(s, k.0, k.1, s.elected[k])
  }

  ghost predicate LeadersElected(s: Cluster)
  {
    forall c :: c in s.nodes && s.nodes[c].role.Leader? ==> (c, s.nodes[c].term) in s.elected
  }

  /** No voter of a later election that was won before the round began has acknowledged it. */
  ghost predicate Apart(s: Cluster, r: Round)
  {
    && r.leader in s.nodes
    && r.past <= s.elected.Keys
    && r.pending <= Others(s, r.leader) && r.ackers <= Others(s, r.leader) - r.pending
    && r.acks <= 1 + |r.ackers|
    && (forall k :: k in r.past && k.1 > r.term ==> s.elected[k] !! r.ackers + {r.leader})
    && (r.outcome.Succeeded? && r.synchronous ==> r.acks >= Quorum(|Others(s, r.leader)|))
  }

  ghost predicate RoundsApart(s: Cluster)
  {
    forall i :: 0 <= i < |s.rounds| ==> Apart(s, s.rounds[i])
  }

  ghost predicate Inv(ids: set<string>, s: Cluster)
  {
    && s.nodes.Keys == ids
    && BallotsHonoured(s) && OneVotePerTerm(s)
    && ElectionsCounted(s) && ElectedWon(s) && LeadersElected(s)
    && RoundsApart(s)
  }

  // ----- what every step has in common

  /** Terms never fall, a vote stands while the term stands, and history only grows. */
  ghost predicate Evolves(s: Cluster, s': Cluster)
  {
    && s'.nodes.Keys == s.nodes.Keys
    && (forall id :: id in s.nodes ==>
         && s.nodes[id].term <= s'.nodes[id].term
         && (s.nodes[id].term == s'.nodes[id].term && s.nodes[id].votedFor != "" ==> s'.nodes[id].votedFor == s.nodes[id].votedFor))
    && s.ballots <= s'.ballots
    && (forall k :: k in s.elected ==> k in s'.elected && s'.elected[k] == s.elected[k])
  }

  lemma KeepsHonoured(s: Cluster, s': Cluster, b: Ballot)
    requires Evolves(s, s') && Honoured(s, b)
    ensures Honoured(s', b)
  {
  }

  lemma KeepsCounted(s: Cluster, s': Cluster, c: string, t: nat, e: Election)
    requires Evolves(s, s') && Counted(s, c, t, e) && (c, t) !in s'.elected
    ensures Counted(s', c, t, e)
  {
    assert Others(s', c) == Others(s, c);
    SubsetSize(Voters(s, c, t) - e.pending, Voters(s', c, t) - e.pending);
  }

  lemma OpenNotWon(s: Cluster)
    requires ElectionsCounted(s)
    ensures s.elections.Keys !! s.elected.Keys
  {
    forall k | k in s.elections ensures k !in s.elected {
      assert Counted(s, k.0, k.1, s.elections[k]);
    }
  }

  lemma KeepsElections(s: Cluster, s': Cluster)
    requires Evolves(s, s') && ElectionsCounted(s)
    requires s'.elections.Keys !! s'.elected.Keys
    requires forall k :: k in s'.elections ==> (k in s.elections && s'.elections[k] == s.elections[k]) || Counted(s', k.0, k.1, s'.elections[k])
    ensures ElectionsCounted(s')
  {
    forall k | k in s'.elections
      ensures Counted(s', k.0, k.1, s'.elections[k])
    {
      if k in s.elections && s'.elections[k] == s.elections[k] { KeepsCounted(s, s', k.0, k.1, s.elections[k]); }
    }
  }

  lemma KeepsElected(s: Cluster, s': Cluster)
    requires Evolves(s, s') && ElectedWon(s)
    requires forall k :: k in s'.elected && k !in s.elected ==> Won(s', k.0, k.1, s'.elected[k])
    ensures ElectedWon(s')
  {
    forall k | k in s'.elected
      ensures Won(s', k.0, k.1, s'.elected[k])
    {
      if k in s.elected { assert Won(s, k.0, k.1, s.elected[k]); }
    }
  }

  lemma KeepsApart(s: Cluster, s': Cluster, r: Round)
    requires Evolves(s, s') && Apart(s, r)
    ensures Apart(s', r)
  {
    assert Others(s', r.leader) == Others(s, r.leader);
  }

  lemma KeepsRounds(s: Cluster, s': Cluster)
    requires Evolves(s, s') && RoundsApart(s)
    requires |s.rounds| <= |s'.rounds|
    requires forall i :: 0 <= i < |s'.rounds| ==> (i < |s.rounds| && s'.rounds[i] == s.rounds[i]) || Apart(s', s'.rounds[i])
    ensures RoundsApart(s')
  {
    forall i | 0 <= i < |s'.rounds|
      ensures Apart(s', s'.rounds[i])
    {
      if i < |s.rounds| && s'.rounds[i] == s.rounds[i] { KeepsApart(s, s', s.rounds[i]); }
    }
  }

  /** A new ballot is compatible with the old ones when the voter has no vote on record in its term,
      or one for the same candidate, and a vote for oneself opens a new term. */
  lemma AddBallot(s: Cluster, s': Cluster, b: Ballot)
    requires Evolves(s, s') && s'.ballots == s.ballots + {b}
    requires BallotsHonoured(s) && OneVotePerTerm(s) && Honoured(s', b)
    requires b.term >= s.nodes[b.voter].term
    requires b.term == s.nodes[b.voter].term ==> s.nodes[b.voter].votedFor in {"", b.candidate} && b.candidate != b.voter
    ensures BallotsHonoured(s') && OneVotePerTerm(s')
  {
    forall a | a in s'.ballots
      ensures Honoured(s', a)
    {
      if a != b { KeepsHonoured(s, s', a); }
    }
    forall a | a in s.ballots
      ensures Consistent(a, b) && Consistent(b, a)
    {
      assert Honoured(s, a);
    }
  }

  lemma SameBallots(s: Cluster, s': Cluster)
    requires Evolves(s, s') && s'.ballots == s.ballots
    requires BallotsHonoured(s) && OneVotePerTerm(s)
    ensures BallotsHonoured(s') && OneVotePerTerm(s')
  {
    forall a | a in s'.ballots
      ensures Honoured(s', a)
    {
      KeepsHonoured(s, s', a);
    }
  }

  // ----- preservation, step by step

  lemma StartKeeps(ids: set<string>, s: Cluster, c: string)
    requires Inv(ids, s) && c in s.nodes && s.nodes[c].term + 1 < TERM_LIMIT
    ensures Inv(ids, Start(s, c)) && Evolves(s, Start(s, c))
  {
    hide OneVotePerTerm, ElectionsCounted, ElectedWon, LeadersElected, RoundsApart, Counted, Apart, Won, Evolves;
    var s' := Start(s, c);
    var t := s.nodes[c].term + 1;
    StartEvolves(s, c);
    AddBallot(s, s', Ballot(c, t, c));
    NotYetElected(s, c, t);
    OpenNotWon(s);
    StartCounted(s, c);
    KeepsElections(s, s');
    KeepsElected(s, s');
    KeepsRounds(s, s');
  }

  lemma StartEvolves(s: Cluster, c: string)
    requires c in s.nodes && s.nodes[c].term + 1 < TERM_LIMIT && LeadersElected(s)
    ensures Evolves(s, Start(s, c)) && LeadersElected(Start(s, c)) && Start(s, c).nodes[c].term == s.nodes[c].term + 1
  {
  }

  lemma NotYetElected(s: Cluster, c: string, t: nat)
    requires ElectedWon(s) && c in s.nodes && t > s.nodes[c].term
    ensures (c, t) !in s.elected
  {
    assert (c, t) in s.elected ==> Won(s, c, t, s.elected[(c, t)]);
  }

  lemma StartCounted(s: Cluster, c: string)
    requires c in s.nodes && s.nodes[c].term + 1 < TERM_LIMIT && (c, s.nodes[c].term + 1) !in s.elected
    ensures Counted(Start(s, c), c, s.nodes[c].term + 1, Election(Others(s, c), 1))
  {
    var s', t := Start(s, c), s.nodes[c].term + 1;
    assert Others(s', c) == Others(s, c);
    SubsetSize({c}, Voters(s', c, t) - Others(s, c));
  }

  lemma AskKeeps(ids: set<string>, s: Cluster, c: string, t: nat, p: string, lost: bool)
    requires Inv(ids, s) && (c, t) in s.elections && p in s.nodes && p in s.elections[(c, t)].pending
    ensures Inv(ids, AskForVote(s, c, t, p, lost)) && Evolves(s, AskForVote(s, c, t, p, lost))
  {
    var s' := AskForVote(s, c, t, p, lost);
    assert Counted(s, c, t, s.elections[(c, t)]);
    AskEvolves(s, c, t, p, lost);
    AskBallots(s, c, t, p, lost);
    AskElections(s, c, t, p, lost);
    KeepsElected(s, s');
    KeepsRounds(s, s');
  }

  lemma AskElections(s: Cluster, c: string, t: nat, p: string, lost: bool)
    requires (c, t) in s.elections && p in s.nodes && p in s.elections[(c, t)].pending
    requires ElectionsCounted(s) && Evolves(s, AskForVote(s, c, t, p, lost))
    ensures ElectionsCounted(AskForVote(s, c, t, p, lost))
  {
    assert Counted(s, c, t, s.elections[(c, t)]);
    AskCounted(s, c, t, p, lost);
    OpenNotWon(s);
    KeepsElections(s, AskForVote(s, c, t, p, lost));
  }

  lemma AskEvolves(s: Cluster, c: string, t: nat, p: string, lost: bool)
    requires (c, t) in s.elections && p in s.nodes
    ensures Evolves(s, AskForVote(s, c, t, p, lost))
  {
    var s' := AskForVote(s, c, t, p, lost);
    forall id | id in s.nodes && id != p
      ensures s'.nodes[id] == s.nodes[id]
    {
    }
  }

  lemma AskBallots(s: Cluster, c: string, t: nat, p: string, lost: bool)
    requires (c, t) in s.elections && p in s.nodes && c in s.nodes && p != c
    requires BallotsHonoured(s) && OneVotePerTerm(s) && Evolves(s, AskForVote(s, c, t, p, lost))
    ensures BallotsHonoured(AskForVote(s, c, t, p, lost)) && OneVotePerTerm(AskForVote(s, c, t, p, lost))
  {
    var s' := AskForVote(s, c, t, p, lost);
    if OnRequestVote(s.nodes[p], t, c).1 {
      AddBallot(s, s', Ballot(p, t, c));
    } else {
      SameBallots(s, s');
    }
  }

  lemma AskCounted(s: Cluster, c: string, t: nat, p: string, lost: bool)
    requires (c, t) in s.elections && p in s.nodes && p in s.elections[(c, t)].pending
    requires Counted(s, c, t, s.elections[(c, t)])
    requires Evolves(s, AskForVote(s, c, t, p, lost))
    ensures Counted(AskForVote(s, c, t, p, lost), c, t, AskForVote(s, c, t, p, lost).elections[(c, t)])
  {
    var s' := AskForVote(s, c, t, p, lost);
    var e, e' := s.elections[(c, t)], s'.elections[(c, t)];
    assert Others(s', c) == Others(s, c);
    var before, after := Voters(s, c, t) - e.pending, Voters(s', c, t) - e'.pending;
    SubsetSize(before, after);
    if OnRequestVote(s.nodes[p], t, c).1 {
      SubsetSize(before + {p}, after);
    }
  }

  lemma DropKeeps(ids: set<string>, s: Cluster, c: string, t: nat, p: string)
    requires Inv(ids, s) && Enabled(s, DropVoteRequest(c, t, p))
    ensures Inv(ids, Apply(s, DropVoteRequest(c, t, p))) && Evolves(s, Apply(s, DropVoteRequest(c, t, p)))
  {
    hide BallotsHonoured, OneVotePerTerm, ElectionsCounted, ElectedWon, RoundsApart, Apart, Counted, Evolves;
    var s' := Apply(s, DropVoteRequest(c, t, p));
    DropElections(s, c, t, p);
    SameBallots(s, s');
    KeepsElected(s, s');
    KeepsRounds(s, s');
  }

  lemma DropElections(s: Cluster, c: string, t: nat, p: string)
    requires ElectionsCounted(s) && Enabled(s, DropVoteRequest(c, t, p))
    ensures Evolves(s, Apply(s, DropVoteRequest(c, t, p))) && ElectionsCounted(Apply(s, DropVoteRequest(c, t, p)))
  {
    hide Counted, ElectionsCounted, Evolves;
    var s' := Apply(s, DropVoteRequest(c, t, p));
    CountedElection(s, c, t);
    DropCounted(s, c, t, p);
    OpenNotWon(s);
    KeepsElections(s, s');
  }

  lemma DropCounted(s: Cluster, c: string, t: nat, p: string)
    requires Enabled(s, DropVoteRequest(c, t, p)) && Counted(s, c, t, s.elections[(c, t)])
    ensures var s' := Apply(s, DropVoteRequest(c, t, p)); Evolves(s, s') && Counted(s', c, t, s'.elections[(c, t)])
  {
    var s', e := Apply(s, DropVoteRequest(c, t, p)), s.elections[(c, t)];
    SubsetSize(Voters(s, c, t) - e.pending, Voters(s', c, t) - s'.elections[(c, t)].pending);
  }

  lemma CountedElection(s: Cluster, c: string, t: nat)
    requires ElectionsCounted(s) && (c, t) in s.elections
    ensures Counted(s, c, t, s.elections[(c, t)])
  {
    hide Counted;
  }

  lemma CountKeeps(ids: set<string>, s: Cluster, c: string, t: nat)
    requires Inv(ids, s) && Enabled(s, FinishElection(c, t))
    ensures Inv(ids, Count(s, c, t)) && Evolves(s, Count(s, c, t))
  {
    hide BallotsHonoured, OneVotePerTerm, ElectionsCounted, ElectedWon, LeadersElected, RoundsApart, Counted, Apart, Won, Evolves;
    var s' := Count(s, c, t);
    CountedElection(s, c, t);
    CountWins(s, c, t);
    CountElections(s, c, t);
    SameBallots(s, s');
    CountElected(s, c, t);
    CountLeaders(s, c, t);
    KeepsRounds(s, s');
  }

  lemma CountElected(s: Cluster, c: string, t: nat)
    requires ElectedWon(s) && Enabled(s, FinishElection(c, t)) && Counted(s, c, t, s.elections[(c, t)])
    ensures ElectedWon(Count(s, c, t))
  {
    CountWins(s, c, t);
    KeepsElected(s, Count(s, c, t));
  }

  lemma CountLeaders(s: Cluster, c: string, t: nat)
    requires LeadersElected(s) && Enabled(s, FinishElection(c, t))
    ensures LeadersElected(Count(s, c, t))
  {
    assert forall d :: d in s.nodes && d != c ==> Count(s, c, t).nodes[d] == s.nodes[d];
  }

  lemma CountElections(s: Cluster, c: string, t: nat)
    requires ElectionsCounted(s) && Enabled(s, FinishElection(c, t)) && Evolves(s, Count(s, c, t))
    ensures ElectionsCounted(Count(s, c, t))
  {
    OpenNotWon(s);
    KeepsElections(s, Count(s, c, t));
  }

  lemma CountWins(s: Cluster, c: string, t: nat)
    requires (c, t) in s.elections && s.elections[(c, t)].pending == {} && Counted(s, c, t, s.elections[(c, t)])
    ensures Evolves(s, Count(s, c, t))
    ensures forall k :: k in Count(s, c, t).elected && k !in s.elected ==>
              k == (c, t) && Won(Count(s, c, t), c, t, Count(s, c, t).elected[k])
  {
    assert Voters(s, c, t) - {} == Voters(s, c, t) && s.nodes.Keys == Others(s, c) + {c};
  }

  /** Steps that touch nothing but the rounds. */
  lemma OnlyRounds(ids: set<string>, s: Cluster, s': Cluster)
    requires Inv(ids, s) && s' == s.(rounds := s'.rounds) && RoundsApart(s')
    ensures Inv(ids, s') && Evolves(s, s')
  {
    assert Evolves(s, s');
    SameBallots(s, s');
    SameElections(s, s');
  }

  lemma SameElections(s: Cluster, s': Cluster)
    requires Evolves(s, s') && ElectionsCounted(s) && ElectedWon(s)
    requires s'.elections == s.elections && s'.elected == s.elected
    ensures ElectionsCounted(s') && ElectedWon(s')
  {
    OpenNotWon(s);
    KeepsElections(s, s');
    KeepsElected(s, s');
  }

  lemma BeginKeeps(ids: set<string>, s: Cluster, l: string, synchronous: bool)
    requires Inv(ids, s) && Enabled(s, BeginRound(l, synchronous))
    ensures Inv(ids, OpenRound(s, l, synchronous)) && Evolves(s, OpenRound(s, l, synchronous))
  {
    BeginApart(s, l, synchronous);
    OnlyRounds(ids, s, OpenRound(s, l, synchronous));
  }

  lemma BeginApart(s: Cluster, l: string, synchronous: bool)
    requires BallotsHonoured(s) && ElectedWon(s) && RoundsApart(s) && l in s.nodes
    ensures RoundsApart(OpenRound(s, l, synchronous))
  {
    var s' := OpenRound(s, l, synchronous);
    var r := s'.rounds[|s.rounds|];
    forall k | k in r.past && k.1 > r.term
      ensures l !in s.elected[k]
    {
      LateVoter(s, k, l);
    }
    assert Apart(s', r);
    KeepsRounds(s, s');
  }

  /** A node whose term is below that of an election is not among the voters it was won with. */
  lemma LateVoter(s: Cluster, k: (string, nat), id: string)
    requires BallotsHonoured(s) && ElectedWon(s) && k in s.elected && id in s.nodes && s.nodes[id].term < k.1
    ensures id !in s.elected[k]
  {
    assert Won(s, k.0, k.1, s.elected[k]);
    assert Ballot(id, k.1, k.0) in s.ballots ==> Honoured(s, Ballot(id, k.1, k.0));
  }

  lemma SendEvolves(s: Cluster, i: nat, p: string, lost: bool)
    requires Enabled(s, DeliverAppend(i, p, lost)) && LeadersElected(s)
    ensures Evolves(s, SendAppend(s, i, p, lost)) && LeadersElected(SendAppend(s, i, p, lost))
  {
  }

  lemma SendKeeps(ids: set<string>, s: Cluster, i: nat, p: string, lost: bool)
    requires Inv(ids, s) && Enabled(s, DeliverAppend(i, p, lost))
    ensures Inv(ids, SendAppend(s, i, p, lost)) && Evolves(s, SendAppend(s, i, p, lost))
  {
    hide BallotsHonoured, OneVotePerTerm, ElectionsCounted, ElectedWon, RoundsApart, Evolves, LeadersElected;
    var s' := SendAppend(s, i, p, lost);
    SendEvolves(s, i, p, lost);
    SameBallots(s, s');
    SameElections(s, s');
    SendApart(s, i, p, lost);
  }

  lemma SendApart(s: Cluster, i: nat, p: string, lost: bool)
    requires BallotsHonoured(s) && ElectedWon(s) && RoundsApart(s) && Enabled(s, DeliverAppend(i, p, lost))
    requires Evolves(s, SendAppend(s, i, p, lost))
    ensures RoundsApart(SendAppend(s, i, p, lost))
  {
    var s' := SendAppend(s, i, p, lost);
    var r, r' := s.rounds[i], s'.rounds[i];
    assert Apart(s, r) && Others(s', r.leader) == Others(s, r.leader);
    forall k | k in r.past && k.1 > r.term
      ensures s'.elected[k] !! r'.ackers + {r.leader}
    {
      if OnAppendEntries(s.nodes[p], r.term).1 { LateVoter(s, k, p); }
    }
    assert Apart(s', r');
    KeepsRounds(s, s');
  }

  lemma RoundOnlyKeeps(ids: set<string>, s: Cluster, step: Step)
    requires Inv(ids, s) && Enabled(s, step) && (step.DropAppend? || step.CompleteRound? || step.AbandonRound?)
    ensures Inv(ids, Apply(s, step)) && Evolves(s, Apply(s, step))
  {
    RoundOnlyApart(s, step);
    OnlyRounds(ids, s, Apply(s, step));
  }

  lemma RoundOnlyApart(s: Cluster, step: Step)
    requires RoundsApart(s) && Enabled(s, step) && (step.DropAppend? || step.CompleteRound? || step.AbandonRound?)
    ensures RoundsApart(Apply(s, step))
  {
    var s', r := Apply(s, step), s.rounds[step.round];
    assert Apart(s, r) && Others(s', r.leader) == Others(s, r.leader);
    KeepsRounds(s, s');
  }

  lemma StepKeeps(ids: set<string>, s: Cluster, step: Step)
    requires Inv(ids, s) && Enabled(s, step) && (step.StartElection? ==> NotAtLimit(s, step.candidate))
    ensures Inv(ids, Apply(s, step)) && Evolves(s, Apply(s, step))
  {
    match step
    case StartElection(c) => StartKeeps(ids, s, c);
    case DeliverVote(c, t, p, lost) => AskKeeps(ids, s, c, t, p, lost);
    case DropVoteRequest(c, t, p) => DropKeeps(ids, s, c, t, p);
    case FinishElection(c, t) => CountKeeps(ids, s, c, t);
    case BeginRound(l, synchronous) => BeginKeeps(ids, s, l, synchronous);
    case DeliverAppend(r, p, lost) => SendKeeps(ids, s, r, p, lost);
    case DropAppend(_, _) => RoundOnlyKeeps(ids, s, step);
    case CompleteRound(_) => RoundOnlyKeeps(ids, s, step);
    case AbandonRound(_) => RoundOnlyKeeps(ids, s, step);
  }

  // ----- whole runs

  ghost predicate ProperRun(ids: set<string>, run: Run)
  {
    IsRun(ids, run) && TermsDoNotWrap(run)
  }

  lemma {:induction false} RunKeeps(ids: set<string>, run: Run, i: nat)
    requires ProperRun(ids, run) && i < |run.states|
    ensures Inv(ids, run.states[i])
  {
    if i > 0 {
      RunKeeps(ids, run, i - 1);
      assert StepAt(run, i - 1);
      StepKeeps(ids, run.states[i - 1], run.steps[i - 1]);
    }
  }

  lemma {:induction false} ElectedStays(ids: set<string>, run: Run, i: nat, j: nat, k: (string, nat))
    requires ProperRun(ids, run) && i <= j < |run.states| && k in run.states[i].elected
    ensures k in run.states[j].elected && run.states[j].elected[k] == run.states[i].elected[k]
    decreases j - i
  {
    if i < j {
      ElectedStays(ids, run, i, j - 1, k);
      RunKeeps(ids, run, j - 1);
      assert StepAt(run, j - 1);
      StepKeeps(ids, run.states[j - 1], run.steps[j - 1]);
    }
  }

  /** No node has an empty name, or there are too few nodes for that to matter. */
  predicate SafeNames(ids: set<string>) {
    "" !in ids || |ids| <= 2
  }

  /** Election Safety (section 5.2 of the Raft paper): over a whole run, at most one node is ever
      leader of a given term, although elections, votes and appends interleave. */
  lemma ElectionSafety(ids: set<string>, run: Run, i: nat, j: nat, c: string, d: string, t: nat)
    requires ProperRun(ids, run) && SafeNames(ids) && i < |run.states| && j < |run.states|
    requires IsLeader(run.states[i], c, t) && IsLeader(run.states[j], d, t)
    ensures c == d
  {
    var last := |run.states| - 1;
    RunKeeps(ids, run, i);
    RunKeeps(ids, run, j);
    RunKeeps(ids, run, last);
    ElectedStays(ids, run, i, last, (c, t));
    ElectedStays(ids, run, j, last, (d, t));
    OneWinner(ids, run.states[last], c, d, t);
  }

  lemma OneWinner(ids: set<string>, s: Cluster, c: string, d: string, t: nat)
    requires Inv(ids, s) && SafeNames(ids) && (c, t) in s.elected && (d, t) in s.elected
    ensures c == d
  {
    hide ElectionsCounted, LeadersElected, RoundsApart, Counted, Apart, BallotsHonoured;
    var p, q := s.elected[(c, t)], s.elected[(d, t)];
    assert Won(s, c, t, p) && Won(s, d, t, q);
    if "" !in ids {
      MajoritiesMeet(p, q, ids);
      var v :| v in p && v in q;
      assert Consistent(Ballot(v, t, c), Ballot(v, t, d));
    } else {
      AllNeeded(p, ids);
      AllNeeded(q, ids);
      assert Consistent(Ballot(c, t, c), Ballot(c, t, d)) && Consistent(Ballot(d, t, c), Ballot(d, t, d));
    }
  }

  /** Of one or two nodes, a majority is all. */
  lemma AllNeeded(vs: set<string>, ids: set<string>)
    requires Majority(vs, ids) && |ids| <= 2
    ensures vs == ids
  {
    assert |ids - vs| == |ids| - |vs|;
  }

  predicate SameRound(r: Round, r': Round) {
    r'.term == r.term && r'.synchronous == r.synchronous && r'.past == r.past && r'.leader == r.leader
  }

  lemma RoundStep(s: Cluster, step: Step, n: nat)
    requires Enabled(s, step) && n < |s.rounds|
    ensures n < |Apply(s, step).rounds| && SameRound(s.rounds[n], Apply(s, step).rounds[n])
  {
    match step
    case DeliverAppend(r, p, lost) => assert SendAppend(s, r, p, lost).rounds[n] == s.rounds[n] || n == r;
    case CompleteRound(r) => assert CloseRound(s, r).rounds[n] == s.rounds[n] || n == r;
    case _ =>
  }

  /** The record of a round keeps its term, its mode and the elections it began after. */
  lemma {:induction false} RoundStays(ids: set<string>, run: Run, i: nat, j: nat, n: nat)
    requires ProperRun(ids, run) && i <= j < |run.states| && n < |run.states[i].rounds|
    ensures n < |run.states[j].rounds| && SameRound(run.states[i].rounds[n], run.states[j].rounds[n])
    decreases j - i
  {
    if i < j {
      RoundStays(ids, run, i, j - 1, n);
      assert StepAt(run, j - 1);
      RoundStep(run.states[j - 1], run.steps[j - 1], n);
    }
  }

  /** Once a node has led term `t`, no synchronous append begun later by a leader of a lower term
      ever succeeds: a quorum for it would have to avoid all the voters of term `t`. */
  lemma StaleLeaderCannotCommit(ids: set<string>, run: Run, i: nat, begin: nat, j: nat, c: string, t: nat)
    requires ProperRun(ids, run) && i <= begin < j < |run.states|
    requires IsLeader(run.states[i], c, t)
    requires run.steps[begin].BeginRound? && run.steps[begin].synchronous
    requires run.steps[begin].leader in run.states[begin].nodes
    requires run.states[begin].nodes[run.steps[begin].leader].term < t
    ensures var n := |run.states[begin].rounds|;
            n < |run.states[j].rounds| && !run.states[j].rounds[n].outcome.Succeeded?
  {
    hide BallotsHonoured, OneVotePerTerm, ElectionsCounted, ElectedWon, RoundsApart, TermsDoNotWrap;
    var n := |run.states[begin].rounds|;
    assert StepAt(run, begin);
    RunKeeps(ids, run, i);
    assert (c, t) in run.states[i].elected;
    RunKeeps(ids, run, j);
    ElectedStays(ids, run, i, begin, (c, t));
    RoundStays(ids, run, begin + 1, j, n);
    OutvotedRoundFails(ids, run.states[j], n, c, t);
  }

  lemma OutvotedRoundFails(ids: set<string>, s: Cluster, n: nat, c: string, t: nat)
    requires Inv(ids, s) && n < |s.rounds| && s.rounds[n].synchronous
    requires (c, t) in s.rounds[n].past && s.rounds[n].term < t
    ensures !s.rounds[n].outcome.Succeeded?
  {
    assert Apart(s, s.rounds[n]);
    assert Won(s, c, t, s.elected[(c, t)]);
    NoQuorumOutside(ids, s, s.elected[(c, t)], s.rounds[n]);
  }

  lemma NoQuorumOutside(ids: set<string>, s: Cluster, voters: set<string>, r: Round)
    requires s.nodes.Keys == ids && Majority(voters, ids) && r.leader in ids
    requires r.ackers <= Others(s, r.leader) && voters !! r.ackers + {r.leader}
    ensures 1 + |r.ackers| < Quorum(|Others(s, r.leader)|)
  {
    var acked := r.ackers + {r.leader};
    assert ids == Others(s, r.leader) + {r.leader};
    SubsetSize(acked + voters, ids);
    assert |acked + voters| == |acked| + |voters|;
  }
}
