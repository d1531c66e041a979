/** A cluster of Raft nodes with fixed membership, as a step system.

    `Tick` gives up its lock while it asks for votes, and `AppendWithTx` asks every peer from
    its own goroutine, so an election or an append round is not one step: it begins, each
    request is delivered (or lost) on its own, and it ends, with any other steps in between.
    A node may run several elections and rounds at once. */
module RaftCluster {
  import opened RaftNodes

  datatype Ballot = Ballot(voter: string, term: nat, candidate: string)

  /** A `Tick` that is collecting votes: the peers still to ask and the votes so far. */
  datatype Election = Election(pending: set<string>, votes: nat)

  datatype Outcome = Running | Succeeded | Failed

  /** An `AppendWithTx` call.  `ackers` and `past` are history: who acknowledged, and which
      elections had been won when the round began. */
  datatype Round = Round(leader: string, term: nat, synchronous: bool, pending: set<string>, acks: nat,
                         outcome: Outcome, ackers: set<string>, past: set<(string, nat)>)

  /** `ballots` and `elected` are history: every vote granted, and for every election won the
      voters it was won with. */
  datatype Cluster = Cluster(nodes: map<string, Node>, elections: map<(string, nat), Election>, rounds: seq<Round>,
                             ballots: set<Ballot>, elected: map<(string, nat), set<string>>)

  function Init(ids: set<string>): Cluster {
    Cluster(map id | id in ids :: FRESH, map[], [], {}, map[])
  }

  function Voters(s: Cluster, candidate: string, term: nat): (vs: set<string>)
    ensures forall v :: v in vs <==> v in s.nodes && Ballot(v, term, candidate) in s.ballots
  {
    set v | v in s.nodes && Ballot(v, term, candidate) in s.ballots
  }

  datatype Step =
    | StartElection(candidate: string)
    | DeliverVote(candidate: string, term: nat, peer: string, replyLost: bool)
    | DropVoteRequest(candidate: string, term: nat, peer: string)
    | FinishElection(candidate: string, term: nat)
    | BeginRound(leader: string, synchronous: bool)
    | DeliverAppend(round: nat, peer: string, replyLost: bool)
    | DropAppend(round: nat, peer: string)
    | CompleteRound(round: nat)
    | AbandonRound(round: nat)

  ghost predicate Enabled(s: Cluster, step: Step)
  {
    match step
    case StartElection(c) => c in s.nodes && !s.nodes[c].role.Leader?
    case DeliverVote(c, t, p, _) => (c, t) in s.elections && p in s.elections[(c, t)].pending && p in s.nodes
    case DropVoteRequest(c, t, p) => (c, t) in s.elections && p in s.elections[(c, t)].pending
    case FinishElection(c, t) => (c, t) in s.elections && s.elections[(c, t)].pending == {} && c in s.nodes
    case BeginRound(l, _) => l in s.nodes && s.nodes[l].role.Leader?
    case DeliverAppend(r, p, _) => r < |s.rounds| && p in s.rounds[r].pending && p in s.nodes
    case DropAppend(r, p) => r < |s.rounds| && p in s.rounds[r].pending
    case CompleteRound(r) => r < |s.rounds| && s.rounds[r].outcome.Running? && (s.rounds[r].synchronous ==> s.rounds[r].pending == {})
    case AbandonRound(r) => r < |s.rounds| && s.rounds[r].outcome.Running?
  }

  function Others(s: Cluster, id: string): set<string> {
    s.nodes.Keys - {id}
  }

  function Start(s: Cluster, c: string): Cluster
    requires c in s.nodes
  {
    var n := OnTimeout(s.nodes[c], c);
    s.(nodes := s.nodes[c := n],
       elections := s.elections[(c, n.term) := Election(Others(s, c), 1)],
       ballots := s.ballots + {Ballot(c, n.term, c)})
  }

  /** The peer handles the request; a lost reply leaves the candidate without the vote. */
  function AskForVote(s: Cluster, c: string, t: nat, p: string, replyLost: bool): Cluster
    requires (c, t) in s.elections && p in s.nodes
  {
    var e := s.elections[(c, t)];
    var (n, granted) := OnRequestVote(s.nodes[p], t, c);
    s.(nodes := s.nodes[p := n],
       elections := s.elections[(c, t) := Election(e.pending - {p}, if granted && !replyLost then e.votes + 1 else e.votes)],
       ballots := if granted then s.ballots + {Ballot(p, t, c)} else s.ballots)
  }

  function Count(s: Cluster, c: string, t: nat): Cluster
    requires (c, t) in s.elections && c in s.nodes
  {
    var n := OnVotesCounted(s.nodes[c], t, s.elections[(c, t)].votes, |Others(s, c)|);
    var s' := s.(nodes := s.nodes[c := n], elections := s.elections - {(c, t)});
    if n == s.nodes[c] then s' else s'.(elected := s.elected[(c, t) := Voters(s, c, t)])
  }

  function OpenRound(s: Cluster, l: string, synchronous: bool): Cluster
    requires l in s.nodes
  {
    s.(rounds := s.rounds + [Round(l, s.nodes[l].term, synchronous, Others(s, l), 1, Running, {}, s.elected.Keys)])
  }

  function SendAppend(s: Cluster, r: nat, p: string, replyLost: bool): Cluster
    requires r < |s.rounds| && p in s.nodes
  {
    var round := s.rounds[r];
    var (n, success) := OnAppendEntries(s.nodes[p], round.term);
    var counted := success && !replyLost;
    s.(nodes := s.nodes[p := n],
       rounds := s.rounds[r := round.(pending := round.pending - {p},
                                      acks := if counted then round.acks + 1 else round.acks,
                                      ackers := if counted then round.ackers + {p} else round.ackers)])
  }

  function CloseRound(s: Cluster, r: nat): Cluster
    requires r < |s.rounds|
  {
    var round := s.rounds[r];
    var ok := !round.synchronous || round.acks >= Quorum(|Others(s, round.leader)|);
    s.(rounds := s.rounds[r := round.(outcome := if ok then Succeeded else Failed)])
  }

  ghost function Apply(s: Cluster, step: Step): Cluster
    requires Enabled(s, step)
  {
    match step
    case StartElection(c) => Start(s, c)
    case DeliverVote(c, t, p, lost) => AskForVote(s, c, t, p, lost)
    case DropVoteRequest(c, t, p) =>
      var e := s.elections[(c, t)];
      s.(elections := s.elections[(c, t) := e.(pending := e.pending - {p})])
    case FinishElection(c, t) => Count(s, c, t)
    case BeginRound(l, synchronous) => OpenRound(s, l, synchronous)
    case DeliverAppend(r, p, lost) => SendAppend(s, r, p, lost)
    case DropAppend(r, p) => s.(rounds := s.rounds[r := s.rounds[r].(pending := s.rounds[r].pending - {p})])
    case CompleteRound(r) => CloseRound(s, r)
    case AbandonRound(r) => s.(rounds := s.rounds[r := s.rounds[r].(outcome := Failed)])
  }

  /** An execution: the states passed through and the steps between them. */
  datatype Run = Run(states: seq<Cluster>, steps: seq<Step>)

  ghost predicate StepAt(run: Run, i: nat)
    requires |run.states| == |run.steps| + 1 && i < |run.steps|
  {
    Enabled(run.states[i], run.steps[i]) && run.states[i + 1] == Apply(run.states[i], run.steps[i])
  }

  ghost predicate IsRun(ids: set<string>, run: Run)
  {
    && |run.states| == |run.steps| + 1
    && run.states[0] == Init(ids)
    && forall i :: 0 <= i < |run.steps| ==> StepAt(run, i)
  }

  /** No election of the run is started at the largest uint64 term. */
  ghost predicate TermsDoNotWrap(run: Run)
    requires |run.states| == |run.steps| + 1
  {
    forall i :: 0 <= i < |run.steps| && run.steps[i].StartElection? ==> NotAtLimit(run.states[i], run.steps[i].candidate)
  }

  ghost predicate NotAtLimit(s: Cluster, id: string)
  {
    id in s.nodes ==> s.nodes[id].term + 1 < TERM_LIMIT
  }

  predicate IsLeader(s: Cluster, id: string, term: nat)
  {
    id in s.nodes && s.nodes[id].role.Leader? && s.nodes[id].term == term
  }
}
