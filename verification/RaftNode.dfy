/** One Raft node: the state that `RaftNode` guards with its mutex, the transitions its
    methods make while holding it, and the class whose methods carry them out. */
module RaftNodes {

  datatype Role = Follower | Candidate | Leader

  /** `CurrentTerm` is a uint64. */
  const TERM_LIMIT: nat := 0x1_0000_0000_0000_0000

  datatype Node = Node(role: Role, term: nat, votedFor: string)

  const FRESH: Node := Node(Follower, 0, "")

  /** What `RequestVote` leaves behind, and whether it grants the vote. */
  function OnRequestVote(n: Node, term: nat, candidate: string): (r: (Node, bool))
  {
    var m := if term > n.term then Node(Follower, term, "") else n;
    if term == m.term && (m.votedFor == "" || m.votedFor == candidate)
    then (m.(votedFor := candidate), true)
    else (m, false)
  }

  /** What `AppendEntries` leaves behind, and whether it succeeds.  The vote is kept even
      when the term rises. */
  function OnAppendEntries(n: Node, term: nat): (r: (Node, bool))
  {
    if term < n.term then (n, false) else (Node(Follower, term, n.votedFor), true)
  }

  /** The first critical section of `Tick`: become a candidate of the next term. */
  function OnTimeout(n: Node, id: string): (r: Node)
  {
    Node(Candidate, (n.term + 1) % TERM_LIMIT, id)
  }

  /** More than half of a cluster with `peers` other members. */
  predicate WinsElection(votes: nat, peers: nat) {
    votes > (peers + 1) / 2
  }

  /** The last critical section of `Tick`, once every peer has been asked. */
  function OnVotesCounted(n: Node, term: nat, votes: nat, peers: nat): (r: Node)
  {
    if n.role.Candidate? && n.term == term && WinsElection(votes, peers) then n.(role := Leader) else n
  }

  /** The quorum that `AppendWithTx` waits for. */
  function Quorum(peers: nat): nat {
    (peers + 1) / 2 + 1
  }

  class RaftNode {
    const id: string
    const heartbeatTimeout: int
    var peers: set<string>
    var role: Role
    var currentTerm: nat
    var votedFor: string
    var lastHeartbeat: int

    ghost function Model(): Node
      reads this
    {
      Node(role, currentTerm, votedFor)
    }

    constructor (id: string, timeout: int, now: int)
      ensures this.id == id && heartbeatTimeout == timeout && lastHeartbeat == now
      ensures peers == {} && Model() == FRESH
    {
      this.id, heartbeatTimeout, lastHeartbeat := id, timeout, now;
      peers, role, currentTerm, votedFor := {}, Follower, 0, "";
    }

    method AddPeer(peer: string)
      modifies `peers
      ensures peers == old(peers) + {peer}
    {
      peers := peers + {peer};
    }

    method RequestVote(term: nat, candidate: string, now: int) returns (granted: bool, current: nat)
      modifies `role, `currentTerm, `votedFor, `lastHeartbeat
      ensures (Model(), granted) == OnRequestVote(old(Model()), term, candidate)
      ensures current == currentTerm
      ensures lastHeartbeat == if granted then now else old(lastHeartbeat)
    {
      if term > currentTerm {
        currentTerm := term;
        role := Follower;
        votedFor := "";
      }
      if term == currentTerm && (votedFor == "" || votedFor == candidate) {
        votedFor := candidate;
        lastHeartbeat := now;
        return true, currentTerm;
      }
      return false, currentTerm;
    }

    method AppendEntries(term: nat, now: int) returns (success: bool, current: nat)
      modifies `role, `currentTerm, `lastHeartbeat
      ensures (Model(), success) == OnAppendEntries(old(Model()), term)
      ensures current == currentTerm
      ensures lastHeartbeat == if success then now else old(lastHeartbeat)
    {
      if term < currentTerm {
        return false, currentTerm;
      }
      currentTerm := term;
      role := Follower;
      lastHeartbeat := now;
      return true, currentTerm;
    }

    /** `Tick` up to the point where it releases the lock; `ask` is the snapshot of the peers. */
    method BeginTick(now: int) returns (started: bool, term: nat, ask: set<string>)
      modifies `role, `currentTerm, `votedFor, `lastHeartbeat
      ensures started <==> !old(role).Leader? && now - old(lastHeartbeat) >= heartbeatTimeout
      ensures started ==> Model() == OnTimeout(old(Model()), id) && term == currentTerm && ask == peers
      ensures started ==> lastHeartbeat == now
      ensures !started ==> Model() == old(Model()) && lastHeartbeat == old(lastHeartbeat)
    {
      started, term, ask := false, currentTerm, peers;
      if role.Leader? {
        return;
      }
      if now - lastHeartbeat >= heartbeatTimeout {
        role := Candidate;
        currentTerm := (currentTerm + 1) % TERM_LIMIT;
        votedFor := id;
        lastHeartbeat := now;
        return true, currentTerm, peers;
      }
    }

    /** `Tick` after it takes the lock again. */
    method FinishTick(term: nat, votes: nat, asked: nat)
      modifies `role
      ensures Model() == OnVotesCounted(old(Model()), term, votes, asked)
    {
      if role.Candidate? && currentTerm == term && votes > (asked + 1) / 2 {
        role := Leader;
      }
    }
  }

  /** The loop of `Tick` that counts the granted votes, starting with the candidate's own. */
  method CountVotes(asked: set<string>, granted: set<string>) returns (votes: nat)
    requires granted <= asked
    ensures votes == 1 + |granted|
  {
    votes := 1;
    var rest, counted := asked, {};
    while rest != {}
      invariant rest <= asked
      invariant counted == granted - rest && votes == 1 + |counted|
      decreases rest
    {
      var p :| p in rest;
      rest := rest - {p};
      if p in granted {
        votes, counted := votes + 1, counted + {p};
      }
    }
    assert counted == granted;
  }

  /** Replication rounds of one leader.  Which peers answered a round with success, and whether
      its context ran out first, are inputs. */
  class Replicator {
    const node: RaftNode
    var synchronousCommit: bool

    constructor (node: RaftNode)
      ensures this.node == node && synchronousCommit
    {
      this.node, synchronousCommit := node, true;
    }

    /** `AppendWithTx`: whether the append is reported as done. */
    method AppendWithTx(stored: bool, acked: set<string>, timedOut: bool) returns (done: bool)
      requires acked <= node.peers
      ensures done <==>
        && node.role == Leader && stored
        && (node.peers == {} || !synchronousCommit || (!timedOut && 1 + |acked| >= Quorum(|node.peers|)))
    {
      if node.role != Leader || !stored {
        return false;
      }
      var majority := Quorum(|node.peers|);
      if 1 >= majority {
        return true;
      }
      if !synchronousCommit {
        return true;
      }
      var acks := CountVotes(node.peers, acked);
      return !timedOut && acks >= majority;
    }
  }
}
