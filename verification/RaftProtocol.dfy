/** The safety argument of Raft on full, uncompacted logs.
    `Chronicle` is proof-only history: for each elected term the log of its leader, for each server
    and term how much of that leader's log the server has accepted, and the votes that were cast. */
module RaftProtocol {
  import opened RaftEntries

  datatype Chronicle = Chronicle(
    term: seq<int>,                       // current term of every server
    log: seq<seq<Entry>>,                 // full log of every server, never compacted
    tlog: map<int, seq<Entry>>,           // log of the leader of each elected term (0: the sentinel)
    acc: map<(int, int), int>,            // (server, term) -> accepted length of tlog[term]
    vote: map<(int, int), int>,           // (server, term) -> candidate voted for
    cand: map<(int, int), seq<Entry>>,    // (candidate, term) -> its log when it stood
    voters: map<int, set<int>>,           // term -> the majority that elected its leader
    leaderOf: map<int, int>)
  {
    ghost function N(): nat { |term| }

    ghost function Acc(s: int, t: int): int { if (s, t) in acc then acc[(s, t)] else 0 }

    /** Position n - 1 of the leader log of term t holds an entry the leader itself created. */
    ghost predicate Marked(t: int, n: int)
    {
      t in tlog && 1 <= n <= |tlog[t]| && tlog[t][n - 1].term == t
    }

    /** The leader of term u does not have the first n entries of the leader log of t. */
    ghost predicate Lacks(u: int, t: int, n: int)
    {
      u in tlog && t in tlog && 0 <= n <= |tlog[t]| && !(tlog[t][..n] <= tlog[u])
    }

    /** A log keeps the first n entries of leader t, unless a leader strictly between t and `hi` lacks them. */
    ghost predicate Keeps(l: seq<Entry>, hi: int, t: int, n: int)
      requires Marked(t, n)
    {
      tlog[t][..n] <= l || exists u :: t < u < hi && Lacks(u, t, n)
    }

    /** Every server in q has accepted the first n entries of leader t. */
    ghost predicate Backs(q: set<int>, t: int, n: int)
    {
      forall s :: s in q ==> Acc(s, t) >= n
    }

    ghost predicate Committed(t: int, n: int)
    {
      Marked(t, n) && exists q :: Quorum(q, N()) && Backs(q, t, n)
    }

    /** l is a prefix of a log committed in some term up to t. */
    ghost predicate CommittedBy(t: int, l: seq<Entry>)
    {
      exists u, n :: u <= t && Committed(u, n) && l <= tlog[u][..n]
    }

    /** Log matching: every entry of term t sits in l under exactly what precedes it in leader t's log. */
    ghost predicate Coherent(l: seq<Entry>)
    {
      && |l| >= 1 && l[0] == SENTINEL
      && (forall i :: 0 <= i < |l| ==> l[i].term in tlog && l[..i + 1] <= tlog[l[i].term])
      && (forall i, j :: 0 <= i <= j < |l| ==> l[i].term <= l[j].term)
    }

    /** d is the leader of its current term and its log is the leader log of that term. */
    ghost predicate Leads(d: int)
    {
      && 0 <= d < N() && |log| == N() && term[d] > 0
      && term[d] in tlog && term[d] in leaderOf && leaderOf[term[d]] == d && log[d] == tlog[term[d]]
    }

    /** The leader log of t ends with an entry that this leader created. */
    ghost predicate LeaderShape(t: int)
    {
      t in tlog ==> t >= 0 && Coherent(tlog[t]) && tlog[t][|tlog[t]| - 1].term == t
    }

    ghost predicate ServerShape(s: int)
      requires |log| == N()
    {
      0 <= s < N() ==>
        term[s] >= 1 && Coherent(log[s]) && log[s][|log[s]| - 1].term <= term[s] && Acc(s, 0) == 1
    }

    ghost predicate AccShape(k: (int, int))
    {
      k in acc ==> 0 <= k.0 < N() && k.1 in tlog && k.1 <= term[k.0] && 0 <= acc[k] <= |tlog[k.1]|
    }

    ghost predicate VoteShape(k: (int, int))
    {
      k in vote ==> 0 <= k.0 < N() && k.1 <= term[k.0] && 0 <= vote[k] < N() && k.1 <= term[vote[k]]
    }

    /** While a term has no leader, a server that stood in it still has the log it stood with. */
    ghost predicate CandShape(k: (int, int))
      requires |log| == N()
    {
      k in cand ==>
        && 0 <= k.0 < N() && 1 <= k.1 <= term[k.0] && Coherent(cand[k]) && cand[k][|cand[k]| - 1].term < k.1
        && (k.1 !in tlog && term[k.0] == k.1 ==> log[k.0] == cand[k])
    }

    /** An elected term has a majority of voters, all for its leader. */
    ghost predicate Elected(t: int)
    {
      && (t in leaderOf ==> t in tlog)
      && (t in tlog && t > 0 ==>
        && t in voters && t in leaderOf && Quorum(voters[t], N())
        && forall s :: s in voters[t] ==> (s, t) in vote && vote[(s, t)] == leaderOf[t])
    }

    /** A server keeps what it accepted, unless a later leader it may have heard of lacks it. */
    ghost predicate ServerKeeps(s: int, t: int, n: int)
      requires |log| == N()
    {
      0 <= s < N() && Marked(t, n) && n <= Acc(s, t) ==> Keeps(log[s], term[s] + 1, t, n)
    }

    /** A vote in a term without leader went to a candidate that keeps what the voter accepted. */
    ghost predicate CandidateKeeps(s: int, T: int, t: int, n: int)
    {
      (s, T) in vote && T !in tlog && (vote[(s, T)], T) in cand && t < T && Marked(t, n) && n <= Acc(s, t) ==>
        Keeps(cand[(vote[(s, T)], T)], T, t, n)
    }

    /** A leader keeps what any of the servers that elected it had accepted before. */
    ghost predicate LeaderKeeps(T: int, s: int, t: int, n: int)
    {
      T in tlog && T > 0 && T in voters && s in voters[T] && t < T && Marked(t, n) && n <= Acc(s, t) ==>
        Keeps(tlog[T], T, t, n)
    }

    ghost predicate Shapes()
    {
      && N() > 0 && |log| == N() && 0 in tlog && tlog[0] == [SENTINEL]
      && (forall t :: LeaderShape(t))
      && (forall s :: ServerShape(s))
      && (forall k :: AccShape(k))
    }

    ghost predicate Votes()
      requires |log| == N()
    {
      && (forall k :: VoteShape(k))
      && (forall k :: CandShape(k))
      && (forall t :: Elected(t))
    }

    ghost predicate Keeping()
      requires |log| == N()
    {
      && (forall s, t, n :: ServerKeeps(s, t, n))
      && (forall s, T, t, n :: CandidateKeeps(s, T, t, n))
      && (forall T, s, t, n :: LeaderKeeps(T, s, t, n))
    }

    ghost predicate Inv()
    {
      Shapes() && Votes() && Keeping()
    }
  }

  /** The candidate log is at least as up to date as the voter log (section 5.4.1). */
  ghost predicate UpToDate(candidate: seq<Entry>, voter: seq<Entry>)
    requires |candidate| > 0 && |voter| > 0
  {
    var c, v := candidate[|candidate| - 1].term, voter[|voter| - 1].term;
    c > v || (c == v && |candidate| >= |voter|)
  }

  // ---------------------------------------------------------------------------------------------
  // Leader completeness
  // ---------------------------------------------------------------------------------------------

  /** Leader completeness (section 5.4.3): what is committed in term t is in every later leader's log. */
  lemma {:induction false} LeaderCompleteness(c: Chronicle, t: int, n: int, T: int)
    requires c.Inv() && c.Committed(t, n) && t < T && T in c.tlog
    ensures c.tlog[t][..n] <= c.tlog[T]
    decreases T
  {
    if !(c.tlog[t][..n] <= c.tlog[T]) {
      var q :| Quorum(q, c.N()) && c.Backs(q, t, n);
      assert c.LeaderShape(t) && c.Elected(T);
      var s := QuorumsMeet(q, c.voters[T], c.N());
      assert c.LeaderKeeps(T, s, t, n);
      var u :| t < u < T && c.Lacks(u, t, n);
      LeaderCompleteness(c, t, n, u);
      assert false;
    }
  }

  /** Whatever is committed by term T is a prefix of the log of the leader of T. */
  lemma CommittedInLeader(c: Chronicle, T: int, l: seq<Entry>)
    requires c.Inv() && c.CommittedBy(T, l) && T in c.tlog
    ensures l <= c.tlog[T]
  {
    var u, n :| u <= T && c.Committed(u, n) && l <= c.tlog[u][..n];
    if u < T { LeaderCompleteness(c, u, n, T); }
  }

  /** Any two committed logs are prefixes of one another (the core of State Machine Safety). */
  lemma CommittedComparable(c: Chronicle, T1: int, l1: seq<Entry>, T2: int, l2: seq<Entry>)
    requires c.Inv() && c.CommittedBy(T1, l1) && c.CommittedBy(T2, l2)
    ensures |l1| <= |l2| ==> l1 <= l2
    ensures |l2| <= |l1| ==> l2 <= l1
  {
    var u1, n1 :| u1 <= T1 && c.Committed(u1, n1) && l1 <= c.tlog[u1][..n1];
    var u2, n2 :| u2 <= T2 && c.Committed(u2, n2) && l2 <= c.tlog[u2][..n2];
    var u := if u1 < u2 then u2 else u1;
    if u1 < u { LeaderCompleteness(c, u1, n1, u); }
    if u2 < u { LeaderCompleteness(c, u2, n2, u); }
    PrefixesComparable(l1, l2, c.tlog[u]);
  }

  /** Log matching: two logs that agree on the term at an index agree up to that index. */
  lemma LogMatching(c: Chronicle, l1: seq<Entry>, l2: seq<Entry>, i: int)
    requires c.Coherent(l1) && c.Coherent(l2) && 0 <= i < |l1| && i < |l2| && l1[i].term == l2[i].term
    ensures l1[..i + 1] == l2[..i + 1]
  {
    var t := l1[i].term;
    assert l1[..i + 1] <= c.tlog[t] && l2[..i + 1] <= c.tlog[t];
    PrefixesComparable(l1[..i + 1], l2[..i + 1], c.tlog[t]);
  }

  /** The sentinel alone is always committed. */
  lemma SentinelCommitted(c: Chronicle, T: int)
    requires c.Inv() && T >= 0
    ensures c.CommittedBy(T, [SENTINEL]) && c.CommittedBy(T, [])
  {
    assert Quorum(Range(c.N()), c.N());
    forall s | s in Range(c.N())
      ensures c.Acc(s, 0) >= 1
    {
      assert c.ServerShape(s);
    }
    assert c.Backs(Range(c.N()), 0, 1);
    assert c.Committed(0, 1);
    assert c.tlog[0][..1] == [SENTINEL];
  }

  lemma CommittedShorter(c: Chronicle, T: int, l: seq<Entry>, l': seq<Entry>, T': int)
    requires c.CommittedBy(T, l) && l' <= l && T <= T'
    ensures c.CommittedBy(T', l')
  {
    var u, n :| u <= T && c.Committed(u, n) && l <= c.tlog[u][..n];
    assert u <= T' && c.Committed(u, n) && l' <= c.tlog[u][..n];
  }

  // ---------------------------------------------------------------------------------------------
  // The chronicle only grows
  // ---------------------------------------------------------------------------------------------

  ghost predicate Grows(c: Chronicle, c': Chronicle)
  {
    && c'.N() == c.N() && |c'.log| == |c.log|
    && (forall s :: 0 <= s < c.N() ==> c.term[s] <= c'.term[s])
    && (forall t :: t in c.tlog ==> t in c'.tlog && c.tlog[t] <= c'.tlog[t])
    && (forall s, t :: c.Acc(s, t) <= c'.Acc(s, t))
    && (forall k :: k in c.vote ==> k in c'.vote && c'.vote[k] == c.vote[k])
    && (forall k :: k in c.cand ==> k in c'.cand && c'.cand[k] == c.cand[k])
    && (forall k :: k in c'.cand && k !in c.cand ==> 0 <= k.0 < c.N() && c.term[k.0] < k.1)
    && (forall t :: t in c.leaderOf ==> t in c'.leaderOf && c'.leaderOf[t] == c.leaderOf[t])
  }

  lemma CommittedGrows(c: Chronicle, c': Chronicle, t: int, n: int)
    requires Grows(c, c') && c.Committed(t, n)
    ensures c'.Committed(t, n) && c'.tlog[t][..n] == c.tlog[t][..n]
  {
    var q :| Quorum(q, c.N()) && c.Backs(q, t, n);
    assert c'.Backs(q, t, n);
    assert c'.tlog[t][n - 1] == c.tlog[t][n - 1];
  }

  lemma CommittedByGrows(c: Chronicle, c': Chronicle, T: int, l: seq<Entry>)
    requires Grows(c, c') && c.CommittedBy(T, l)
    ensures c'.CommittedBy(T, l)
  {
    var u, n :| u <= T && c.Committed(u, n) && l <= c.tlog[u][..n];
    CommittedGrows(c, c', u, n);
  }
}
