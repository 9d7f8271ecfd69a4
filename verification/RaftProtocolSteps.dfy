/** The steps of the protocol on full logs, and the proof that each of them keeps the chronicle's
    invariant. Each step is a function of the chronicle; `Grows` records what no step takes back. */
module RaftProtocolSteps {
  import opened RaftEntries
  import opened RaftProtocol

  ghost function Initial(n: nat): Chronicle
  {
    Chronicle(seq(n, i => 1), seq(n, i => [SENTINEL]), map[0 := [SENTINEL]],
              map s: int | s in Range(n) :: (s, 0) := 1, map[], map[], map[], map[])
  }

  lemma InitialInv(n: nat)
    requires n > 0
    ensures Initial(n).Inv()
  {
    hide Quorum, Range;
    var c := Initial(n);
    forall s
      ensures c.ServerShape(s)
    {
      if 0 <= s < n { assert s in Range(n) && (s, 0) in c.acc; }
    }
    forall s, t, m
      ensures c.ServerKeeps(s, t, m)
    {
    }
  }

  /** Leader logs only grow, and only by entries of the leader's own term. */
  ghost predicate Extends(c: Chronicle, c': Chronicle, u: int)
  {
    u in c.tlog ==>
      && u in c'.tlog && c.tlog[u] <= c'.tlog[u]
      && forall i :: |c.tlog[u]| <= i < |c'.tlog[u]| ==> c'.tlog[u][i].term == u
  }

  lemma LacksGrows(c: Chronicle, c': Chronicle, u: int, t: int, n: int)
    requires Extends(c, c', u) && Extends(c, c', t) && t < u && c.Marked(t, n) && c.Lacks(u, t, n)
    ensures c'.Lacks(u, t, n)
  {
    var p := c.tlog[t][..n];
    assert c'.tlog[t][..n] == p;
  }

  /** Keeping is stable: no step takes a kept prefix back. */
  lemma KeepsGrows(c: Chronicle, c': Chronicle, l: seq<Entry>, l': seq<Entry>, hi: int, hi': int, t: int, n: int)
    requires forall u :: Extends(c, c', u)
    requires c.Marked(t, n) && c.Keeps(l, hi, t, n) && l <= l' && hi <= hi'
    ensures c'.Marked(t, n) && c'.Keeps(l', hi', t, n)
  {
    assert Extends(c, c', t);
    assert c'.tlog[t][..n] == c.tlog[t][..n];
    if !(c.tlog[t][..n] <= l) {
      var u :| t < u < hi && c.Lacks(u, t, n);
      assert Extends(c, c', u);
      LacksGrows(c, c', u, t, n);
    }
  }

  lemma CoherentGrows(c: Chronicle, c': Chronicle, l: seq<Entry>)
    requires forall u :: Extends(c, c', u)
    requires c.Coherent(l)
    ensures c'.Coherent(l)
  {
    forall i | 0 <= i < |l|
      ensures l[i].term in c'.tlog && l[..i + 1] <= c'.tlog[l[i].term]
    {
      assert Extends(c, c', l[i].term);
      PrefixTransitive(l[..i + 1], c.tlog[l[i].term], c'.tlog[l[i].term]);
    }
  }

  // ---------------------------------------------------------------------------------------------
  // A server sees a higher term
  // ---------------------------------------------------------------------------------------------

  ghost function Bump(c: Chronicle, s: int, t: int): Chronicle
    requires 0 <= s < c.N()
  {
    c.(term := c.term[s := t])
  }

  lemma BumpInv(c: Chronicle, s: int, t: int)
    requires c.Inv() && 0 <= s < c.N() && c.term[s] <= t
    ensures Bump(c, s, t).Inv() && Grows(c, Bump(c, s, t))
  {
    var c' := Bump(c, s, t);
    BumpShapes(c, s, t);
    forall s', u, n
      ensures c'.ServerKeeps(s', u, n)
    {
      assert c.ServerKeeps(s', u, n);
      if 0 <= s' < c'.N() && c'.Marked(u, n) && n <= c'.Acc(s', u) {
        KeepsGrows(c, c', c.log[s'], c.log[s'], c.term[s'] + 1, c'.term[s'] + 1, u, n);
      }
    }
    SameVotesKeep(c, c');
  }

  lemma BumpShapes(c: Chronicle, s: int, t: int)
    requires c.Shapes() && c.Votes() && 0 <= s < c.N() && c.term[s] <= t
    ensures var c' := Bump(c, s, t); c'.Shapes() && c'.Votes()
  {
    var c' := Bump(c, s, t);
    forall u ensures c'.LeaderShape(u) && c'.Elected(u) { assert c.LeaderShape(u) && c.Elected(u); }
    forall s' ensures c'.ServerShape(s') { assert c.ServerShape(s'); }
    forall k ensures c'.AccShape(k) && c'.VoteShape(k) && c'.CandShape(k)
    {
      assert c.AccShape(k) && c.VoteShape(k) && c.CandShape(k);
    }
  }

  /** The two vote invariants, when nothing that they speak of has changed. */
  lemma SameVotesKeep(c: Chronicle, c': Chronicle)
    requires |c.log| == c.N() && |c'.log| == c'.N() && c.Keeping()
    requires c'.tlog == c.tlog && c'.acc == c.acc && c'.vote == c.vote && c'.cand == c.cand && c'.voters == c.voters
    ensures forall s, T, t, n :: c'.CandidateKeeps(s, T, t, n)
    ensures forall T, s, t, n :: c'.LeaderKeeps(T, s, t, n)
  {
    forall s, T, t, n
      ensures c'.CandidateKeeps(s, T, t, n)
    {
      assert c.CandidateKeeps(s, T, t, n);
      if (s, T) in c.vote && T !in c.tlog && (c.vote[(s, T)], T) in c.cand && t < T && c'.Marked(t, n) && n <= c'.Acc(s, t) {
        KeepsGrows(c, c', c.cand[(c.vote[(s, T)], T)], c.cand[(c.vote[(s, T)], T)], T, T, t, n);
      }
    }
    forall T, s, t, n
      ensures c'.LeaderKeeps(T, s, t, n)
    {
      assert c.LeaderKeeps(T, s, t, n);
      if T in c.tlog && T > 0 && T in c.voters && s in c.voters[T] && t < T && c'.Marked(t, n) && n <= c'.Acc(s, t) {
        KeepsGrows(c, c', c.tlog[T], c.tlog[T], T, T, t, n);
      }
    }
  }

  // ---------------------------------------------------------------------------------------------
  // A server stands for election in the next term and votes for itself
  // ---------------------------------------------------------------------------------------------

  ghost function Campaign(c: Chronicle, s: int): Chronicle
    requires 0 <= s < c.N() && |c.log| == c.N()
  {
    var t := c.term[s] + 1;
    c.(term := c.term[s := t], vote := c.vote[(s, t) := s], cand := c.cand[(s, t) := c.log[s]])
  }

  lemma CampaignInv(c: Chronicle, s: int)
    requires c.Inv() && 0 <= s < c.N()
    ensures Campaign(c, s).Inv() && Grows(c, Campaign(c, s))
  {
    var c', t := Campaign(c, s), c.term[s] + 1;
    CampaignShapes(c, s);
    forall s', u, n
      ensures c'.ServerKeeps(s', u, n)
    {
      assert c.ServerKeeps(s', u, n);
      if 0 <= s' < c'.N() && c'.Marked(u, n) && n <= c'.Acc(s', u) {
        KeepsGrows(c, c', c.log[s'], c.log[s'], c.term[s'] + 1, c'.term[s'] + 1, u, n);
      }
    }
    forall s', T, u, n
      ensures c'.CandidateKeeps(s', T, u, n)
    {
      assert c.CandidateKeeps(s', T, u, n) && c.VoteShape((s', T));
      if (s', T) in c'.vote && T !in c'.tlog && (c'.vote[(s', T)], T) in c'.cand && u < T && c'.Marked(u, n) && n <= c'.Acc(s', u) {
        if (s', T) == (s, t) {
          assert c.ServerKeeps(s, u, n);
          KeepsGrows(c, c', c.log[s], c.log[s], T, T, u, n);
        } else {
          var l := c.cand[(c.vote[(s', T)], T)];
          KeepsGrows(c, c', l, l, T, T, u, n);
        }
      }
    }
    SameLeadersKeep(c, c');
    assert forall k :: k in c.vote ==> c.VoteShape(k);
    assert forall k :: k in c.cand ==> c.CandShape(k);
  }

  lemma CampaignShapes(c: Chronicle, s: int)
    requires c.Shapes() && c.Votes() && 0 <= s < c.N()
    ensures var c' := Campaign(c, s); c'.Shapes() && c'.Votes()
  {
    var c', t := Campaign(c, s), c.term[s] + 1;
    forall u
      ensures c'.LeaderShape(u) && c'.Elected(u)
    {
      assert c.LeaderShape(u) && c.Elected(u);
      assert c.VoteShape((s, t));
    }
    forall s' ensures c'.ServerShape(s') { assert c.ServerShape(s'); }
    forall k
      ensures c'.AccShape(k) && c'.VoteShape(k) && c'.CandShape(k)
    {
      assert c.AccShape(k) && c.VoteShape(k) && c.CandShape(k) && c.ServerShape(s);
    }
  }

  lemma SameLeadersKeep(c: Chronicle, c': Chronicle)
    requires |c.log| == c.N() && |c'.log| == c'.N() && c.Keeping()
    requires c'.tlog == c.tlog && c'.acc == c.acc && c'.voters == c.voters
    ensures forall T, s, t, n :: c'.LeaderKeeps(T, s, t, n)
  {
    forall T, s, t, n
      ensures c'.LeaderKeeps(T, s, t, n)
    {
      assert c.LeaderKeeps(T, s, t, n);
      if T in c.tlog && T > 0 && T in c.voters && s in c.voters[T] && t < T && c'.Marked(t, n) && n <= c'.Acc(s, t) {
        KeepsGrows(c, c', c.tlog[T], c.tlog[T], T, T, t, n);
      }
    }
  }

  // ---------------------------------------------------------------------------------------------
  // A server votes for another candidate of its current term
  // ---------------------------------------------------------------------------------------------

  ghost predicate MayVote(c: Chronicle, s: int, d: int)
    requires 0 <= s < c.N() && |c.log| == c.N()
  {
    var T := c.term[s];
    && (s, T) !in c.vote && 0 <= d < c.N() && T <= c.term[d] && |c.log[s]| > 0
    && (T !in c.tlog && (d, T) in c.cand ==> |c.cand[(d, T)]| > 0 && UpToDate(c.cand[(d, T)], c.log[s]))
  }

  ghost function Vote(c: Chronicle, s: int, d: int): Chronicle
    requires 0 <= s < c.N()
  {
    c.(vote := c.vote[(s, c.term[s]) := d])
  }

  /** The election restriction at work: a log that is at least as up to date keeps at least as much. */
  lemma UpToDateKeeps(c: Chronicle, T: int, l: seq<Entry>, v: seq<Entry>, t: int, n: int)
    requires c.Shapes() && c.Coherent(l) && c.Coherent(v) && UpToDate(l, v)
    requires l[|l| - 1].term < T && t < T && c.Marked(t, n) && c.Keeps(v, T, t, n)
    ensures c.Keeps(l, T, t, n)
  {
    var p := c.tlog[t][..n];
    if p <= v {
      var w := l[|l| - 1].term;
      assert v[n - 1] == p[n - 1];
      assert v[n - 1].term <= v[|v| - 1].term;
      assert l[..|l|] == l && l <= c.tlog[w];
      if w == v[|v| - 1].term {
        assert v[..|v|] == v && v <= c.tlog[w];
        PrefixesComparable(v, l, c.tlog[w]);
        PrefixTransitive(p, v, l);
      } else if p <= c.tlog[w] {
        assert c.LeaderShape(w);
        PrefixesComparable(p, l, c.tlog[w]);
      } else {
        assert c.Lacks(w, t, n);
      }
    }
  }

  lemma VoteInv(c: Chronicle, s: int, d: int)
    requires c.Inv() && 0 <= s < c.N() && MayVote(c, s, d)
    ensures Vote(c, s, d).Inv() && Grows(c, Vote(c, s, d))
  {
    hide Chronicle.CommittedBy, Commands, Quorum, Range;
    var c', T0 := Vote(c, s, d), c.term[s];
    forall u ensures c'.LeaderShape(u) && c'.Elected(u) { assert c.LeaderShape(u) && c.Elected(u); }
    forall s' ensures c'.ServerShape(s') { assert c.ServerShape(s'); }
    forall k
      ensures c'.AccShape(k) && c'.VoteShape(k) && c'.CandShape(k)
    {
      assert c.AccShape(k) && c.VoteShape(k) && c.CandShape(k);
    }
    forall s', u, n
      ensures c'.ServerKeeps(s', u, n)
    {
      assert c.ServerKeeps(s', u, n);
      if 0 <= s' < c'.N() && c'.Marked(u, n) && n <= c'.Acc(s', u) {
        KeepsGrows(c, c', c.log[s'], c.log[s'], c.term[s'] + 1, c'.term[s'] + 1, u, n);
      }
    }
    forall s', T, u, n
      ensures c'.CandidateKeeps(s', T, u, n)
    {
      assert c.CandidateKeeps(s', T, u, n);
      if (s', T) in c'.vote && T !in c'.tlog && (c'.vote[(s', T)], T) in c'.cand && u < T && c'.Marked(u, n) && n <= c'.Acc(s', u) {
        var l := c'.cand[(c'.vote[(s', T)], T)];
        if (s', T) == (s, T0) {
          VoterKeeps(c, s, d, u, n);
        }
        KeepsGrows(c, c', l, l, T, T, u, n);
      }
    }
    SameLeadersKeep(c, c');
  }

  lemma VoterKeeps(c: Chronicle, s: int, d: int, u: int, n: int)
    requires c.Inv() && 0 <= s < c.N() && MayVote(c, s, d)
    requires var T := c.term[s]; T !in c.tlog && (d, T) in c.cand && u < T && c.Marked(u, n) && n <= c.Acc(s, u)
    ensures c.Keeps(c.cand[(d, c.term[s])], c.term[s], u, n)
  {
    var T := c.term[s];
    assert c.ServerKeeps(s, u, n) && c.ServerShape(s) && c.CandShape((d, T));
    if !(c.tlog[u][..n] <= c.log[s]) {
      var w :| u < w < T + 1 && c.Lacks(w, u, n);
      assert w != T;
      assert c.Lacks(w, u, n);
    }
    UpToDateKeeps(c, T, c.cand[(d, T)], c.log[s], u, n);
  }

  // ---------------------------------------------------------------------------------------------
  // A candidate with a majority becomes leader and appends its no-op
  // ---------------------------------------------------------------------------------------------

  ghost predicate MayLead(c: Chronicle, d: int, q: set<int>)
    requires 0 <= d < c.N()
  {
    var T := c.term[d];
    && T !in c.tlog && (d, T) in c.cand && Quorum(q, c.N())
    && forall s :: s in q ==> (s, T) in c.vote && c.vote[(s, T)] == d
  }

  ghost function Lead(c: Chronicle, d: int, q: set<int>): Chronicle
    requires 0 <= d < c.N() && |c.log| == c.N()
  {
    var T := c.term[d];
    var l := c.log[d] + [Entry(T, None)];
    c.(log := c.log[d := l], tlog := c.tlog[T := l], acc := c.acc[(d, T) := |l|],
       voters := c.voters[T := q], leaderOf := c.leaderOf[T := d])
  }

  lemma LeadInv(c: Chronicle, d: int, q: set<int>)
    requires c.Inv() && 0 <= d < c.N() && MayLead(c, d, q)
    ensures Lead(c, d, q).Inv() && Grows(c, Lead(c, d, q))
  {
    var c', T0 := Lead(c, d, q), c.term[d];
    assert c.CandShape((d, T0)) && c.ServerShape(d) && c.Elected(T0);
    LeadShapes(c, d, q);
    forall s, t
      ensures c.Acc(s, t) <= c'.Acc(s, t)
    {
      assert c.AccShape((s, t));
    }
    forall s, t, n
      ensures c'.ServerKeeps(s, t, n)
    {
      assert c.ServerKeeps(s, t, n) && c.AccShape((s, t));
      if 0 <= s < c'.N() && c'.Marked(t, n) && n <= c'.Acc(s, t) {
        if t != T0 {
          KeepsGrows(c, c', c.log[s], c'.log[s], c.term[s] + 1, c.term[s] + 1, t, n);
        }
      }
    }
    forall s, T, t, n
      ensures c'.CandidateKeeps(s, T, t, n)
    {
      assert c.CandidateKeeps(s, T, t, n) && c.VoteShape((s, T)) && c.AccShape((s, t));
      if (s, T) in c'.vote && T !in c'.tlog && (c'.vote[(s, T)], T) in c'.cand && t < T && c'.Marked(t, n) && n <= c'.Acc(s, t) {
        var l := c'.cand[(c'.vote[(s, T)], T)];
        // Only the leader itself has accepted anything in its new term, which is its current term.
        if t != T0 { KeepsGrows(c, c', l, l, T, T, t, n); }
      }
    }
    forall T, s, t, n
      ensures c'.LeaderKeeps(T, s, t, n)
    {
      LeadLeaderKeeps(c, d, q, T, s, t, n);
    }
  }

  lemma LeadLeaderKeeps(c: Chronicle, d: int, q: set<int>, T: int, s: int, t: int, n: int)
    requires c.Inv() && 0 <= d < c.N() && MayLead(c, d, q) && Lead(c, d, q).Shapes() && Lead(c, d, q).Votes()
    requires forall u :: Extends(c, Lead(c, d, q), u)
    ensures Lead(c, d, q).LeaderKeeps(T, s, t, n)
  {
    var c', T0 := Lead(c, d, q), c.term[d];
    assert c.LeaderKeeps(T, s, t, n) && c.CandidateKeeps(s, T, t, n) && c.CandShape((d, T0)) && c.AccShape((s, t));
    assert c'.Elected(T) && c'.VoteShape((s, T));
    if T in c'.tlog && T > 0 && T in c'.voters && s in c'.voters[T] && t < T && c'.Marked(t, n) && n <= c'.Acc(s, t) {
      if T == T0 {
        KeepsGrows(c, c', c.log[d], c'.tlog[T], T, T, t, n);
      } else if t != T0 {
        KeepsGrows(c, c', c.tlog[T], c.tlog[T], T, T, t, n);
      }
    }
  }

  lemma LeadCoherent(c: Chronicle, d: int, q: set<int>)
    requires c.Inv() && 0 <= d < c.N() && MayLead(c, d, q)
    ensures Lead(c, d, q).Coherent(Lead(c, d, q).log[d])
  {
    var c', T0 := Lead(c, d, q), c.term[d];
    var l := c'.log[d];
    assert c.CandShape((d, T0)) && c.ServerShape(d);
    CoherentGrows(c, c', c.log[d]);
    hide Chronicle.Inv;
    forall i | 0 <= i < |l|
      ensures l[i].term in c'.tlog && l[..i + 1] <= c'.tlog[l[i].term]
    {
      if i < |c.log[d]| { assert l[..i + 1] == c.log[d][..i + 1]; }
    }
  }

  lemma LeadShapes(c: Chronicle, d: int, q: set<int>)
    requires c.Inv() && 0 <= d < c.N() && MayLead(c, d, q)
    ensures var c' := Lead(c, d, q); c'.Shapes() && c'.Votes()
    ensures forall u :: Extends(c, Lead(c, d, q), u)
  {
    hide Chronicle.Coherent, Chronicle.Keeps, Chronicle.CommittedBy, Commands;
    var c', T0 := Lead(c, d, q), c.term[d];
    assert c.CandShape((d, T0)) && c.ServerShape(d);
    LeadCoherent(c, d, q);
    assert c'.log[d][|c'.log[d]| - 1].term == T0;
    forall u
      ensures c'.LeaderShape(u) && c'.Elected(u)
    {
      assert c.LeaderShape(u) && c.Elected(u);
      if u in c.tlog { CoherentGrows(c, c', c.tlog[u]); }
    }
    forall s
      ensures c'.ServerShape(s)
    {
      assert c.ServerShape(s);
      if 0 <= s < c.N() { CoherentGrows(c, c', c.log[s]); }
    }
    forall k
      ensures c'.AccShape(k) && c'.VoteShape(k) && c'.CandShape(k)
    {
      assert c.AccShape(k) && c.VoteShape(k) && c.CandShape(k);
      if k in c.cand { CoherentGrows(c, c', c.cand[k]); }
    }
  }

  // ---------------------------------------------------------------------------------------------
  // A leader appends a command
  // ---------------------------------------------------------------------------------------------

  ghost function Append(c: Chronicle, d: int, cmd: Option<Command>): Chronicle
    requires c.Leads(d)
  {
    var T := c.term[d];
    var l := c.log[d] + [Entry(T, cmd)];
    c.(log := c.log[d := l], tlog := c.tlog[T := l], acc := c.acc[(d, T) := |l|])
  }

  lemma AppendInv(c: Chronicle, d: int, cmd: Option<Command>)
    requires c.Inv() && c.Leads(d)
    ensures Append(c, d, cmd).Inv() && Grows(c, Append(c, d, cmd))
  {
    var c', T0 := Append(c, d, cmd), c.term[d];
    AppendShapes(c, d, cmd);
    assert c.ServerShape(d) && c.AccShape((d, T0));
    forall s, t, n
      ensures c'.ServerKeeps(s, t, n)
    {
      assert c.ServerKeeps(s, t, n) && c.AccShape((s, t));
      if 0 <= s < c'.N() && c'.Marked(t, n) && n <= c'.Acc(s, t) {
        if (s, t) != (d, T0) {
          KeepsGrows(c, c', c.log[s], c'.log[s], c.term[s] + 1, c.term[s] + 1, t, n);
        }
      }
    }
    forall s, T, t, n
      ensures c'.CandidateKeeps(s, T, t, n)
    {
      assert c.CandidateKeeps(s, T, t, n) && c.VoteShape((s, T)) && c.AccShape((s, t));
      if (s, T) in c'.vote && T !in c'.tlog && (c'.vote[(s, T)], T) in c'.cand && t < T && c'.Marked(t, n) && n <= c'.Acc(s, t) {
        var l := c.cand[(c.vote[(s, T)], T)];
        assert (s, t) != (d, T0);
        KeepsGrows(c, c', l, l, T, T, t, n);
      }
    }
    forall T, s, t, n
      ensures c'.LeaderKeeps(T, s, t, n)
    {
      assert c.LeaderKeeps(T, s, t, n) && c.Elected(T) && c.AccShape((s, t)) && c.VoteShape((s, T));
      if T in c'.tlog && T > 0 && T in c'.voters && s in c'.voters[T] && t < T && c'.Marked(t, n) && n <= c'.Acc(s, t) {
        assert (s, t) != (d, T0);
        KeepsGrows(c, c', c.tlog[T], c'.tlog[T], T, T, t, n);
      }
    }
  }

  lemma AppendCoherent(c: Chronicle, d: int, cmd: Option<Command>)
    requires c.Inv() && c.Leads(d)
    ensures Append(c, d, cmd).Coherent(Append(c, d, cmd).log[d])
  {
    var c', T0 := Append(c, d, cmd), c.term[d];
    var l := c'.log[d];
    assert c.ServerShape(d) && c.LeaderShape(T0);
    CoherentGrows(c, c', c.log[d]);
    hide Chronicle.Inv;
    forall i | 0 <= i < |l|
      ensures l[i].term in c'.tlog && l[..i + 1] <= c'.tlog[l[i].term]
    {
      if i < |c.log[d]| { assert l[..i + 1] == c.log[d][..i + 1]; }
    }
  }

  lemma AppendShapes(c: Chronicle, d: int, cmd: Option<Command>)
    requires c.Inv() && c.Leads(d)
    ensures var c' := Append(c, d, cmd); c'.Shapes() && c'.Votes()
    ensures forall u :: Extends(c, Append(c, d, cmd), u)
  {
    hide Chronicle.Coherent, Chronicle.Keeps, Chronicle.CommittedBy, Commands;
    var c', T0 := Append(c, d, cmd), c.term[d];
    assert c.ServerShape(d) && c.LeaderShape(T0);
    AppendCoherent(c, d, cmd);
    forall u
      ensures c'.LeaderShape(u) && c'.Elected(u)
    {
      assert c.LeaderShape(u) && c.Elected(u);
      if u in c.tlog { CoherentGrows(c, c', c.tlog[u]); }
    }
    forall s
      ensures c'.ServerShape(s)
    {
      assert c.ServerShape(s);
      if 0 <= s < c.N() { CoherentGrows(c, c', c.log[s]); }
    }
    forall k
      ensures c'.AccShape(k) && c'.VoteShape(k) && c'.CandShape(k)
    {
      assert c.AccShape(k) && c.VoteShape(k) && c.CandShape(k);
      if k in c.cand { CoherentGrows(c, c', c.cand[k]); }
    }
  }

  // ---------------------------------------------------------------------------------------------
  // A server takes the first m entries of the log of its term's leader
  // ---------------------------------------------------------------------------------------------

  ghost predicate MayAccept(c: Chronicle, s: int, m: int)
  {
    0 <= s < c.N() && |c.log| == c.N() && c.term[s] in c.tlog && 1 <= m <= |c.tlog[c.term[s]]|
  }

  ghost function Accept(c: Chronicle, s: int, m: int): Chronicle
    requires MayAccept(c, s, m)
  {
    var T := c.term[s];
    c.(log := c.log[s := Merge(c.log[s], c.tlog[T][..m])],
       acc := c.acc[(s, T) := if c.Acc(s, T) < m then m else c.Acc(s, T)])
  }

  lemma AcceptInv(c: Chronicle, s: int, m: int)
    requires c.Inv() && MayAccept(c, s, m)
    ensures Accept(c, s, m).Inv() && Grows(c, Accept(c, s, m))
  {
    var c', T0 := Accept(c, s, m), c.term[s];
    AcceptShapes(c, s, m);
    forall s', t, n
      ensures c'.ServerKeeps(s', t, n)
    {
      assert c.ServerKeeps(s', t, n);
      if 0 <= s' < c'.N() && c'.Marked(t, n) && n <= c'.Acc(s', t) {
        if s' == s {
          AcceptKeeps(c, s, m, t, n);
        } else {
          KeepsGrows(c, c', c.log[s'], c'.log[s'], c.term[s'] + 1, c.term[s'] + 1, t, n);
        }
      }
    }
    forall s', T, t, n
      ensures c'.CandidateKeeps(s', T, t, n)
    {
      assert c.CandidateKeeps(s', T, t, n) && c.VoteShape((s', T));
      if (s', T) in c'.vote && T !in c'.tlog && (c'.vote[(s', T)], T) in c'.cand && t < T && c'.Marked(t, n) && n <= c'.Acc(s', t) {
        var l := c.cand[(c.vote[(s', T)], T)];
        assert (s', t) != (s, T0);
        KeepsGrows(c, c', l, l, T, T, t, n);
      }
    }
    forall T, s', t, n
      ensures c'.LeaderKeeps(T, s', t, n)
    {
      assert c.LeaderKeeps(T, s', t, n) && c.Elected(T) && c.VoteShape((s', T));
      if T in c'.tlog && T > 0 && T in c'.voters && s' in c'.voters[T] && t < T && c'.Marked(t, n) && n <= c'.Acc(s', t) {
        assert (s', t) != (s, T0);
        KeepsGrows(c, c', c.tlog[T], c'.tlog[T], T, T, t, n);
      }
    }
  }

  /** Taking a leader's prefix loses nothing that was accepted, unless that leader lacks it. */
  lemma AcceptKeeps(c: Chronicle, s: int, m: int, t: int, n: int)
    requires c.Inv() && MayAccept(c, s, m)
    requires c.Marked(t, n) && n <= Accept(c, s, m).Acc(s, t)
    ensures Accept(c, s, m).Keeps(Accept(c, s, m).log[s], c.term[s] + 1, t, n)
  {
    var c', T := Accept(c, s, m), c.term[s];
    var p, tl := c.tlog[t][..n], c.tlog[T][..m];
    assert c.ServerKeeps(s, t, n) && c.AccShape((s, t));
    if t == T && n <= m {
      assert p <= tl <= c'.log[s];
    } else {
      if p <= c.log[s] {
        if p <= c.tlog[T] {
          PrefixesComparable(p, tl, c.tlog[T]);
        } else {
          assert c'.Lacks(T, t, n);
        }
      } else {
        var u :| t < u < T + 1 && c.Lacks(u, t, n);
        assert c'.Lacks(u, t, n);
      }
    }
  }

  lemma AcceptCoherent(c: Chronicle, s: int, m: int)
    requires c.Inv() && MayAccept(c, s, m)
    ensures var c', T := Accept(c, s, m), c.term[s];
            |c'.log[s]| > 0 && c'.Coherent(c'.log[s]) && c'.log[s][|c'.log[s]| - 1].term <= T
  {
    var T := c.term[s];
    var tl := c.tlog[T][..m];
    assert c.LeaderShape(T) && c.ServerShape(s) && c.AccShape((s, T));
    hide Chronicle.Inv;
    forall i | 0 <= i < |tl|
      ensures tl[i].term in c.tlog && tl[..i + 1] <= c.tlog[tl[i].term]
    {
      assert tl[..i + 1] == c.tlog[T][..i + 1];
    }
    assert tl[|tl| - 1].term <= c.tlog[T][|c.tlog[T]| - 1].term;
  }

  lemma AcceptShapes(c: Chronicle, s: int, m: int)
    requires c.Inv() && MayAccept(c, s, m)
    ensures var c' := Accept(c, s, m); c'.Shapes() && c'.Votes()
    ensures forall u :: Extends(c, Accept(c, s, m), u)
  {
    hide Chronicle.Keeps, Chronicle.CommittedBy, Commands, Quorum;
    var c', T := Accept(c, s, m), c.term[s];
    assert c.LeaderShape(T) && c.ServerShape(s) && c.AccShape((s, T));
    AcceptCoherent(c, s, m);
    forall u ensures c'.LeaderShape(u) && c'.Elected(u) { assert c.LeaderShape(u) && c.Elected(u); }
    forall s' ensures c'.ServerShape(s') { assert c.ServerShape(s'); assert c.LeaderShape(0); }
    forall k
      ensures c'.AccShape(k) && c'.VoteShape(k) && c'.CandShape(k)
    {
      assert c.AccShape(k) && c.VoteShape(k) && c.CandShape(k);
    }
  }
}
