/** The compacted log of a server refines a full log that is never cut: what the offset arithmetic,
    the public index and each change of the compacted log mean on the full log. */
module RaftCompaction {
  import opened RaftEntries
  import opened RaftHandlers

  /** `l` is the uncompacted log behind what the server stores. */
  ghost predicate Refines(s: Server, l: seq<Entry>)
  {
    && 0 <= s.lastIncludedIndex < |l|
    && s.logs == [Entry(l[s.lastIncludedIndex].term, None)] + l[s.lastIncludedIndex + 1..]
    && s.lastIncludedTerm == l[s.lastIncludedIndex].term
    && s.lastIncludedPublicIndex == |Commands(l[..s.lastIncludedIndex + 1])|
  }

  /** Same real indices, terms and commands. */
  lemma RefinesAt(s: Server, l: seq<Entry>, i: int)
    requires Refines(s, l) && s.lastIncludedIndex <= i < |l|
    ensures s.LastLogIndex() == |l| - 1
    ensures s.logs[i - s.lastIncludedIndex].term == l[i].term == s.TermAt(i)
    ensures i > s.lastIncludedIndex ==> s.logs[i - s.lastIncludedIndex] == l[i]
  {
  }

  /** Appending to the compacted log appends to the full one. */
  lemma RefinesAppend(s: Server, l: seq<Entry>, e: Entry)
    requires Refines(s, l)
    ensures Refines(s.(logs := s.logs + [e]), l + [e])
  {
    assert (l + [e])[s.lastIncludedIndex + 1..] == l[s.lastIncludedIndex + 1..] + [e];
    assert (l + [e])[..s.lastIncludedIndex + 1] == l[..s.lastIncludedIndex + 1];
  }

  // ---------------------------------------------------------------------------------------------
  // Public index
  // ---------------------------------------------------------------------------------------------

  lemma CommandsBeyond(s: Server, l: seq<Entry>, i: int)
    requires Refines(s, l) && s.lastIncludedIndex <= i < |l|
    ensures |Commands(l[..i + 1])| == s.lastIncludedPublicIndex + |Commands(s.logs[1..i - s.lastIncludedIndex + 1])|
  {
    var b := s.lastIncludedIndex;
    assert s.logs[1..i - b + 1] == l[b + 1..i + 1];
    assert l[..i + 1] == l[..b + 1] + l[b + 1..i + 1];
    CommandsConcat(l[..b + 1], l[b + 1..i + 1]);
  }

  /** Beyond the snapshot the public index counts exactly the commands of the full log. */
  lemma RealToPublicCounts(s: Server, l: seq<Entry>, i: int)
    requires Refines(s, l) && s.lastIncludedIndex < i < |l|
    ensures RealToPublic(s, i) == |Commands(l[..i + 1])|
  {
    CommandsBeyond(s, l, i);
  }

  /** The commands of a stretch, counted from its front. */
  lemma CommandsFrom(logs: seq<Entry>, from: nat, to: nat)
    requires from < to <= |logs|
    ensures |Commands(logs[from..to])| == (if logs[from].cmd.Some? then 1 else 0) + |Commands(logs[from + 1..to])|
  {
    var first := [logs[from]];
    assert Commands(first[..0]) == [];
    assert logs[from..to] == first + logs[from + 1..to];
    CommandsConcat(first, logs[from + 1..to]);
  }

  lemma {:induction false} FindCommandCounts(logs: seq<Entry>, from: nat, k: int)
    requires from <= |logs| && k >= 1
    ensures match FindCommand(logs, from, k)
            case Some(o) => |Commands(logs[from..o + 1])| == k
            case None => |Commands(logs[from..])| < k
    decreases |logs| - from
  {
    if from < |logs| {
      assert logs[from..] == logs[from..|logs|] && logs[from + 1..] == logs[from + 1..|logs|];
      var found := FindCommand(logs, from, k);
      CommandsFrom(logs, from, if found.Some? then found.value + 1 else |logs|);
      var k' := if logs[from].cmd.Some? then k - 1 else k;
      if k' >= 1 { FindCommandCounts(logs, from + 1, k'); }
      hide Commands;
    }
  }

  lemma AllCommands(s: Server, l: seq<Entry>)
    requires Refines(s, l)
    ensures |Commands(l)| == s.lastIncludedPublicIndex + |Commands(s.logs[1..])|
  {
    CommandsBeyond(s, l, |l| - 1);
    assert s.logs[1..|l| - 1 - s.lastIncludedIndex + 1] == s.logs[1..];
    assert l[..|l| - 1 + 1] == l;
  }

  /** publicToRealIndex finds the entry whose command is the one with that public index, and only fails
      for public indices below the snapshot or beyond the log. */
  lemma PublicToRealFinds(s: Server, l: seq<Entry>, public: int)
    requires Refines(s, l)
    ensures match PublicToReal(s, public)
            case Some(i) => && s.lastIncludedIndex <= i < |l| && |Commands(l[..i + 1])| == public
                            && (i > s.lastIncludedIndex ==> l[i].cmd.Some?)
            case None => public < s.lastIncludedPublicIndex || public > |Commands(l)|
  {
    hide Commands, FindCommand;
    var k := public - s.lastIncludedPublicIndex;
    if k >= 1 {
      FindCommandCounts(s.logs, 1, k);
      var found := FindCommand(s.logs, 1, k);
      if found.Some? {
        var i := s.lastIncludedIndex + found.value;
        assert PublicToReal(s, public) == Some(i);
        CommandsBeyond(s, l, i);
        RefinesAt(s, l, i);
      } else {
        AllCommands(s, l);
      }
    }
  }

  /** Asked for an index that is not stored beyond the snapshot, it answers the number of all commands of the full log. */
  lemma RealToPublicElsewhere(s: Server, l: seq<Entry>, i: int)
    requires Refines(s, l) && !(s.lastIncludedIndex < i < |l|)
    ensures RealToPublic(s, i) == |Commands(l)|
  {
    hide Commands;
    AllCommands(s, l);
  }

  lemma {:induction false} CommandPositionUnique(l: seq<Entry>, i: nat, j: nat)
    requires i < |l| && j < |l| && l[i].cmd.Some? && l[j].cmd.Some?
    requires |Commands(l[..i + 1])| == |Commands(l[..j + 1])|
    ensures i == j
  {
    CommandsStep(l, i);
    CommandsStep(l, j);
    if i < j {
      CommandsPrefix(l[..i + 1], l[..j]);
      assert false;
    } else if j < i {
      CommandsPrefix(l[..j + 1], l[..i]);
      assert false;
    }
  }

  /** On command entries beyond the snapshot the two index maps are mutually inverse. */
  lemma PublicRealInverse(s: Server, l: seq<Entry>, i: int)
    requires Refines(s, l) && s.lastIncludedIndex < i < |l| && l[i].cmd.Some?
    ensures PublicToReal(s, RealToPublic(s, i)) == Some(i)
  {
    RealToPublicCounts(s, l, i);
    var public := RealToPublic(s, i);
    PublicToRealFinds(s, l, public);
    CommandsStep(l, i);
    CommandsPrefix(l[..s.lastIncludedIndex + 1], l[..i]);
    CommandsPrefix(l[..i + 1], l);
    var j := PublicToReal(s, public).value;
    CommandPositionUnique(l, i, j);
  }

  // ---------------------------------------------------------------------------------------------
  // Compaction steps leave the full log alone
  // ---------------------------------------------------------------------------------------------

  lemma CompactRefines(s: Server, l: seq<Entry>, i: int)
    requires Refines(s, l) && s.lastIncludedIndex <= i < |l|
    ensures Compact(s, i, l[i].term) == [Entry(l[i].term, None)] + l[i + 1..]
  {
    assert s.logs[i - s.lastIncludedIndex + 1..] == l[i + 1..];
  }

  /** Snapshot cuts the stored log and nothing of the full one, and so keeps every public index. */
  lemma SnapshotRefines(s: Server, l: seq<Entry>, index: int, snapshot: seq<Command>)
    requires Refines(s, l)
    ensures Refines(Snapshot(s, index, snapshot), l)
  {
    PublicToRealFinds(s, l, index);
    match PublicToReal(s, index)
    case Some(i) => CompactRefines(s, l, i);
    case None =>
  }

  /** Restarting from a disk that mirrors the server changes nothing of the log either. */
  lemma RestartRefines(s: Server, l: seq<Entry>)
    requires Refines(s, l) && Persist(s) == s
    ensures Refines(Restart(s), l)
  {
  }

  // ---------------------------------------------------------------------------------------------
  // Taking a leader's entries or snapshot merges a prefix of the leader's log into the full log
  // ---------------------------------------------------------------------------------------------

  /** Two logs that agree on a term agree up to there. */
  ghost predicate Matching(l: seq<Entry>, tl: seq<Entry>)
  {
    forall i :: 0 <= i < |l| && i < |tl| && l[i].term == tl[i].term ==> l[..i + 1] == tl[..i + 1]
  }

  /** The stored log, kept below an offset and continued by the entries, is the full log tl. */
  lemma ReplacedRefines(s: Server, l: seq<Entry>, offset: nat, entries: seq<Entry>, tl: seq<Entry>)
    requires Refines(s, l) && 1 <= offset <= |s.logs|
    requires var o := s.lastIncludedIndex + offset; o <= |l| && o <= |tl| && l[..o] == tl[..o] && entries == tl[o..]
    ensures Refines(s.(logs := s.logs[..offset] + entries), tl)
  {
    hide Commands;
    var b, o := s.lastIncludedIndex, s.lastIncludedIndex + offset;
    assert s.logs[..offset] == [Entry(l[b].term, None)] + l[b + 1..o];
    assert tl[b] == tl[..o][b] == l[b];
    assert l[b + 1..o] == l[..o][b + 1..] == tl[b + 1..o];
    assert tl[b + 1..] == tl[b + 1..o] + entries;
    assert tl[..b + 1] == tl[..o][..b + 1] == l[..b + 1];
  }

  /** The append loop, started at an offset below which both logs agree, computes the merge. */
  lemma {:induction false} MergeEntriesRefines(s: Server, l: seq<Entry>, offset: nat, entries: seq<Entry>, tl: seq<Entry>)
    requires Refines(s, l) && Matching(l, tl)
    requires var o := s.lastIncludedIndex + offset;
             1 <= offset && o <= |l| && o <= |tl| && l[..o] == tl[..o] && entries == tl[o..]
    ensures Refines(s.(logs := MergeEntries(s.logs, offset, entries)), Merge(l, tl))
    decreases |entries|
  {
    hide Commands;
    var o := s.lastIncludedIndex + offset;
    if |entries| == 0 {
      assert tl == tl[..o];
    } else if offset < |s.logs| {
      RefinesAt(s, l, o);
      assert tl[o] == entries[0];
      if s.logs[offset].term != entries[0].term {
        ReplacedRefines(s, l, offset, entries, tl);
      } else {
        assert entries[1..] == tl[o + 1..];
        hide Refines;
        MergeEntriesRefines(s, l, offset + 1, entries[1..], tl);
      }
    } else {
      assert s.logs[..offset] == s.logs && |l| == o;
      ReplacedRefines(s, l, offset, entries, tl);
    }
  }

  /** A snapshot whose boundary is the last entry of tl merges tl into the full log. */
  lemma LogUnderSnapshotRefines(s: Server, l: seq<Entry>, args: InstallSnapshotArgs, tl: seq<Entry>)
    requires Refines(s, l) && Matching(l, tl)
    requires s.lastIncludedIndex < args.lastIncludedIndex && |tl| == args.lastIncludedIndex + 1
    requires tl[args.lastIncludedIndex].term == args.lastIncludedTerm && args.lastIncludedPublicIndex == |Commands(tl)|
    ensures Refines(s.(logs := LogUnderSnapshot(s, args), lastIncludedIndex := args.lastIncludedIndex,
                       lastIncludedTerm := args.lastIncludedTerm, lastIncludedPublicIndex := args.lastIncludedPublicIndex),
                    Merge(l, tl))
  {
    var k := args.lastIncludedIndex;
    assert tl[..k + 1] == tl;
    if k < |l| {
      RefinesAt(s, l, k);
      if l[k].term == tl[k].term {
        assert l[..k + 1] == tl;
        CompactRefines(s, l, k);
      }
    }
  }

  /** Taking a matching call's entries merges the leader's log up to the call's last entry into the full log. */
  lemma TakeEntriesRefines(s: Server, l: seq<Entry>, args: AppendEntriesArgs, tl: seq<Entry>)
    requires Refines(s, l) && HasPrevious(s, args) && Matching(l, tl)
    requires |tl| == args.prevLogIndex + 1 + |args.entries| && args.prevLogIndex < |l|
    requires l[..args.prevLogIndex + 1] == tl[..args.prevLogIndex + 1] && args.entries == tl[args.prevLogIndex + 1..]
    ensures Refines(TakeEntries(s, args), Merge(l, tl))
  {
    TakeEntriesFields(s, args);
    if args.entries == [] {
      assert tl == l[..args.prevLogIndex + 1];
      RefinesOnLog(s, TakeEntries(s, args), Merge(l, tl));
    } else {
      MergeEntriesRefines(s, l, args.prevLogIndex + 1 - s.lastIncludedIndex, args.entries, tl);
      var logs := MergeEntries(s.logs, args.prevLogIndex + 1 - s.lastIncludedIndex, args.entries);
      RefinesOnLog(s.(logs := logs), TakeEntries(s, args), Merge(l, tl));
    }
  }

  lemma RefinesOnLog(s: Server, s': Server, l: seq<Entry>)
    requires Refines(s, l) && s'.logs == s.logs && s'.lastIncludedIndex == s.lastIncludedIndex
    requires s'.lastIncludedTerm == s.lastIncludedTerm && s'.lastIncludedPublicIndex == s.lastIncludedPublicIndex
    ensures Refines(s', l)
  {
  }

  /** The rest of what taking entries does: the commit index follows, bounded by the new last index. */
  lemma TakeEntriesFields(s: Server, args: AppendEntriesArgs)
    requires HasPrevious(s, args)
    ensures var s' := TakeEntries(s, args);
            && s' == s.(logs := s'.logs, commitIndex := s'.commitIndex, disk := s'.disk)
            && s'.logs == (if args.entries == [] then s.logs
                           else MergeEntries(s.logs, args.prevLogIndex + 1 - s.lastIncludedIndex, args.entries))
            && s'.disk.snapshot == s.disk.snapshot && (Persist(s) == s ==> Persist(s') == s')
            && s'.commitIndex == if args.leaderCommit > s.commitIndex then Min(args.leaderCommit, s'.LastLogIndex())
                                 else s.commitIndex
  {
  }
}
