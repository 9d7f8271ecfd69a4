/** Log entries, and the facts about prefixes of logs that every part of the Raft model uses.
    A log is a sequence whose position 0 is the sentinel entry, so positions are real log indices. */
module RaftEntries {

  /** The opaque commands of the service above Raft. */
  type Command = string

  datatype Option<+T> = None | Some(value: T)

  /** `cmd == None` is the nil command: a sentinel, or the no-op a new leader appends. */
  datatype Entry = Entry(term: int, cmd: Option<Command>)

  const SENTINEL := Entry(0, None)

  /** The service's commands in a stretch of log: no-ops and sentinels are skipped. */
  function Commands(log: seq<Entry>): seq<Command>
  {
    if |log| == 0 then [] else
    var rest := Commands(log[..|log| - 1]);
    var last := log[|log| - 1].cmd;
    if last.Some? then rest + [last.value] else rest
  }

  lemma {:induction false} CommandsConcat(a: seq<Entry>, b: seq<Entry>)
    ensures Commands(a + b) == Commands(a) + Commands(b)
  {
    if |b| == 0 {
      assert a + b == a;
    } else {
      var b' := b[..|b| - 1];
      assert (a + b)[..|a + b| - 1] == a + b';
      CommandsConcat(a, b');
    }
  }

  lemma CommandsPrefix(a: seq<Entry>, b: seq<Entry>)
    requires a <= b
    ensures Commands(a) <= Commands(b)
  {
    assert b == a + b[|a|..];
    CommandsConcat(a, b[|a|..]);
  }

  lemma CommandsStep(log: seq<Entry>, i: nat)
    requires i < |log|
    ensures Commands(log[..i + 1]) ==
            Commands(log[..i]) + (if log[i].cmd.Some? then [log[i].cmd.value] else [])
  {
    assert log[..i + 1][..i] == log[..i];
  }

  lemma PrefixTransitive(a: seq<Entry>, b: seq<Entry>, c: seq<Entry>)
    requires a <= b && b <= c
    ensures a <= c
  {
  }

  /** Two prefixes of one log are comparable. */
  lemma PrefixesComparable(a: seq<Entry>, b: seq<Entry>, c: seq<Entry>)
    requires a <= c && b <= c
    ensures |a| <= |b| ==> a <= b
    ensures |b| <= |a| ==> b <= a
  {
  }

  /** What a follower's log becomes when it takes a leader's prefix: kept whole if it already
      extends the prefix, otherwise replaced by exactly that prefix. */
  function Merge(log: seq<Entry>, prefix: seq<Entry>): seq<Entry>
  {
    if prefix <= log then log else prefix
  }

  /** A majority of the servers 0..n-1. */
  ghost predicate Quorum(q: set<int>, n: nat)
  {
    (forall s :: s in q ==> 0 <= s < n) && 2 * |q| > n
  }

  /** The servers 0..n-1. */
  function Range(n: nat): (r: set<int>)
    ensures |r| == n && forall i :: i in r <==> 0 <= i < n
  {
    if n == 0 then {} else Range(n - 1) + {n - 1}
  }

  lemma QuorumsMeet(a: set<int>, b: set<int>, n: nat) returns (s: int)
    requires Quorum(a, n) && Quorum(b, n)
    ensures s in a && s in b
  {
    var both := a * b;
    if |both| == 0 {
      SubsetSize(a + b, Range(n));
      assert false;
    }
    s := Pick(both);
  }

  lemma Pick<T>(a: set<T>) returns (x: T)
    requires a != {}
    ensures x in a
  {
    x :| x in a;
  }

  lemma {:induction false} SubsetSize<T>(a: set<T>, b: set<T>)
    requires a <= b
    ensures |a| <= |b|
  {
    if |a| > 0 {
      var x :| x in a;
      SubsetSize(a - {x}, b - {x});
    }
  }
}
