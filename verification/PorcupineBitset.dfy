/** The bitset of linearized operations: an array of 64-bit words, updated in place, that stands for a set.
    A word is a number below 2^64, and the bit operators are given on binary digits. */
module PorcupineBitset {

  /** 1 << k */
  function Pow2(k: nat): (p: nat)
    ensures p > 0
  {
    if k == 0 then 1 else 2 * Pow2(k - 1)
  }

  type Word = w: nat | w < Pow2(64) witness 0

  predicate Bit(w: nat, k: nat)
  {
    if k == 0 then w % 2 == 1 else Bit(w / 2, k - 1)
  }

  /** a | b */
  function Or(a: nat, b: nat): nat
    decreases a
  {
    if a == 0 then b else 2 * Or(a / 2, b / 2) + (if a % 2 == 1 || b % 2 == 1 then 1 else 0)
  }

  /** a &^ b */
  function AndNot(a: nat, b: nat): nat
    decreases a
  {
    if a == 0 then 0 else 2 * AndNot(a / 2, b / 2) + (if a % 2 == 1 && b % 2 == 0 then 1 else 0)
  }

  /** a & b */
  function And(a: nat, b: nat): nat
    decreases a
  {
    if a == 0 then 0 else 2 * And(a / 2, b / 2) + (if a % 2 == 1 && b % 2 == 1 then 1 else 0)
  }

  /** a ^ b */
  function Xor(a: nat, b: nat): nat
    decreases a
  {
    if a == 0 then b else 2 * Xor(a / 2, b / 2) + (if a % 2 != b % 2 then 1 else 0)
  }

  /** The number of bits set. */
  function Ones(w: nat): nat
  {
    if w == 0 then 0 else Ones(w / 2) + w % 2
  }

  // ---------------------------------------------------------------------------------------------
  // Single words
  // ---------------------------------------------------------------------------------------------

  lemma {:induction false} ZeroBit(k: nat)
    ensures !Bit(0, k)
  {
    if k > 0 { ZeroBit(k - 1); }
  }

  lemma {:induction false} OrBit(a: nat, b: nat, k: nat)
    ensures Bit(Or(a, b), k) <==> Bit(a, k) || Bit(b, k)
    decreases a
  {
    if a == 0 {
      ZeroBit(k);
    } else if k > 0 {
      OrBit(a / 2, b / 2, k - 1);
    }
  }

  lemma {:induction false} AndNotBit(a: nat, b: nat, k: nat)
    ensures Bit(AndNot(a, b), k) <==> Bit(a, k) && !Bit(b, k)
    decreases a
  {
    if a == 0 {
      ZeroBit(k);
    } else if k > 0 {
      AndNotBit(a / 2, b / 2, k - 1);
    }
  }

  lemma {:induction false} PowBit(k: nat, j: nat)
    ensures Bit(Pow2(k), j) <==> j == k
  {
    if k == 0 {
      if j > 0 { ZeroBit(j - 1); }
    } else if j > 0 {
      PowBit(k - 1, j - 1);
    }
  }

  /** Masking with 1 << k tests bit k. */
  lemma {:induction false} AndPow(w: nat, k: nat)
    ensures And(w, Pow2(k)) != 0 <==> Bit(w, k)
    decreases k
  {
    if w == 0 {
      ZeroBit(k);
    } else if k > 0 {
      AndPow(w / 2, k - 1);
    } else {
      AndZero(w / 2);
    }
  }

  lemma {:induction false} AndZero(w: nat)
    ensures And(w, 0) == 0
  {
    if w > 0 { AndZero(w / 2); }
  }

  lemma {:induction false} StaysWord(a: nat, b: nat, n: nat)
    requires a < Pow2(n) && b < Pow2(n)
    ensures Or(a, b) < Pow2(n) && AndNot(a, b) < Pow2(n) && Xor(a, b) < Pow2(n)
    decreases n
  {
    if n > 0 && a > 0 { StaysWord(a / 2, b / 2, n - 1); }
  }

  lemma {:induction false} PowGrows(k: nat, n: nat)
    requires k < n
    ensures Pow2(k) < Pow2(n)
  {
    if k < n - 1 { PowGrows(k, n - 1); }
  }

  /** A word is determined by its bits. */
  lemma {:induction false} SameBits(a: nat, b: nat, n: nat)
    requires a < Pow2(n) && b < Pow2(n)
    requires forall k: nat :: k < n ==> (Bit(a, k) <==> Bit(b, k))
    ensures a == b
  {
    if n > 0 {
      forall k: nat {:trigger Bit(a / 2, k)} | k < n - 1
        ensures Bit(a / 2, k) <==> Bit(b / 2, k)
      {
        assert Bit(a, k + 1) <==> Bit(b, k + 1);
      }
      SameBits(a / 2, b / 2, n - 1);
      assert Bit(a, 0) <==> Bit(b, 0);
    }
  }

  // ---------------------------------------------------------------------------------------------
  // Sequences of words
  // ---------------------------------------------------------------------------------------------

  /** Position i of the bitset. */
  predicate Has(b: seq<Word>, i: int)
  {
    0 <= i < 64 * |b| && Bit(b[i / 64], i % 64)
  }

  /** The set that the words stand for. */
  ghost function Members(b: seq<Word>): set<int>
  {
    set i: int | 0 <= i < 64 * |b| && Has(b, i)
  }

  /** Bitsets of one length are equal exactly when they stand for the same set. */
  lemma SameMembers(a: seq<Word>, b: seq<Word>)
    requires |a| == |b|
    ensures a == b <==> Members(a) == Members(b)
  {
    if Members(a) == Members(b) {
      forall w | 0 <= w < |a|
        ensures a[w] == b[w]
      {
        forall k: nat | k < 64
          ensures Bit(a[w], k) <==> Bit(b[w], k)
        {
          var i := 64 * w + k;
          assert i / 64 == w && i % 64 == k;
          assert i in Members(a) <==> Has(a, i);
          assert i in Members(b) <==> Has(b, i);
        }
        SameBits(a[w], b[w], 64);
      }
    }
  }

  /** Updating the word of pos by the mask of pos adds or removes pos. */
  lemma WordsUpdate(b: seq<Word>, pos: nat, b': seq<Word>, on: bool)
    requires pos < 64 * |b| && |b'| == |b|
    requires forall w :: 0 <= w < |b| && w != pos / 64 ==> b'[w] == b[w]
    requires var w := b[pos / 64]; b'[pos / 64] == if on then Or(w, Pow2(pos % 64)) else AndNot(w, Pow2(pos % 64))
    ensures Members(b') == if on then Members(b) + {pos} else Members(b) - {pos}
  {
    forall i: int | 0 <= i < 64 * |b|
      ensures Has(b', i) <==> if on then i == pos || Has(b, i) else i != pos && Has(b, i)
    {
      OrBit(b[pos / 64], Pow2(pos % 64), i % 64);
      AndNotBit(b[pos / 64], Pow2(pos % 64), i % 64);
      PowBit(pos % 64, i % 64);
    }
  }

  lemma ZeroHasNone(b: seq<Word>)
    requires forall w :: 0 <= w < |b| ==> b[w] == 0
    ensures Members(b) == {}
  {
    forall i | 0 <= i < 64 * |b|
      ensures !Has(b, i)
    {
      ZeroBit(i % 64);
    }
  }

  function TotalOnes(b: seq<Word>): nat
  {
    if |b| == 0 then 0 else TotalOnes(b[..|b| - 1]) + Ones(b[|b| - 1])
  }

  /** Bit i - d of a word, for a word whose first bit has position d. */
  predicate BitFrom(w: nat, d: int, i: int)
  {
    i >= d && Bit(w, i - d)
  }

  /** The positions of the first n bits that are set. */
  ghost function Positions(w: nat, n: nat, d: int): set<int>
  {
    set i: int | d <= i < d + n && BitFrom(w, d, i)
  }

  /** The ones of a word are as many as its positions: the lowest bit, and those of the rest, which starts one further. */
  lemma {:induction false} OnesCount(w: nat, n: nat, d: int)
    requires w < Pow2(n)
    ensures Ones(w) == |Positions(w, n, d)|
    decreases n
  {
    if n == 0 {
      assert Positions(w, n, d) == {};
    } else {
      OnesCount(w / 2, n - 1, d + 1);
      forall i: int | d < i < d + n
        ensures BitFrom(w, d, i) <==> BitFrom(w / 2, d + 1, i)
      {
      }
      assert Positions(w, n, d) == Positions(w / 2, n - 1, d + 1) + if w % 2 == 1 then {d} else {};
      assert Ones(w) == Ones(w / 2) + w % 2;
    }
  }

  /** The population count is the size of the set. */
  lemma {:induction false} TotalOnesCounts(b: seq<Word>)
    ensures TotalOnes(b) == |Members(b)|
  {
    if |b| == 0 {
      assert Members(b) == {};
    } else {
      var last := |b| - 1;
      var high := Positions(b[last], 64, 64 * last);
      TotalOnesCounts(b[..last]);
      OnesCount(b[last], 64, 64 * last);
      forall i: int
        ensures i in Members(b) <==> i in Members(b[..last]) || i in high
      {
        if 64 * last <= i < 64 * |b| {
          assert i / 64 == last && i % 64 == i - 64 * last;
          assert Has(b, i) <==> BitFrom(b[last], 64 * last, i);
        } else if 0 <= i < 64 * last {
          assert Has(b[..last], i) <==> Has(b, i);
        }
      }
      assert Members(b) == Members(b[..last]) + high;
      assert Members(b[..last]) !! high;
    }
  }

  function Fold(b: seq<Word>, start: Word): Word
  {
    if |b| == 0 then start else
    var f := Fold(b[..|b| - 1], start);
    StaysWord(f, b[|b| - 1], 64);
    Xor(f, b[|b| - 1])
  }

  /** The hash of a bitset: the population count folded with the words. */
  function HashOf(b: seq<Word>): Word
  {
    Fold(b, TotalOnes(b) % Pow2(64))
  }

  /** Equal sets hash equally. */
  lemma EqualSetsHashEqually(a: seq<Word>, b: seq<Word>)
    requires |a| == |b| && Members(a) == Members(b)
    ensures HashOf(a) == HashOf(b)
  {
    SameMembers(a, b);
  }

  // ---------------------------------------------------------------------------------------------
  // The operations
  // ---------------------------------------------------------------------------------------------

  method NewBitset(bits: nat) returns (b: array<Word>)
    ensures fresh(b) && bits <= 64 * b.Length < bits + 64 && Members(b[..]) == {}
  {
    var extra := if bits % 64 != 0 then 1 else 0;
    b := new Word[bits / 64 + extra](_ => 0);
    ZeroHasNone(b[..]);
  }

  method Clone(b: array<Word>) returns (c: array<Word>)
    ensures fresh(c) && c[..] == b[..]
  {
    c := new Word[b.Length](_ => 0);
    for i := 0 to b.Length
      invariant c[..i] == b[..i]
    {
      c[i] := b[i];
    }
    assert b[..] == b[..b.Length];
  }

  method SetBit(b: array<Word>, pos: nat)
    requires pos < 64 * b.Length
    modifies b
    ensures Members(b[..]) == old(Members(b[..])) + {pos}
  {
    var major, minor := pos / 64, pos % 64;
    PowGrows(minor, 64);
    StaysWord(b[major], Pow2(minor), 64);
    b[major] := Or(b[major], Pow2(minor));
    WordsUpdate(old(b[..]), pos, b[..], true);
  }

  method ClearBit(b: array<Word>, pos: nat)
    requires pos < 64 * b.Length
    modifies b
    ensures Members(b[..]) == old(Members(b[..])) - {pos}
  {
    var major, minor := pos / 64, pos % 64;
    PowGrows(minor, 64);
    StaysWord(b[major], Pow2(minor), 64);
    b[major] := AndNot(b[major], Pow2(minor));
    WordsUpdate(old(b[..]), pos, b[..], false);
  }

  method GetBit(b: array<Word>, pos: nat) returns (r: bool)
    requires pos < 64 * b.Length
    ensures r <==> pos in Members(b[..])
  {
    var major, minor := pos / 64, pos % 64;
    r := And(b[major], Pow2(minor)) != 0;
    AndPow(b[major], minor);
    assert r <==> Has(b[..], pos);
  }

  method Popcnt(b: array<Word>) returns (total: nat)
    ensures total == TotalOnes(b[..]) == |Members(b[..])|
  {
    total := 0;
    for i := 0 to b.Length
      invariant total == TotalOnes(b[..i])
    {
      assert b[..i + 1][..i] == b[..i];
      total := total + Ones(b[i]);
    }
    assert b[..] == b[..b.Length];
    TotalOnesCounts(b[..]);
  }

  method Hash(b: array<Word>) returns (hash: Word)
    ensures hash == HashOf(b[..])
  {
    var total := Popcnt(b);
    var start: Word := total % Pow2(64);
    hash := start;
    for i := 0 to b.Length
      invariant hash == Fold(b[..i], start)
    {
      assert b[..i + 1][..i] == b[..i];
      StaysWord(hash, b[i], 64);
      hash := Xor(hash, b[i]);
    }
    assert b[..] == b[..b.Length];
  }

  /** Word-wise comparison. */
  method Equals(a: array<Word>, b: seq<Word>) returns (same: bool)
    ensures same <==> a[..] == b
  {
    if a.Length != |b| { return false; }
    for i := 0 to a.Length
      invariant a[..i] == b[..i]
    {
      if a[i] != b[i] {
        assert a[..][i] != b[i];
        return false;
      }
    }
    assert a[..] == a[..a.Length] && b == b[..a.Length];
    return true;
  }
}
