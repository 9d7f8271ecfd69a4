/** What reads and writes of keys leave behind, said directly: the value of a key is what the last put on it wrote,
    followed by what later appends on it added. */
module Writes {

  datatype Access = Read(key: string) | Put(key: string, value: string) | Append(key: string, value: string)

  predicate IsPut(a: Access, key: string)
  {
    a.Put? && a.key == key
  }

  predicate IsAppend(a: Access, key: string)
  {
    a.Append? && a.key == key
  }

  /** Some access writes the key. */
  ghost predicate Written(accesses: seq<Access>, key: string)
  {
    exists i :: 0 <= i < |accesses| && (IsPut(accesses[i], key) || IsAppend(accesses[i], key))
  }

  /** The position after the last put on the key, or 0. */
  function AfterLastPut(accesses: seq<Access>, key: string): (p: nat)
    ensures p <= |accesses|
    ensures p > 0 ==> IsPut(accesses[p - 1], key)
    ensures forall i :: p <= i < |accesses| ==> !IsPut(accesses[i], key)
  {
    if |accesses| == 0 then 0
    else if IsPut(accesses[|accesses| - 1], key) then |accesses|
    else AfterLastPut(accesses[..|accesses| - 1], key)
  }

  /** What the appends on the key add, in order. */
  function Added(accesses: seq<Access>, key: string): string
  {
    if |accesses| == 0 then "" else
    var last := accesses[|accesses| - 1];
    Added(accesses[..|accesses| - 1], key) + if IsAppend(last, key) then last.value else ""
  }

  function Value(accesses: seq<Access>, key: string): string
  {
    var p := AfterLastPut(accesses, key);
    (if p > 0 then accesses[p - 1].value else "") + Added(accesses[p..], key)
  }

  /** What one more access does to the value. */
  lemma ValueMore(accesses: seq<Access>, a: Access, key: string)
    ensures Value(accesses + [a], key) ==
            if IsPut(a, key) then a.value else if IsAppend(a, key) then Value(accesses, key) + a.value else Value(accesses, key)
  {
    var longer := accesses + [a];
    assert longer[..|accesses|] == accesses;
    if !IsPut(a, key) {
      var p := AfterLastPut(accesses, key);
      assert AfterLastPut(longer, key) == p;
      assert longer[p..][..|accesses| - p] == accesses[p..];
      assert longer[p..][|accesses| - p] == a;
    } else {
      assert longer[|longer|..] == [];
    }
  }

  lemma WrittenMore(accesses: seq<Access>, a: Access, key: string)
    ensures Written(accesses + [a], key) <==> Written(accesses, key) || IsPut(a, key) || IsAppend(a, key)
  {
    var longer := accesses + [a];
    if Written(accesses, key) {
      var i :| 0 <= i < |accesses| && (IsPut(accesses[i], key) || IsAppend(accesses[i], key));
      assert longer[i] == accesses[i];
    }
    assert longer[|accesses|] == a;
  }

  /** The store holds exactly the keys that were written, each with its value. */
  ghost predicate StoreOf(store: map<string, string>, accesses: seq<Access>)
  {
    forall key :: KeyOf(store, accesses, key)
  }

  ghost predicate KeyOf(store: map<string, string>, accesses: seq<Access>, key: string)
  {
    (key in store <==> Written(accesses, key)) && (key in store ==> store[key] == Value(accesses, key))
  }

  /** Reading a key that is not there gives the empty string, which is its value. */
  lemma {:induction false} UnwrittenIsEmpty(accesses: seq<Access>, key: string)
    requires !Written(accesses, key)
    ensures Value(accesses, key) == ""
  {
    if |accesses| > 0 {
      var shorter, last := accesses[..|accesses| - 1], accesses[|accesses| - 1];
      assert accesses == shorter + [last];
      WrittenMore(shorter, last, key);
      ValueMore(shorter, last, key);
      UnwrittenIsEmpty(shorter, key);
    }
  }

  /** What one more access must do to a store. */
  ghost predicate Changes(store: map<string, string>, a: Access, store': map<string, string>)
  {
    && (forall key :: key != a.key || a.Read? ==> (key in store' <==> key in store) && (key in store ==> store'[key] == store[key]))
    && (a.Put? ==> a.key in store' && store'[a.key] == a.value)
    && (a.Append? ==> a.key in store' && store'[a.key] == (if a.key in store then store[a.key] else "") + a.value)
  }

  lemma StoreMore(store: map<string, string>, accesses: seq<Access>, a: Access, store': map<string, string>)
    requires StoreOf(store, accesses) && Changes(store, a, store')
    ensures StoreOf(store', accesses + [a])
  {
    forall key
      ensures KeyOf(store', accesses + [a], key)
    {
      assert KeyOf(store, accesses, key);
      hide Value, Written;
      ValueMore(accesses, a, key);
      WrittenMore(accesses, a, key);
      if !Written(accesses, key) { UnwrittenIsEmpty(accesses, key); }
    }
  }

  lemma NothingStored()
    ensures StoreOf(map[], [])
  {
  }
}
