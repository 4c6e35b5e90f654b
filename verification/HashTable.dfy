/**
  The chained hash table of dedup with dynamic expansion.  A chain is modelled by the
  sequence of its entries, a pointer to a next field by a position in it.
 */
module HashTable {
  import opened Wrappers

  datatype Entry<K, V> = Entry(h: nat, k: K, v: V)

  const PRIMES: seq<nat> := [
    53, 97, 193, 389, 769, 1543, 3079, 6151, 12289, 24593, 49157, 98317, 196613, 393241, 786433, 1572869,
    3145739, 6291469, 12582917, 25165843, 50331653, 100663319, 201326611, 402653189, 805306457, 1610612741]

  // The supplementary mixing; all arithmetic is modulo 2^32.
  function Mix(x: bv32): bv32 {
    var a := x + !(x << 9);
    var b := a ^ ((a >> 14) | (a << 18));
    var c := b + (b << 4);
    c ^ ((c >> 10) | (c << 22))
  }

  function IndexFor(length: nat, h: nat): (i: nat)
    requires length > 0
    ensures i < length
  {
    h % length
  }

  // The load limit: 65 percent, rounded up.
  function LoadLimit(size: nat): nat {
    (65 * size + 99) / 100
  }

  lemma LoadLimitIs(size: nat)
    ensures 100 * LoadLimit(size) >= 65 * size && (LoadLimit(size) > 0 ==> 100 * (LoadLimit(size) - 1) < 65 * size)
  {
  }

  /* ---------- all entries of a table ---------- */

  ghost function Bag<K, V>(table: seq<seq<Entry<K, V>>>): multiset<Entry<K, V>> {
    if table == [] then multiset{} else Bag(table[..|table| - 1]) + multiset(table[|table| - 1])
  }

  lemma BagSnoc<K, V>(table: seq<seq<Entry<K, V>>>, chain: seq<Entry<K, V>>)
    ensures Bag(table + [chain]) == Bag(table) + multiset(chain)
  {
    assert (table + [chain])[..|table|] == table;
  }

  lemma {:induction false} BagUpdate<K, V>(table: seq<seq<Entry<K, V>>>, i: nat, chain: seq<Entry<K, V>>)
    requires i < |table|
    ensures multiset(table[i]) <= Bag(table)
    ensures Bag(table[i := chain]) == Bag(table) - multiset(table[i]) + multiset(chain)
  {
    hide Bag;
    var n := |table| - 1;
    var front, last := table[..n], table[n];
    assert table == front + [last];
    BagSnoc(front, last);
    if i < n {
      BagUpdate(front, i, chain);
      assert table[i := chain] == front[i := chain] + [last];
      BagSnoc(front[i := chain], last);
    } else {
      assert table[i := chain] == front + [chain];
      BagSnoc(front, chain);
    }
  }

  lemma {:induction false} BagMembers<K, V>(table: seq<seq<Entry<K, V>>>, e: Entry<K, V>)
    ensures e in Bag(table) <==> exists i :: 0 <= i < |table| && e in table[i]
  {
    if table != [] {
      var n := |table| - 1;
      BagMembers(table[..n], e);
      if e in Bag(table[..n]) {
        var i :| 0 <= i < |table[..n]| && e in table[..n][i];
        assert e in table[i];
      }
      if i :| 0 <= i < |table| && e in table[i] {
        assert i < n ==> e in table[..n][i];
      }
    }
  }

  lemma {:induction false} BagEmpty<K, V>(table: seq<seq<Entry<K, V>>>)
    requires forall i :: 0 <= i < |table| ==> table[i] == []
    ensures Bag(table) == multiset{}
  {
    if table != [] { BagEmpty(table[..|table| - 1]); }
  }

  lemma {:induction false} BagJoin<K, V>(a: seq<seq<Entry<K, V>>>, b: seq<seq<Entry<K, V>>>)
    ensures Bag(a + b) == Bag(a) + Bag(b)
  {
    hide Bag;
    if b == [] {
      assert a + b == a;
      BagEmpty(b);
    } else {
      var n := |b| - 1;
      BagJoin(a, b[..n]);
      assert a + b == (a + b[..n]) + [b[n]] && b == b[..n] + [b[n]];
      BagSnoc(a + b[..n], b[n]);
      BagSnoc(b[..n], b[n]);
    }
  }

  // Entry e of bucket i is where a search in a table of this length looks for it.
  ghost predicate InPlace<K, V>(e: Entry<K, V>, i: nat, length: nat) {
    length > 0 && IndexFor(length, e.h) == i
  }

  ghost predicate ChainInPlace<K, V>(chain: seq<Entry<K, V>>, i: nat, length: nat) {
    forall j :: 0 <= j < |chain| ==> InPlace(chain[j], i, length)
  }

  ghost predicate TableInPlace<K, V>(table: seq<seq<Entry<K, V>>>, length: nat) {
    forall i :: 0 <= i < |table| ==> ChainInPlace(table[i], i, length)
  }

  // Every entry is in the chain whose number is its hash value modulo the length.
  lemma InPlaceIs<K, V>(table: seq<seq<Entry<K, V>>>)
    ensures TableInPlace(table, |table|) <==>
      forall i, j :: 0 <= i < |table| && 0 <= j < |table[i]| ==> table[i][j].h % |table| == i
  {
    if TableInPlace(table, |table|) {
      forall i, j | 0 <= i < |table| && 0 <= j < |table[i]| ensures table[i][j].h % |table| == i {
        assert ChainInPlace(table[i], i, |table|);
        assert InPlace(table[i][j], i, |table|);
      }
    }
  }

  /* ---------- the two plans for a larger table ---------- */

  // e->next = newtable[index]; newtable[index] = e
  function Pushed<K, V>(table: seq<seq<Entry<K, V>>>, e: Entry<K, V>): (r: seq<seq<Entry<K, V>>>)
    requires |table| > 0
    ensures |r| == |table|
  {
    var index := IndexFor(|table|, e.h);
    table[index := [e] + table[index]]
  }

  lemma PushedBag<K, V>(table: seq<seq<Entry<K, V>>>, e: Entry<K, V>)
    requires |table| > 0
    ensures Bag(Pushed(table, e)) == Bag(table) + multiset{e}
  {
    hide Bag;
    var index := IndexFor(|table|, e.h);
    BagUpdate(table, index, [e] + table[index]);
    assert multiset([e] + table[index]) == multiset{e} + multiset(table[index]);
  }

  lemma PushedInPlace<K, V>(table: seq<seq<Entry<K, V>>>, e: Entry<K, V>, i: nat)
    requires i < |table| && ChainInPlace(table[i], i, |table|)
    ensures ChainInPlace(Pushed(table, e)[i], i, |table|)
  {
  }

  lemma PushedOk<K, V>(table: seq<seq<Entry<K, V>>>, e: Entry<K, V>)
    requires |table| > 0
    ensures Bag(Pushed(table, e)) == Bag(table) + multiset{e}
    ensures TableInPlace(table, |table|) ==> TableInPlace(Pushed(table, e), |table|)
  {
    hide ChainInPlace, Bag, Pushed;
    PushedBag(table, e);
    if TableInPlace(table, |table|) {
      forall i | 0 <= i < |table| ensures ChainInPlace(Pushed(table, e)[i], i, |table|) {
        PushedInPlace(table, e, i);
      }
    }
  }

  lemma EmptyInPlace<K, V>(table: seq<seq<Entry<K, V>>>)
    requires forall i :: 0 <= i < |table| ==> table[i] == []
    ensures TableInPlace(table, |table|)
  {
  }

  // h->table[i] = e->next
  lemma FirstOut<K, V>(table: seq<seq<Entry<K, V>>>, i: nat)
    requires i < |table| && table[i] != []
    ensures Bag(table[i := table[i][1..]]) + multiset{table[i][0]} == Bag(table)
  {
    hide Bag;
    BagUpdate(table, i, table[i][1..]);
    assert table[i] == [table[i][0]] + table[i][1..];
  }

  // Plan A: move every entry to a fresh table.
  method Transfer<K, V>(old0: seq<seq<Entry<K, V>>>, newsize: nat) returns (fresh0: seq<seq<Entry<K, V>>>)
    requires newsize > 0
    ensures |fresh0| == newsize && TableInPlace(fresh0, newsize) && Bag(fresh0) == Bag(old0)
  {
    hide Bag, TableInPlace, Pushed;
    var table := old0;
    fresh0 := seq(newsize, _ => []);
    BagEmpty(fresh0);
    EmptyInPlace(fresh0);
    var i := 0;
    while i < |table|
      invariant 0 <= i <= |table| == |old0| && |fresh0| == newsize && TableInPlace(fresh0, newsize)
      invariant Bag(fresh0) + Bag(table) == Bag(old0)
      invariant forall u :: 0 <= u < i ==> table[u] == []
    {
      while table[i] != []
        invariant |table| == |old0| && |fresh0| == newsize && TableInPlace(fresh0, newsize)
        invariant Bag(fresh0) + Bag(table) == Bag(old0)
        invariant forall u :: 0 <= u < i ==> table[u] == []
        decreases |table[i]|
      {
        var e := table[i][0];
        FirstOut(table, i);
        PushedOk(fresh0, e);
        table := table[i := table[i][1..]];
        fresh0 := Pushed(fresh0, e);
      }
      i := i + 1;
    }
    BagEmpty(table);
  }

  // Plan B: grow the table where it is.  Each chain is walked once; what belongs elsewhere
  // is unlinked and pushed on its chain, be that chain before or behind the walk.
  method Rehash<K, V>(old0: seq<seq<Entry<K, V>>>, newsize: nat) returns (table: seq<seq<Entry<K, V>>>)
    requires 0 < |old0| <= newsize
    ensures |table| == newsize && TableInPlace(table, newsize) && Bag(table) == Bag(old0)
  {
    hide Bag, ChainInPlace, Pushed;
    var more: seq<seq<Entry<K, V>>> := seq(newsize - |old0|, _ => []);
    table := old0 + more;
    BagEmpty(more);
    BagJoin(old0, more);
    NothingToDo(old0, more);
    var i := 0;
    while i < |old0|
      invariant 0 <= i <= |old0| <= newsize == |table| && Bag(table) == Bag(old0)
      invariant forall u :: (0 <= u < i || |old0| <= u < newsize) ==> ChainInPlace(table[u], u, newsize)
    {
      var j := 0;
      ChainStart(table[i], i, newsize);
      while j < |table[i]|
        invariant |table| == newsize && Bag(table) == Bag(old0)
        invariant forall u :: (0 <= u < i || |old0| <= u < newsize) ==> ChainInPlace(table[u], u, newsize)
        invariant 0 <= j <= |table[i]| && ChainInPlace(table[i][..j], i, newsize)
        decreases |table[i]| - j
      {
        var e := table[i][j];
        var index := IndexFor(newsize, e.h);
        if index == i {
          ChainGrows(table[i], j, i, newsize);
          j := j + 1;
        } else {
          var unlinked := table[i := table[i][..j] + table[i][j + 1..]];
          Unlinked(table, i, j);
          PushedBag(unlinked, e);
          PushedElsewhere(unlinked, e, i);
          forall u | 0 <= u < i || |old0| <= u < newsize ensures ChainInPlace(Pushed(unlinked, e)[u], u, newsize) {
            PushedInPlace(unlinked, e, u);
          }
          table := Pushed(unlinked, e);
        }
      }
      assert table[i][..j] == table[i];
      i := i + 1;
    }
  }

  lemma NothingToDo<K, V>(a: seq<seq<Entry<K, V>>>, more: seq<seq<Entry<K, V>>>)
    requires forall i :: 0 <= i < |more| ==> more[i] == []
    ensures forall u :: |a| <= u < |a + more| ==> ChainInPlace((a + more)[u], u, |a + more|)
  {
  }

  lemma ChainStart<K, V>(chain: seq<Entry<K, V>>, i: nat, length: nat)
    ensures ChainInPlace(chain[..0], i, length)
  {
  }

  lemma ChainGrows<K, V>(chain: seq<Entry<K, V>>, j: nat, i: nat, length: nat)
    requires j < |chain| && length > 0 && ChainInPlace(chain[..j], i, length) && IndexFor(length, chain[j].h) == i
    ensures ChainInPlace(chain[..j + 1], i, length)
  {
    var grown := chain[..j + 1];
    forall k | 0 <= k < |grown| ensures InPlace(grown[k], i, length) {
      assert k < j ==> grown[k] == chain[..j][k];
    }
  }

  lemma Unlinked<K, V>(table: seq<seq<Entry<K, V>>>, i: nat, j: nat)
    requires i < |table| && j < |table[i]|
    ensures var unlinked := table[i := table[i][..j] + table[i][j + 1..]];
      Bag(unlinked) + multiset{table[i][j]} == Bag(table) && unlinked[i][..j] == table[i][..j]
  {
    hide Bag;
    var chain := table[i];
    assert chain == chain[..j] + [chain[j]] + chain[j + 1..];
    BagUpdate(table, i, chain[..j] + chain[j + 1..]);
  }

  lemma PushedElsewhere<K, V>(table: seq<seq<Entry<K, V>>>, e: Entry<K, V>, i: nat)
    requires i < |table| && IndexFor(|table|, e.h) != i
    ensures Pushed(table, e)[i] == table[i]
  {
  }

  /* ---------- the table ---------- */

  class Table<K(==), V> {
    const hashfn: K -> bv32
    var table: seq<seq<Entry<K, V>>>
    var primeindex: nat
    var entrycount: nat
    var loadlimit: nat

    function Hash(k: K): nat
      reads this
    {
      Mix(hashfn(k)) as nat
    }

    ghost predicate HashesOk()
      reads this
    {
      forall e :: e in Bag(table) ==> e.h == Hash(e.k)
    }

    ghost predicate Placed()
      reads this
    {
      && primeindex < |PRIMES| && |table| == PRIMES[primeindex]
      && TableInPlace(table, |table|) && HashesOk()
    }

    ghost predicate Valid()
      reads this
    {
      Placed() && entrycount == |Bag(table)|
    }

    // The entries as pairs of key and value: what a user has put in and not taken out.
    ghost function Pairs(): multiset<Entry<K, V>>
      reads this
    {
      Bag(table)
    }

    // hashtable_create; ok is false when the table would be too large.
    constructor (minsize: nat, hashfn: K -> bv32)
      requires minsize <= 0x40000000
      ensures Valid() && Pairs() == multiset{} && this.hashfn == hashfn
    {
      var pindex := 0;
      while pindex < |PRIMES| && PRIMES[pindex] <= minsize
        invariant 0 <= pindex < |PRIMES|
      {
        pindex := pindex + 1;
      }
      var t: seq<seq<Entry<K, V>>> := seq(PRIMES[pindex], _ => []);
      BagEmpty(t);
      this.hashfn, table, primeindex, entrycount := hashfn, t, pindex, 0;
      loadlimit := LoadLimit(PRIMES[pindex]);
    }

    // memory and realloc say which of the allocations succeed.
    method Expand(memory: bool, realloc: bool) returns (ok: bool)
      requires Placed()
      modifies this`table, this`primeindex, this`loadlimit
      ensures Placed() && Pairs() == old(Pairs())
      ensures ok == (old(primeindex) < |PRIMES| - 1 && (memory || realloc))
      ensures primeindex == old(primeindex) + if ok then 1 else 0
    {
      hide Bag, TableInPlace;
      if primeindex == |PRIMES| - 1 { return false; }
      primeindex := primeindex + 1;
      var newsize := PRIMES[primeindex];
      if memory {
        table := Transfer(table, newsize);
      } else if realloc {
        table := Rehash(table, newsize);
      } else {
        primeindex := primeindex - 1;
        return false;
      }
      loadlimit := LoadLimit(newsize);
      ok := true;
    }

    // Duplicate keys are allowed.  stored says whether there is memory for the entry.
    method Insert(k: K, v: V, memory: bool, realloc: bool, stored: bool) returns (ok: bool)
      requires Valid()
      modifies this`table, this`primeindex, this`loadlimit, this`entrycount
      ensures Valid() && ok == stored
      ensures Pairs() == old(Pairs()) + if ok then multiset{Entry(Hash(k), k, v)} else multiset{}
    {
      hide Bag, TableInPlace, Pushed;
      entrycount := entrycount + 1;
      if entrycount > loadlimit {
        var grown := Expand(memory, realloc);
      }
      if !stored {
        entrycount := entrycount - 1;
        return false;
      }
      Link(Entry(Hash(k), k, v));
      ok := true;
    }

    // e->next = table[index]; table[index] = e
    method Link(e: Entry<K, V>)
      requires Placed() && e.h == Hash(e.k)
      modifies this`table
      ensures Placed() && Pairs() == old(Pairs()) + multiset{e}
    {
      hide Bag, TableInPlace, Pushed;
      assert |table| > 0;
      PushedOk(table, e);
      table := Pushed(table, e);
    }

    lemma EntryThere(index: nat, j: nat)
      requires Placed() && index < |table| && j < |table[index]|
      ensures table[index][j] in Pairs() && table[index][j].h == Hash(table[index][j].k)
    {
      hide Bag;
      BagMembers(table, table[index][j]);
      assert table[index][j] in table[index];
    }

    lemma NotThere(k: K)
      requires Placed() && |table| > 0
      requires forall i :: 0 <= i < |table[IndexFor(|table|, Hash(k))]| ==> table[IndexFor(|table|, Hash(k))][i].k != k
      ensures forall e :: e in Pairs() ==> e.k != k
    {
      hide Bag;
      forall e | e in Pairs() ensures e.k != k {
        OnlyHere(k, e);
      }
    }

    method Search(k: K) returns (r: Option<V>)
      requires Valid()
      ensures r.Some? ==> Entry(Hash(k), k, r.value) in Pairs()
      ensures r.None? ==> forall e :: e in Pairs() ==> e.k != k
    {
      hide Bag, TableInPlace, HashesOk;
      assert |table| > 0;
      var hashvalue := Hash(k);
      var index := IndexFor(|table|, hashvalue);
      var chain, j := table[index], 0;
      while j < |chain|
        invariant 0 <= j <= |chain| && forall i :: 0 <= i < j ==> chain[i].k != k
      {
        var e := chain[j];
        EntryThere(index, j);
        if hashvalue == e.h && k == e.k { return Some(e.v); }
        j := j + 1;
      }
      NotThere(k);
      return None;
    }

    // An entry with key k can only be in the chain that k leads to.
    lemma OnlyHere(k: K, e: Entry<K, V>)
      requires Placed() && e in Pairs()
      ensures |table| > 0 && (e.k == k ==> e in table[IndexFor(|table|, Hash(k))])
    {
      hide Bag;
      BagMembers(table, e);
      var i :| 0 <= i < |table| && e in table[i];
      var j :| 0 <= j < |table[i]| && table[i][j] == e;
      assert ChainInPlace(table[i], i, |table|);
      assert InPlace(table[i][j], i, |table|);
    }

    method Remove(k: K) returns (r: Option<V>)
      requires Valid()
      modifies this`table, this`entrycount
      ensures Valid()
      ensures r.Some? ==> Entry(Hash(k), k, r.value) in old(Pairs()) && Pairs() == old(Pairs()) - multiset{Entry(Hash(k), k, r.value)}
      ensures r.None? ==> Pairs() == old(Pairs()) && forall e :: e in Pairs() ==> e.k != k
    {
      hide Bag, TableInPlace, HashesOk;
      assert |table| > 0;
      var hashvalue := Hash(k);
      var index := IndexFor(|table|, hashvalue);
      var chain, j := table[index], 0;
      while j < |chain|
        invariant table == old(table) && entrycount == old(entrycount)
        invariant 0 <= j <= |chain| && forall i :: 0 <= i < j ==> chain[i].k != k
      {
        var e := chain[j];
        EntryThere(index, j);
        if hashvalue == e.h && k == e.k {
          Unlink(index, j);
          return Some(e.v);
        }
        j := j + 1;
      }
      NotThere(k);
      return None;
    }

    // *pE = e->next
    method Unlink(index: nat, j: nat)
      requires Valid() && index < |table| && j < |table[index]|
      modifies this`table, this`entrycount
      ensures Valid() && old(table[index][j]) in old(Pairs())
      ensures Pairs() == old(Pairs()) - multiset{old(table[index][j])}
    {
      hide Bag;
      var e := table[index][j];
      Unlinked(table, index, j);
      BagMembers(table, e);
      assert e in Bag(table);
      UnlinkedInPlace(table, index, j);
      table := table[index := table[index][..j] + table[index][j + 1..]];
      entrycount := entrycount - 1;
    }
  }

  lemma UnlinkedInPlace<K, V>(table: seq<seq<Entry<K, V>>>, i: nat, j: nat)
    requires i < |table| && j < |table[i]| && TableInPlace(table, |table|)
    ensures TableInPlace(table[i := table[i][..j] + table[i][j + 1..]], |table|)
  {
    var after := table[i := table[i][..j] + table[i][j + 1..]];
    forall u | 0 <= u < |after| ensures ChainInPlace(after[u], u, |table|) {
      assert ChainInPlace(table[u], u, |table|);
      if u == i {
        forall k | 0 <= k < |after[i]| ensures InPlace(after[i][k], i, |table|) {
          assert after[i][k] == table[i][if k < j then k else k + 1];
        }
      }
    }
  }

  /* ---------- with distinct keys: a map ---------- */

  // The entries are those of m, each once.
  ghost predicate Represents<K, V>(bag: multiset<Entry<K, V>>, m: map<K, V>, hash: K -> nat) {
    && (forall e :: e in bag ==> bag[e] == 1 && e.k in m && m[e.k] == e.v && e.h == hash(e.k))
    && (forall k :: k in m ==> Entry(hash(k), k, m[k]) in bag)
  }

  lemma MapInsert<K, V>(bag: multiset<Entry<K, V>>, m: map<K, V>, hash: K -> nat, k: K, v: V)
    requires Represents(bag, m, hash) && k !in m
    ensures Represents(bag + multiset{Entry(hash(k), k, v)}, m[k := v], hash)
  {
  }

  lemma MapRemove<K, V>(bag: multiset<Entry<K, V>>, m: map<K, V>, hash: K -> nat, k: K, v: V)
    requires Represents(bag, m, hash) && Entry(hash(k), k, v) in bag
    ensures k in m && m[k] == v && Represents(bag - multiset{Entry(hash(k), k, v)}, m - {k}, hash)
  {
  }

  lemma MapMisses<K, V>(bag: multiset<Entry<K, V>>, m: map<K, V>, hash: K -> nat, k: K)
    requires Represents(bag, m, hash) && forall e :: e in bag ==> e.k != k
    ensures k !in m
  {
  }

  // The calls of a user.
  datatype Op<K, V> = Put(k: K, v: V) | Get(k: K) | Delete(k: K)

  // What a map would answer, and become.
  function Answer<K(==), V>(m: map<K, V>, op: Op<K, V>): Option<V> {
    match op
    case Put(_, _) => None
    case Get(k) => if k in m then Some(m[k]) else None
    case Delete(k) => if k in m then Some(m[k]) else None
  }

  function After<K(==), V>(m: map<K, V>, op: Op<K, V>): map<K, V> {
    match op
    case Put(k, v) => m[k := v]
    case Get(_) => m
    case Delete(k) => m - {k}
  }

  function AfterAll<K(==), V>(ops: seq<Op<K, V>>): map<K, V> {
    if ops == [] then map[] else After(AfterAll(ops[..|ops| - 1]), ops[|ops| - 1])
  }

  // No key is put that is in the map already.
  ghost predicate Distinct<K, V>(ops: seq<Op<K, V>>) {
    forall i :: 0 <= i < |ops| ==> FreshPut(ops, i)
  }

  ghost predicate FreshPut<K, V>(ops: seq<Op<K, V>>, i: nat)
    requires i < |ops|
  {
    ops[i].Put? ==> ops[i].k !in AfterAll(ops[..i])
  }

  method Apply<K(==), V>(t: Table<K, V>, op: Op<K, V>, memory: bool, realloc: bool, ghost m: map<K, V>, ghost hash: K -> nat)
    returns (r: Option<V>)
    requires t.Valid() && Represents(t.Pairs(), m, hash) && (forall k :: t.Hash(k) == hash(k))
    requires op.Put? ==> op.k !in m
    modifies t
    ensures t.Valid() && Represents(t.Pairs(), After(m, op), hash) && r == Answer(m, op)
  {
    hide Bag, Represents;
    match op
    case Put(k, v) =>
      MapInsert(t.Pairs(), m, hash, k, v);
      var ok := t.Insert(k, v, memory, realloc, true);
      r := None;
    case Get(k) =>
      r := t.Search(k);
      if r.Some? { MapRemove(t.Pairs(), m, hash, k, r.value); } else { MapMisses(t.Pairs(), m, hash, k); }
    case Delete(k) =>
      ghost var was := t.Pairs();
      r := t.Remove(k);
      if r.Some? {
        MapRemove(was, m, hash, k, r.value);
      } else {
        MapMisses(was, m, hash, k);
        assert m - {k} == m;
      }
  }

  // Any run of operations, through any number of expansions by either plan or none, answers like a map.
  method Perform<K(==), V>(minsize: nat, hashfn: K -> bv32, ops: seq<Op<K, V>>, allocations: seq<(bool, bool)>)
    returns (answers: seq<Option<V>>)
    requires minsize <= 0x40000000 && Distinct(ops) && |allocations| == |ops|
    ensures |answers| == |ops| && forall i :: 0 <= i < |ops| ==> AnswerIs(answers[i], ops, i)
  {
    hide *;
    var t := new Table(minsize, hashfn);
    ghost var hash: K -> nat := HashOf(hashfn);
    answers := [];
    var i := 0;
    BeforeAll(ops);
    NoEntries<K, V>(hash);
    while i < |ops|
      invariant 0 <= i <= |ops| && |answers| == i
      invariant t.Valid() && fresh(t) && t.hashfn == hashfn && Represents(t.Pairs(), AfterAll(ops[..i]), hash)
      invariant forall j :: 0 <= j < i ==> AnswerIs(answers[j], ops, j)
    {
      OpIsFresh(ops, i);
      HashAgrees(t, hashfn);
      var r := Apply(t, ops[i], allocations[i].0, allocations[i].1, AfterAll(ops[..i]), hash);
      IsAnswer(r, ops, i);
      answers := answers + [r];
      i := i + 1;
    }
  }

  // Operation i answered r, as a map would.
  ghost predicate AnswerIs<K, V>(r: Option<V>, ops: seq<Op<K, V>>, i: nat)
    requires i < |ops|
  {
    r == Answer(AfterAll(ops[..i]), ops[i])
  }

  lemma IsAnswer<K, V>(r: Option<V>, ops: seq<Op<K, V>>, i: nat)
    requires i < |ops|
    ensures AnswerIs(r, ops, i) <==> r == Answer(AfterAll(ops[..i]), ops[i])
  {
  }

  ghost function HashOf<K>(hashfn: K -> bv32): K -> nat {
    k => Mix(hashfn(k)) as nat
  }

  lemma HashAgrees<K, V>(t: Table<K, V>, hashfn: K -> bv32)
    requires t.hashfn == hashfn
    ensures forall k :: t.Hash(k) == HashOf(hashfn)(k)
  {
    hide Mix;
  }

  lemma BeforeAll<K, V>(ops: seq<Op<K, V>>)
    ensures AfterAll(ops[..0]) == map[]
  {
  }

  lemma OpIsFresh<K, V>(ops: seq<Op<K, V>>, i: nat)
    requires Distinct(ops) && i < |ops|
    ensures ops[i].Put? ==> ops[i].k !in AfterAll(ops[..i])
    ensures AfterAll(ops[..i + 1]) == After(AfterAll(ops[..i]), ops[i])
  {
    hide After;
    assert FreshPut(ops, i);
    assert ops[..i + 1][..i] == ops[..i];
  }

  lemma NoEntries<K, V>(hash: K -> nat)
    ensures Represents<K, V>(multiset{}, map[], hash)
  {
  }
}
