/**
  scan1_DB and FPArray_scan2_DB: the frequent items of a conditional base are
  renumbered by descending support, and the base is inserted, renumbered, into
  a tree of its own.
 */
module CondTree {
  import opened FiniteSets
  import opened Itemsets
  import opened FPTree
  import opened FPArray
  import opened FrequentSets
  import opened PatternBase
  import opened DescendingSort

  /* ---------- the new numbering ---------- */

  lemma {:induction false} AtMostOnce<T(!new)>(s: seq<T>, x: T)
    requires Distinct(s)
    ensures multiset(s)[x] <= 1 && (x in s <==> multiset(s)[x] == 1)
  {
    if s != [] {
      var init := s[..|s| - 1];
      assert s == init + [s[|s| - 1]];
      AtMostOnce(init, x);
    }
  }

  lemma DistinctRearranged<T(!new)>(s: seq<T>, t: seq<T>)
    requires Distinct(s) && multiset(t) == multiset(s)
    ensures Distinct(t)
  {
    forall a, b | 0 <= a < b < |t| ensures t[a] != t[b] {
      AtMostOnce(s, t[a]);
      assert t == t[..b] + [t[b]] + t[b + 1..];
      assert multiset(t) == multiset(t[..b]) + multiset{t[b]} + multiset(t[b + 1..]);
      assert t[a] in t[..b];
    }
  }

  // The sorted items: table and count describe them, and back tells their old numbers.
  ghost predicate Renumbered(table': seq<nat>, count': seq<nat>, back: seq<nat>, freq: seq<nat>,
                             table: seq<nat>, base: seq<Transaction>)
  {
    && |table'| == |count'| == |back| && Distinct(back)
    && (forall x :: x in back <==> x in freq)
    && (forall y :: 0 <= y < |back| ==>
          back[y] < |table| && table'[y] == table[back[y]] && count'[y] == Support(base, {back[y]}))
  }

  // The old number of each sorted pair.
  ghost predicate Origin(s: seq<(int, int)>, t: seq<(int, int)>, freq: seq<nat>, back: seq<nat>, y: nat)
    requires |s| == |freq| && |back| == |t| && y < |t|
  {
    exists k :: 0 <= k < |s| && s[k] == t[y] && back[y] == freq[k]
  }

  lemma {:induction false} FindOrigins(s: seq<(int, int)>, t: seq<(int, int)>, freq: seq<nat>) returns (back: seq<nat>)
    requires |s| == |freq| && forall y :: 0 <= y < |t| ==> t[y] in s
    ensures |back| == |t| && forall y :: 0 <= y < |t| ==> Origin(s, t, freq, back, y)
  {
    if t == [] {
      back := [];
    } else {
      var init := t[..|t| - 1];
      var back0 := FindOrigins(s, init, freq);
      var k :| 0 <= k < |s| && s[k] == t[|t| - 1];
      back := back0 + [freq[k]];
      forall y | 0 <= y < |t| ensures Origin(s, t, freq, back, y) {
        if y < |t| - 1 {
          assert Origin(s, init, freq, back0, y);
          assert back[y] == back0[y] && t[y] == init[y];
        }
      }
    }
  }

  ghost predicate PairsOf(s: seq<(int, int)>, freq: seq<nat>, table: seq<nat>, base: seq<Transaction>) {
    |s| == |freq| && forall k :: 0 <= k < |freq| ==>
      freq[k] < |table| && s[k] == (Support(base, {freq[k]}), table[freq[k]])
  }

  lemma OriginGives(s: seq<(int, int)>, t: seq<(int, int)>, freq: seq<nat>, back: seq<nat>, table: seq<nat>,
                    base: seq<Transaction>, y: nat)
    requires PairsOf(s, freq, table, base) && |back| == |t| && y < |t| && Origin(s, t, freq, back, y)
    ensures back[y] in freq && back[y] < |table| && t[y] == (Support(base, {back[y]}), table[back[y]])
  {
  }

  lemma SortedIsRenumbered(s: seq<(int, int)>, t: seq<(int, int)>, freq: seq<nat>, table: seq<nat>,
                           base: seq<Transaction>, table': seq<nat>, count': seq<nat>) returns (back: seq<nat>)
    requires multiset(s) == multiset(t) && PairsOf(s, freq, table, base) && Distinct(table) && Distinct(freq)
    requires |table'| == |count'| == |t| && forall y :: 0 <= y < |t| ==> t[y] == (count'[y], table'[y])
    ensures Renumbered(table', count', back, freq, table, base)
  {
    assert Distinct(s);
    DistinctRearranged(s, t);
    forall y | 0 <= y < |t| ensures t[y] in s {
      assert t[y] in multiset(t);
    }
    back := FindOrigins(s, t, freq);
    forall y | 0 <= y < |t|
      ensures back[y] in freq && back[y] < |table| && t[y] == (Support(base, {back[y]}), table[back[y]])
    {
      OriginGives(s, t, freq, back, table, base, y);
    }
    hide Origin, PairsOf;
    forall a, b | 0 <= a < b < |back| ensures back[a] != back[b] {
      assert t[a] != t[b];
    }
    forall x | x in freq ensures x in back {
      AllOriginsFound(s, t, freq, back, table, base, x);
    }
  }

  lemma AllOriginsFound(s: seq<(int, int)>, t: seq<(int, int)>, freq: seq<nat>, back: seq<nat>, table: seq<nat>,
                        base: seq<Transaction>, x: nat)
    requires multiset(s) == multiset(t) && PairsOf(s, freq, table, base) && Distinct(table) && |back| == |t|
    requires forall y :: 0 <= y < |t| ==> back[y] < |table| && t[y] == (Support(base, {back[y]}), table[back[y]])
    requires x in freq
    ensures x in back
  {
    var k :| 0 <= k < |freq| && freq[k] == x;
    assert s[k] in multiset(s);
    assert s[k] in t;
    var y :| 0 <= y < |t| && t[y] == s[k];
    assert table[back[y]] == table[x];
    assert back[y] == x;
  }

  method SortItems(names: seq<nat>, counts: seq<nat>, ghost freq: seq<nat>, ghost table: seq<nat>,
                   ghost base: seq<Transaction>)
    returns (table': seq<nat>, count': seq<nat>, ghost back: seq<nat>)
    requires |names| == |counts| == |freq| && Distinct(table) && Distinct(freq)
    requires forall k :: 0 <= k < |freq| ==>
               freq[k] < |table| && names[k] == table[freq[k]] && counts[k] == Support(base, {freq[k]})
    ensures Renumbered(table', count', back, freq, table, base)
    ensures forall a, b :: 0 <= a < b < |count'| ==> count'[a] >= count'[b]
  {
    var n := |names|;
    var key := new int[n](i requires 0 <= i < n => counts[i]);
    var tag := new int[n](i requires 0 <= i < n => names[i]);
    ghost var s := Pairs(key, tag);
    Sort(key, tag, 0, n - 1);
    ghost var t := Pairs(key, tag);
    assert s[0..n] == s && t[0..n] == t;
    forall y | 0 <= y < n ensures key[y] >= 0 && tag[y] >= 0 {
      var k := RearrangedMember(s, t, 0, n, y);
      assert s[k] == (counts[k], names[k]);
    }
    count' := seq(n, i requires 0 <= i < n reads key => if key[i] >= 0 then key[i] else 0);
    table' := seq(n, i requires 0 <= i < n reads tag => if tag[i] >= 0 then tag[i] else 0);
    back := SortedIsRenumbered(s, t, freq, table, base, table', count');
    forall a, b | 0 <= a < b < n ensures count'[a] >= count'[b] {
      assert t[a].0 >= t[b].0;
    }
  }

  // Every item that occurs is sent to its new number, or to -1 when it is rare.
  ghost predicate Recodes(renum: seq<int>, back: seq<nat>, items: seq<nat>) {
    forall k :: 0 <= k < |items| ==>
      && items[k] < |renum|
      && (items[k] in back ==> 0 <= renum[items[k]] < |back| && back[renum[items[k]]] == items[k])
      && (items[k] !in back ==> renum[items[k]] == -1)
  }

  method AssignNumbers(table': seq<nat>, order0: map<nat, int>) returns (order: map<nat, int>)
    requires Distinct(table')
    ensures order0.Keys <= order.Keys
    ensures forall y :: 0 <= y < |table'| ==> table'[y] in order && order[table'[y]] == y
    ensures forall z :: z in order0 && z !in table' ==> order[z] == order0[z]
  {
    order := order0;
    for i := 0 to |table'|
      invariant order0.Keys <= order.Keys
      invariant forall y :: 0 <= y < i ==> table'[y] in order && order[table'[y]] == y
      invariant forall z :: z in order0 && z !in table' ==> order[z] == order0[z]
    {
      order := order[table'[i] := i];
    }
  }

  // No mark is left over from an earlier transaction.
  ghost predicate Unmarked(origin: array<bool>, n: nat)
    reads origin
  {
    origin.Length == n && forall y :: 0 <= y < n ==> !origin[y]
  }

  // Marks the new numbers of one transaction and then lists the marked ones in order.
  method Compact(cells: array<int>, mark: int, e: Entry, renum: seq<int>, n: nat, origin: array<bool>,
                 ghost items: seq<nat>, ghost back: seq<nat>)
    returns (compact: seq<nat>)
    requires ReadsUp(cells[..], e.begin, items, mark) && Recodes(renum, back, items) && |back| == n && Distinct(back)
    requires Unmarked(origin, n)
    modifies origin
    ensures Unmarked(origin, n)
    ensures Increasing(compact) && Below(compact, n) && Items(compact) == Preimage(back, Items(items))
  {
    var maxItemno, has := 0, 0;
    var j := 0;
    ghost var m := |items|;
    while cells[e.begin + j] != mark
      invariant 0 <= j <= m && has >= 0
      invariant forall y :: 0 <= y < n ==> (origin[y] <==> back[y] in items[m - j..])
      invariant forall y :: 0 <= y < n && origin[y] ==> y <= maxItemno
      invariant 0 <= maxItemno && (has > 0 ==> maxItemno < n)
      invariant has == 0 ==> maxItemno == 0 && forall y :: 0 <= y < n ==> !origin[y]
      decreases m - j
    {
      ReadsUpAt(cells[..], e.begin, items, mark, j);
      assert items[m - 1 - j..] == [items[m - 1 - j]] + items[m - j..];
      assert items[m - 1 - j] == cells[e.begin + j];
      var item := renum[cells[e.begin + j]];
      if item != -1 {
        origin[item] := true;
        has := has + 1;
        if item > maxItemno {
          maxItemno := item;
        }
      }
      j := j + 1;
    }
    ReadsUpAt(cells[..], e.begin, items, mark, j);
    assert items[0..] == items;
    compact := [];
    if has > 0 {
      compact := FillCount(origin, maxItemno);
    }
  }

  method FillCount(origin: array<bool>, maxItemno: nat) returns (compact: seq<nat>)
    requires maxItemno < origin.Length
    modifies origin
    ensures Increasing(compact) && Below(compact, maxItemno + 1)
    ensures forall y :: y in compact <==> 0 <= y <= maxItemno && old(origin[y])
    ensures forall y :: 0 <= y < origin.Length ==> origin[y] == (y > maxItemno && old(origin[y]))
  {
    compact := [];
    for i := 0 to maxItemno + 1
      invariant Increasing(compact) && Below(compact, i)
      invariant forall y :: y in compact <==> 0 <= y < i && old(origin[y])
      invariant forall y :: 0 <= y < origin.Length ==> origin[y] == (y >= i && old(origin[y]))
    {
      if origin[i] {
        compact := compact + [i];
        origin[i] := false;
      }
    }
  }

  // The tree holds the first k transactions of the base under their new numbers.
  ghost predicate Holds(db: seq<Transaction>, base: seq<Transaction>, back: seq<nat>) {
    forall Y :: Y != {} && InRange(Y, |back|) ==> Support(db, Y) == Support(base, Image(back, Y))
  }

  lemma HoldsOneMore(db: seq<Transaction>, base: seq<Transaction>, k: nat, back: seq<nat>, compact: seq<nat>)
    requires k < |base| && Holds(db, base[..k], back)
    requires Items(compact) == Preimage(back, Items(base[k].items))
    ensures Holds(if compact == [] then db else db + [Transaction(compact, base[k].weight)], base[..k + 1], back)
  {
    var t := Transaction(compact, base[k].weight);
    forall Y | Y != {} && InRange(Y, |back|)
      ensures Support(if compact == [] then db else db + [t], Y) == Support(base[..k + 1], Image(back, Y))
    {
      assert base[..k + 1] == base[..k] + [base[k]];
      SupportAppend(base[..k], base[k], Image(back, Y));
      SupportAppend(db, t, Y);
      RecodedTransaction(base[k].items, compact, back, Y);
    }
  }

  method BuildTree(cells: array<int>, mark: int, entries: seq<Entry>, renum: seq<int>, n: nat,
                   ghost base: seq<Transaction>, ghost back: seq<nat>, ghost x: nat)
    returns (tree: FPTree)
    requires Readable(cells[..], mark, entries, base, x) && |back| == n && Distinct(back)
    requires forall k :: 0 <= k < |base| ==> Recodes(renum, back, base[k].items)
    ensures fresh(tree) && tree.Valid() && tree.itemno == n && Holds(tree.db, base, back)
  {
    tree := new FPTree(n);
    var origin := new bool[n](_ => false);
    forall Y | Y != {} && InRange(Y, |back|) ensures Support([], Y) == Support(base[..0], Image(back, Y)) {
    }
    for k := 0 to |entries|
      invariant fresh(tree) && tree.Valid() && tree.itemno == n
      invariant Holds(tree.db, base[..k], back) && fresh(origin) && Unmarked(origin, n)
    {
      hide FPTree.Valid, Holds, ReadsUp, Recodes, Increasing, Below;
      var compact := Compact(cells, mark, entries[k], renum, n, origin, base[k].items, back);
      HoldsOneMore(tree.db, base, k, back, compact);
      if compact != [] {
        tree.Insert(compact, entries[k].count);
      }
    }
    assert base[..|entries|] == base;
  }
}
