/**
  FP_growth: the recursive miner of freqmine, for one thread.
 */
module Miner {
  import opened FiniteSets
  import opened Itemsets
  import opened Numbers
  import opened FPTree
  import opened FPArray
  import opened FrequentSets
  import opened PatternBase
  import opened CondTree
  import opened SinglePath
  import opened Narrowing

  // The sets of `sets` are counted in itlen by their size on top of `depth`.
  ghost predicate Tallied(itlen: seq<nat>, itlen': seq<nat>, sets: seq<set<nat>>, depth: nat) {
    |itlen'| == |itlen| && forall k :: 0 <= k < |itlen| ==> itlen'[k] == itlen[k] + CountSize(sets, k + 1 - depth)
  }

  lemma TalliedConcat(i0: seq<nat>, i1: seq<nat>, i2: seq<nat>, s: seq<set<nat>>, t: seq<set<nat>>, depth: nat)
    requires Tallied(i0, i1, s, depth) && Tallied(i1, i2, t, depth)
    ensures Tallied(i0, i2, s + t, depth)
  {
    forall k | 0 <= k < |i0| ensures i2[k] == i0[k] + CountSize(s + t, k + 1 - depth) {
      CountSizeConcat(s, t, k + 1 - depth);
    }
  }

  lemma TalliedShift(i0: seq<nat>, i1: seq<nat>, s: seq<set<nat>>, t: seq<set<nat>>, d: nat, depth: nat)
    requires Tallied(i0, i1, s, depth + d)
    requires |s| == |t| && forall k :: 0 <= k < |s| ==> |t[k]| == |s[k]| + d
    ensures Tallied(i0, i1, t, depth)
  {
    forall k | 0 <= k < |i0| ensures i1[k] == i0[k] + CountSize(t, k + 1 - depth) {
      CountSizeShift(s, t, d, k + 1 - depth);
      assert k + 1 - depth - d == k + 1 - (depth + d);
    }
  }

  lemma TalliedNone(itlen: seq<nat>, depth: nat)
    ensures Tallied(itlen, itlen, [], depth)
  {
    assert forall m :: CountSize([], m) == 0;
  }

  lemma TalliedOne(itlen: seq<nat>, X: set<nat>, depth: nat)
    requires |X| == 1 && depth < |itlen|
    ensures Tallied(itlen, itlen[depth := itlen[depth] + 1], [X], depth)
  {
    forall m ensures CountSize([X], m) == if m == 1 then 1 else 0 {
      assert [X][..0] == [];
    }
  }

  /* ---------- the single-path shortcut ---------- */

  // The running product of binomial coefficients, added to itlen from `depth` on.
  method TallySubsets(itlen0: seq<nat>, n: nat, depth: nat) returns (itlen: seq<nat>)
    requires depth + n <= |itlen0|
    ensures Tallied(itlen0, itlen, Subsets({}, 0, n), depth)
  {
    itlen := itlen0;
    var temp := 1;
    var i1, i2 := 1, n;
    while i1 <= n
      invariant 1 <= i1 <= n + 1 && i2 == n - i1 + 1 && |itlen| == |itlen0|
      invariant temp == Choose(n, i1 - 1)
      invariant forall k :: 0 <= k < |itlen| ==>
                  itlen[k] == itlen0[k] + if depth <= k < depth + i1 - 1 then Choose(n, k + 1 - depth) else 0
    {
      ChooseStep(n, i1);
      assert temp * i2 == Choose(n, i1) * i1;
      temp := ExactQuotient(temp * i2, i1, Choose(n, i1));
      itlen := itlen[depth + i1 - 1 := itlen[depth + i1 - 1] + temp];
      i1, i2 := i1 + 1, i2 - 1;
    }
    forall k | 0 <= k < |itlen| ensures itlen[k] == itlen0[k] + CountSize(Subsets({}, 0, n), k + 1 - depth) {
      if k + 1 - depth >= 1 {
        SubsetsCount({}, 0, n, k + 1 - depth);
      } else {
        SubsetsNonempty(n, k + 1 - depth);
      }
    }
  }

  method ExactQuotient(a: nat, b: nat, ghost q: nat) returns (r: nat)
    requires b > 0 && a == q * b
    ensures r == q
  {
    r := a / b;
    DivModUnique(a, b, q, 0);
  }

  lemma SubsetsNonempty(n: nat, m: int)
    requires m <= 0
    ensures CountSize(Subsets({}, 0, n), m) == 0
  {
    SubsetsMembers({}, 0, n);
    var s := Subsets({}, 0, n);
    forall k | 0 <= k < |s| ensures |s[k]| >= 1 {
      assert s[k] in s;
    }
    NoSmallSets(s, m);
  }

  lemma {:induction false} NoSmallSets(s: seq<set<nat>>, m: int)
    requires m <= 0 && forall k :: 0 <= k < |s| ==> |s[k]| >= 1
    ensures CountSize(s, m) == 0
  {
    if s != [] {
      NoSmallSets(s[..|s| - 1], m);
    }
  }

  /* ---------- glue ---------- */

  lemma {:induction false} OccursMeansSupport(base: seq<Transaction>, k: nat, z: nat)
    requires k < |base| && z in base[k].items && base[k].weight > 0
    ensures Support(base, {z}) > 0
  {
    if k < |base| - 1 {
      assert base[..|base| - 1][k] == base[k];
      OccursMeansSupport(base[..|base| - 1], k, z);
    }
  }

  // Whatever number an item had before, the ones that occur now have their new number or -1.
  lemma NumbersRecode(base: seq<Transaction>, k: nat, i: nat, freq: seq<nat>, threshold: nat, table: seq<nat>,
                      table': seq<nat>, count': seq<nat>, back: seq<nat>,
                      order0: map<nat, int>, order: map<nat, int>, renum: seq<int>)
    requires k < |base| && base[k].weight > 0 && Below(base[k].items, i) && i <= |table| && Distinct(table)
    requires FrequentItems(freq, base, threshold, i) && Renumbered(table', count', back, freq, table, base)
    requires forall x :: 0 <= x < i && 0 < Support(base, {x}) < threshold ==>
               table[x] in order0 && order0[table[x]] == -1
    requires forall y :: 0 <= y < |table'| ==> table'[y] in order && order[table'[y]] == y
    requires forall z :: z in order0 && z !in table' ==> z in order && order[z] == order0[z]
    requires |renum| == i && forall x :: 0 <= x < i ==> table[x] in order && renum[x] == order[table[x]]
    ensures Recodes(renum, back, base[k].items)
  {
    forall j | 0 <= j < |base[k].items|
      ensures var z := base[k].items[j];
        && z < |renum|
        && (z in back ==> 0 <= renum[z] < |back| && back[renum[z]] == z)
        && (z !in back ==> renum[z] == -1)
    {
      var z := base[k].items[j];
      OccursMeansSupport(base, k, z);
      if z in back {
        var y :| 0 <= y < |back| && back[y] == z;
        assert table'[y] == table[z];
      } else {
        assert z !in freq;
        assert table[z] !in table' by {
          forall y | 0 <= y < |table'| ensures table'[y] == table[z] ==> back[y] == z {
            assert table'[y] == table[back[y]];
          }
        }
      }
    }
  }

  // The header of a new tree: every item of it is frequent in it, with the count that was sorted along.
  lemma HeaderCounts(db': seq<Transaction>, base: seq<Transaction>, back: seq<nat>, freq: seq<nat>, threshold: nat,
                     i: nat, table: seq<nat>, table': seq<nat>, count': seq<nat>, y: nat)
    requires FrequentItems(freq, base, threshold, i) && Renumbered(table', count', back, freq, table, base)
    requires Holds(db', base, back) && y < |back|
    ensures count'[y] == Support(db', {y}) >= threshold
  {
    assert Image(back, {y}) == {back[y]};
    assert back[y] in back;
    assert back[y] in freq;
  }

  lemma DistinctNames(table': seq<nat>, count': seq<nat>, back: seq<nat>, freq: seq<nat>,
                      table: seq<nat>, base: seq<Transaction>)
    requires Renumbered(table', count', back, freq, table, base) && Distinct(table)
    ensures Distinct(table')
  {
    forall a, b | 0 <= a < b < |table'| ensures table'[a] != table'[b] {
      assert back[a] != back[b];
    }
  }

  lemma BackIsShort(back: seq<nat>, i: nat)
    requires Distinct(back) && Below(back, i)
    ensures |back| <= i
  {
    var s := set x | x in back;
    assert s == Image(back, Preimage(back, s)) by { ImageOfPreimage(back, s); }
    var full := set k: nat | k < |back| && back[k] in s;
    assert Preimage(back, s) == full;
    ImageSize(back, full);
    NumbersBelow(full, |back|);
    NumbersBelow(s, i);
  }

  // From the new numbers back to the old ones.
  lemma BackToOldNumbers(ys: seq<set<nat>>, out: seq<Report>, prefix: seq<nat>,
                         db': seq<Transaction>, base: seq<Transaction>, back: seq<nat>, freq: seq<nat>,
                         threshold: nat, i: nat, table: seq<nat>, table': seq<nat>, count': seq<nat>)
    requires FrequentItems(freq, base, threshold, i) && Renumbered(table', count', back, freq, table, base)
    requires Holds(db', base, back) && Enumerates(ys, db', threshold, |back|)
    requires Reported(out, ys, prefix, table', db')
    ensures forall k :: 0 <= k < |ys| ==> InRange(ys[k], |back|)
    ensures Enumerates(Images(back, ys), base, threshold, i)
    ensures Reported(out, Images(back, ys), prefix, table, base)
    ensures forall k :: 0 <= k < |ys| ==> |Images(back, ys)[k]| == |ys[k]|
  {
    RenumberedEnumeration(ys, db', back, freq, base, threshold, i);
    forall k | 0 <= k < |ys|
      ensures out[k].support == Support(base, Image(back, ys[k]))
      ensures Names(out[k].items, prefix, table, Image(back, ys[k])) && |Image(back, ys[k])| == |ys[k]|
    {
      assert ys[k] in ys;
      assert Frequent(db', threshold, |back|, ys[k]);
      NamesRenumbered(out[k].items, prefix, table, table', back, ys[k]);
      ImageSize(back, ys[k]);
    }
  }

  // Reports below item i, seen from the level above.
  lemma ReportedWithItem(ys: seq<set<nat>>, out: seq<Report>, prefix: seq<nat>, table: seq<nat>, i: nat,
                         db: seq<Transaction>, base: seq<Transaction>, threshold: nat)
    requires i < |table| && Enumerates(ys, base, threshold, i)
    requires Reported(out, ys, prefix + [table[i]], table, base)
    requires forall Y :: InRange(Y, i) ==> Support(base, Y) == Support(db, Y + {i})
    ensures Reported(out, WithItem(ys, i), prefix, table, db)
    ensures forall k :: 0 <= k < |ys| ==> |WithItem(ys, i)[k]| == |ys[k]| + 1
  {
    forall k | 0 <= k < |ys|
      ensures out[k].support == Support(db, ys[k] + {i})
      ensures Names(out[k].items, prefix, table, ys[k] + {i}) && |ys[k] + {i}| == |ys[k]| + 1
    {
      assert ys[k] in ys;
      assert Frequent(base, threshold, i, ys[k]);
      NamesWithItem(out[k].items, prefix, table, i, ys[k]);
    }
  }

  // prefix spells the members of P in increasing order; m is the largest.
  ghost predicate Spells(prefix: seq<nat>, P: set<nat>, table: seq<nat>, m: nat) {
    && InRange(P, |table|) && |prefix| == |P| && Items(prefix) == Image(table, P)
    && (P != {} ==> prefix != [] && m in P && (forall p :: p in P ==> p <= m) && prefix[|prefix| - 1] == table[m])
  }

  lemma SpellsOneMore(prefix: seq<nat>, P: set<nat>, table: seq<nat>, m: nat, k: nat)
    requires Spells(prefix, P, table, m) && InRange(P, k) && k < |table|
    ensures Spells(prefix + [table[k]], P + {k}, table, k)
  {
    assert k !in P;
    assert Image(table, P + {k}) == Image(table, P) + {table[k]};
    assert Items(prefix + [table[k]]) == Items(prefix) + {table[k]};
  }

  ghost predicate CountsGiveSupport(db: seq<Transaction>, count: seq<nat>, n: nat) {
    |count| == n && forall X, m: nat :: m in X && InRange(X, n) && (forall x :: x in X ==> x <= m) ==>
      Support(db, X) == count[m]
  }

  lemma NothingReported(prefix: seq<nat>, table: seq<nat>, db: seq<Transaction>)
    ensures Reported([], [], prefix, table, db)
  {
  }

  lemma SubsetReported(prefix0: seq<nat>, prefix: seq<nat>, P: set<nat>, m: nat, items: seq<nat>, count: seq<nat>,
                       db: seq<Transaction>)
    requires Spells(prefix, P, items, m) && CountsGiveSupport(db, count, |items|)
    ensures P == {} <==> prefix == []
    ensures P != {} ==> m < |count| == |items| && prefix[|prefix| - 1] == items[m]
    ensures P != {} ==> Reported([Report(prefix0 + prefix, count[m])], [P], prefix0, items, db)
  {
    var all := prefix0 + prefix;
    assert all[|prefix0|..] == prefix && all[..|prefix0|] == prefix0;
  }

  // Everything frequent in db has been found once, reported with its support, and tallied.
  ghost predicate Mined(out: seq<Report>, sets: seq<set<nat>>, prefix: seq<nat>, table: seq<nat>,
                        db: seq<Transaction>, threshold: nat, n: nat, itlen: seq<nat>, itlen': seq<nat>)
  {
    && Enumerates(sets, db, threshold, n)
    && Reported(out, sets, prefix, table, db)
    && Tallied(itlen, itlen', sets, |prefix|)
  }

  lemma {:induction false} LargestOf(X: set<nat>) returns (m: nat)
    requires X != {}
    ensures m in X && forall x :: x in X ==> x <= m
    decreases |X|
  {
    var x :| x in X;
    if X == {x} {
      m := x;
    } else {
      var rest := X - {x};
      assert rest != {} by { assert X == rest + {x}; }
      var m' := LargestOf(rest);
      m := if m' < x then x else m';
      forall y | y in X ensures y <= m {
        assert y == x || y in rest;
      }
    }
  }

  // On a single path all subsets are frequent.
  lemma PathSubsets(db: seq<Transaction>, count: seq<nat>, n: nat, threshold: nat)
    requires forall k :: 0 <= k < |db| ==> IsCounting(db[k].items)
    requires |count| == n && forall y :: 0 <= y < n ==> count[y] == Support(db, {y}) >= threshold
    ensures CountsGiveSupport(db, count, n)
    ensures Enumerates(Subsets({}, 0, n), db, threshold, n)
  {
    SubsetsMembers({}, 0, n);
    forall X, m: nat | m in X && InRange(X, n) && (forall x :: x in X ==> x <= m) ensures Support(db, X) == count[m] {
      CountingSupport(db, X, m);
    }
    forall X: set<nat> ensures X in Subsets({}, 0, n) <==> Frequent(db, threshold, n, X) {
      assert X in Subsets({}, 0, n) <==> Extends({}, 0, n, X);
      if X != {} && InRange(X, n) {
        var m := LargestOf(X);
        assert Support(db, X) == count[m];
      }
    }
  }

  lemma NothingMined(prefix: seq<nat>, table: seq<nat>, base: seq<Transaction>, threshold: nat, i: nat,
                     freq: seq<nat>, itlen: seq<nat>)
    requires FrequentItems(freq, base, threshold, i) && freq == []
    ensures Mined([], [], prefix, table, base, threshold, i, itlen, itlen)
  {
    NoFrequentItem(freq, base, threshold, i);
    NothingReported(prefix, table, base);
    TalliedNone(itlen, |prefix|);
  }

  lemma OneItemMined(prefix: seq<nat>, table: seq<nat>, base: seq<Transaction>, threshold: nat, i: nat,
                     freq: seq<nat>, itlen: seq<nat>, w: nat)
    requires FrequentItems(freq, base, threshold, i) && |freq| == 1 && i <= |table| && |prefix| < |itlen|
    requires w == Support(base, {freq[0]})
    ensures freq[0] < i
    ensures Mined([Report(prefix + [table[freq[0]]], w)], [{freq[0]}], prefix, table, base, threshold, i,
                  itlen, itlen[|prefix| := itlen[|prefix|] + 1])
  {
    assert freq[0] in freq;
    OneFrequentItem(freq, base, threshold, i);
    TalliedOne(itlen, {freq[0]}, |prefix|);
    OneItemReported(prefix, table, base, freq[0], w);
  }

  lemma OneItemReported(prefix: seq<nat>, table: seq<nat>, db: seq<Transaction>, x: nat, w: nat)
    requires x < |table| && w == Support(db, {x})
    ensures Reported([Report(prefix + [table[x]], w)], [{x}], prefix, table, db)
  {
    var all := prefix + [table[x]];
    assert all[|prefix|..] == [table[x]] && all[..|prefix|] == prefix;
    assert Image(table, {x}) == {table[x]};
  }

  lemma RecodeAll(base: seq<Transaction>, i: nat, entries: seq<Entry>, cells: seq<int>, mark: int,
                  freq: seq<nat>, threshold: nat, table: seq<nat>, table': seq<nat>, count': seq<nat>, back: seq<nat>,
                  order0: map<nat, int>, order: map<nat, int>, renum: seq<int>)
    requires Readable(cells, mark, entries, base, i) && i <= |table| && Distinct(table)
    requires FrequentItems(freq, base, threshold, i) && Renumbered(table', count', back, freq, table, base)
    requires forall x :: 0 <= x < i && 0 < Support(base, {x}) < threshold ==>
               table[x] in order0 && order0[table[x]] == -1
    requires forall y :: 0 <= y < |table'| ==> table'[y] in order && order[table'[y]] == y
    requires forall z :: z in order0 && z !in table' ==> z in order && order[z] == order0[z]
    requires |renum| == i && forall x :: 0 <= x < i ==> table[x] in order && renum[x] == order[table[x]]
    ensures forall k :: 0 <= k < |base| ==> Recodes(renum, back, base[k].items)
  {
    forall k | 0 <= k < |base| ensures Recodes(renum, back, base[k].items) {
      NumbersRecode(base, k, i, freq, threshold, table, table', count', back, order0, order, renum);
    }
  }

  lemma BackBelow(back: seq<nat>, freq: seq<nat>, base: seq<Transaction>, threshold: nat, i: nat)
    requires FrequentItems(freq, base, threshold, i) && Distinct(back) && forall x :: x in back <==> x in freq
    ensures |back| <= i && (freq != [] ==> back != [])
  {
    forall k | 0 <= k < |back| ensures back[k] < i {
      assert back[k] in back;
    }
    BackIsShort(back, i);
    if freq != [] {
      assert freq[0] in freq;
    }
  }

  lemma MinedAtOldNumbers(ys: seq<set<nat>>, out: seq<Report>, prefix: seq<nat>,
                          db': seq<Transaction>, base: seq<Transaction>, back: seq<nat>, freq: seq<nat>,
                          threshold: nat, i: nat, table: seq<nat>, table': seq<nat>, count': seq<nat>,
                          itlen: seq<nat>, itlen': seq<nat>)
    requires FrequentItems(freq, base, threshold, i) && Renumbered(table', count', back, freq, table, base)
    requires Holds(db', base, back)
    requires Mined(out, ys, prefix, table', db', threshold, |back|, itlen, itlen')
    ensures forall k :: 0 <= k < |ys| ==> InRange(ys[k], |back|)
    ensures Mined(out, Images(back, ys), prefix, table, base, threshold, i, itlen, itlen')
  {
    BackToOldNumbers(ys, out, prefix, db', base, back, freq, threshold, i, table, table', count');
    TalliedShift(itlen, itlen', ys, Images(back, ys), 0, |prefix|);
  }

  lemma StartMining(db: seq<Transaction>, prefix: seq<nat>, table: seq<nat>, threshold: nat, n: nat, itlen: seq<nat>)
    ensures EnumeratesFrom([], db, threshold, n, n)
    ensures Reported([], [], prefix, table, db) && Tallied(itlen, itlen, [], |prefix|)
  {
    NothingReported(prefix, table, db);
    TalliedNone(itlen, |prefix|);
  }

  lemma AllFound(sets: seq<set<nat>>, db: seq<Transaction>, threshold: nat, n: nat)
    requires EnumeratesFrom(sets, db, threshold, n, 0)
    ensures Enumerates(sets, db, threshold, n)
  {
    forall X: set<nat> ensures X in sets <==> Frequent(db, threshold, n, X) {
      if X != {} {
        var x :| x in X;
        assert !InRange(X, 0);
      }
    }
  }

  lemma CollectedAreFrequent(freq: seq<nat>, supp: seq<nat>, base: seq<Transaction>, threshold: nat, i: nat)
    requires |supp| == i && (forall y :: 0 <= y < i ==> supp[y] == Support(base, {y}))
    requires Increasing(freq) && forall x :: x in freq <==> 0 <= x < |supp| && supp[x] >= threshold
    ensures FrequentItems(freq, base, threshold, i) && Distinct(freq)
  {
  }

  lemma NothingBelow(freq: seq<nat>, base: seq<Transaction>, threshold: nat, i: nat)
    requires freq == [] && (i == 0 || FrequentItems(freq, base, threshold, i))
    ensures FrequentItems(freq, base, threshold, i)
  {
  }

  // Item i together with what was found below it.
  lemma ItemAndBelow(below: seq<Report>, ys: seq<set<nat>>, prefix: seq<nat>, table: seq<nat>, i: nat,
                     db: seq<Transaction>, base: seq<Transaction>, threshold: nat, w: nat,
                     itlen0: seq<nat>, itlen1: seq<nat>, itlen2: seq<nat>)
    requires i < |table| && forall Y :: InRange(Y, i) ==> Support(base, Y) == Support(db, Y + {i})
    requires Mined(below, ys, prefix + [table[i]], table, base, threshold, i, itlen1, itlen2)
    requires Reported([Report(prefix + [table[i]], w)], [{i}], prefix, table, db)
    requires Tallied(itlen0, itlen1, [{i}], |prefix|)
    ensures Enumerates(ys, base, threshold, i)
    ensures Reported([Report(prefix + [table[i]], w)] + below, [{i}] + WithItem(ys, i), prefix, table, db)
    ensures Tallied(itlen0, itlen2, [{i}] + WithItem(ys, i), |prefix|)
  {
    hide Tallied, Reported;
    ReportedWithItem(ys, below, prefix, table, i, db, base, threshold);
    ReportedConcat([Report(prefix + [table[i]], w)], [{i}], below, WithItem(ys, i), prefix, table, db);
    TalliedShift(itlen1, itlen2, ys, WithItem(ys, i), 1, |prefix|);
    TalliedConcat(itlen0, itlen1, itlen2, [{i}], WithItem(ys, i), |prefix|);
  }

  class FPMiner {
    const threshold: nat
    var fs: seq<nat>               // the items of the current prefix
    var itlen: seq<nat>            // how many frequent sets of each size have been found
    var output: seq<Report>
    var tempOrder: map<nat, int>   // the last number given to each item name, or -1

    constructor (threshold: nat, sizes: nat, names: set<nat>)
      ensures this.threshold == threshold && fs == [] && output == []
      ensures itlen == seq(sizes, _ => 0) && tempOrder.Keys == names
    {
      this.threshold := threshold;
      fs, output := [], [];
      itlen := seq(sizes, _ => 0);
      tempOrder := map x | x in names :: 0;
    }

    // Reports every subset of the path items, as powerset does.
    method Powerset(prefix: seq<nat>, items: seq<nat>, current: nat, count: seq<nat>,
                    ghost P: set<nat>, ghost m: nat, ghost db: seq<Transaction>)
      returns (ghost out: seq<Report>)
      requires current <= |items| == |count| && InRange(P, current)
      requires Spells(prefix, P, items, m) && CountsGiveSupport(db, count, |items|)
      requires forall y :: 0 <= y < |items| ==> items[y] in tempOrder && tempOrder[items[y]] == y
      modifies `output
      ensures output == old(output) + out
      ensures Reported(out, Subsets(P, current, |items|), fs, items, db)
      decreases |items| - current
    {
      hide Reported, Spells, CountsGiveSupport, Names;
      if current == |items| {
        SubsetReported(fs, prefix, P, m, items, count, db);
        if prefix != [] {
          var report := Report(fs + prefix, count[tempOrder[prefix[|prefix| - 1]]]);
          out := [report];
          output := output + [report];
        } else {
          out := [];
          NothingReported(fs, items, db);
        }
      } else {
        var without := Powerset(prefix, items, current + 1, count, P, m, db);
        SpellsOneMore(prefix, P, items, m, current);
        var with := Powerset(prefix + [items[current]], items, current + 1, count, P + {current}, current, db);
        out := without + with;
        ReportedConcat(without, Subsets(P, current + 1, |items|), with, Subsets(P + {current}, current + 1, |items|),
                       fs, items, db);
      }
    }

    // The shortcut for a tree that is a single path.
    method MinePath(ghost db: seq<Transaction>, table: seq<nat>, count: seq<nat>)
      returns (ghost out: seq<Report>)
      requires |table| == |count| && |fs| + |table| <= |itlen|
      requires forall k :: 0 <= k < |db| ==> IsCounting(db[k].items)
      requires forall y :: 0 <= y < |count| ==> count[y] == Support(db, {y}) >= threshold
      requires forall y :: 0 <= y < |table| ==> table[y] in tempOrder && tempOrder[table[y]] == y
      modifies `output, `itlen
      ensures output == old(output) + out && |itlen| == old(|itlen|)
      ensures Mined(out, Subsets({}, 0, |table|), fs, table, db, threshold, |table|, old(itlen), itlen)
    {
      PathSubsets(db, count, |count|, threshold);
      itlen := TallySubsets(itlen, |table|, |fs|);
      assert Spells([], {}, table, 0);
      out := Powerset([], table, 0, count, {}, 0, db);
    }

    // scan1_DB and FPArray_scan2_DB: the conditional tree of item i, with its items renumbered.
    method ConditionalTree(cells: array<int>, mark: int, entries: seq<Entry>, i: nat, table: seq<nat>,
                           names: seq<nat>, counts: seq<nat>, ghost freq: seq<nat>, ghost base: seq<Transaction>)
      returns (tree: FPTree, table': seq<nat>, count': seq<nat>, ghost back: seq<nat>)
      requires threshold >= 1 && i <= |table| && Distinct(table)
      requires Readable(cells[..], mark, entries, base, i)
      requires FrequentItems(freq, base, threshold, i) && |freq| == |names| == |counts| && Distinct(freq)
      requires forall k :: 0 <= k < |freq| ==>
                 freq[k] < |table| && names[k] == table[freq[k]] && counts[k] == Support(base, {freq[k]})
      requires forall x :: 0 <= x < |table| ==> table[x] in tempOrder
      requires forall x :: 0 <= x < i && 0 < Support(base, {x}) < threshold ==> tempOrder[table[x]] == -1
      modifies `tempOrder
      ensures old(tempOrder).Keys <= tempOrder.Keys
      ensures Renumbered(table', count', back, freq, table, base) && Distinct(table') && |back| <= i
      ensures fresh(tree) && tree.Valid() && tree.itemno == |table'| && Holds(tree.db, base, back)
      ensures forall y :: 0 <= y < |count'| ==> count'[y] == Support(tree.db, {y}) >= threshold
      ensures forall y :: 0 <= y < |table'| ==> table'[y] in tempOrder && tempOrder[table'[y]] == y
    {
      hide Readable, Holds, Recodes, FPTree.Valid, Support;
      table', count', back := SortItems(names, counts, freq, table, base);
      ghost var order0 := tempOrder;
      DistinctNames(table', count', back, freq, table, base);
      tempOrder := AssignNumbers(table', tempOrder);
      var order := tempOrder;
      var renum := seq(i, x requires 0 <= x < i && table[x] in order => order[table[x]]);
      RecodeAll(base, i, entries, cells[..], mark, freq, threshold, table, table', count', back, order0, order, renum);
      tree := BuildTree(cells, mark, entries, renum, |table'|, base, back, i);
      forall y | 0 <= y < |back| ensures count'[y] == Support(tree.db, {y}) >= threshold {
        HeaderCounts(tree.db, base, back, freq, threshold, i, table, table', count', y);
      }
      BackBelow(back, freq, base, threshold, i);
    }

    // Mines the conditional base of item i, of which at least two items are frequent.
    method MineConditional(cells: array<int>, mark: int, entries: seq<Entry>, i: nat, table: seq<nat>,
                           names: seq<nat>, counts: seq<nat>, ghost freq: seq<nat>, ghost base: seq<Transaction>)
      returns (ghost out: seq<Report>, ghost xs: seq<set<nat>>)
      requires threshold >= 1 && i <= |table| < 0x8000_0000 && Distinct(table) && |fs| + i <= |itlen|
      requires Readable(cells[..], mark, entries, base, i)
      requires FrequentItems(freq, base, threshold, i) && |freq| == |names| == |counts| >= 2 && Distinct(freq)
      requires forall k :: 0 <= k < |freq| ==>
                 freq[k] < |table| && names[k] == table[freq[k]] && counts[k] == Support(base, {freq[k]})
      requires forall x :: 0 <= x < |table| ==> table[x] in tempOrder
      requires forall x :: 0 <= x < i && 0 < Support(base, {x}) < threshold ==> tempOrder[table[x]] == -1
      modifies this
      ensures fs == old(fs) && output == old(output) + out && |itlen| == old(|itlen|)
      ensures old(tempOrder).Keys <= tempOrder.Keys
      ensures Mined(out, xs, fs, table, base, threshold, i, old(itlen), itlen)
      decreases i, 2
    {
      hide Mined, Readable, Holds, FPTree.Valid, Support, Distinct;
      var tree, table', count', back := ConditionalTree(cells, mark, entries, i, table, names, counts, freq, base);
      BackBelow(back, freq, base, threshold, i);
      var single, path := IsSinglePath(tree);
      ghost var ys;
      if single {
        ys := Subsets({}, 0, |table'|);
        var items := seq(|path|, y requires 0 <= y < |path| && path[y] < |table'| => table'[path[y]]);
        assert items == table';
        out := MinePath(tree.db, items, count');
      } else {
        out, ys := FPGrowth(tree, table', count');
      }
      MinedAtOldNumbers(ys, out, fs, tree.db, base, back, freq, threshold, i, table, table', count', old(itlen), itlen);
      xs := Images(back, ys);
    }

    method FPGrowth(tree: FPTree, table: seq<nat>, count: seq<nat>)
      returns (ghost out: seq<Report>, ghost sets: seq<set<nat>>)
      requires tree.Valid() && 1 <= tree.itemno == |table| == |count| < 0x8000_0000
      requires threshold >= 1 && Distinct(table) && |fs| + |table| <= |itlen|
      requires forall x :: 0 <= x < |table| ==> table[x] in tempOrder
      requires forall x :: 0 <= x < |count| ==> count[x] == Support(tree.db, {x}) >= threshold
      modifies this
      ensures fs == old(fs) && output == old(output) + out && |itlen| == old(|itlen|)
      ensures old(tempOrder).Keys <= tempOrder.Keys
      ensures Mined(out, sets, fs, table, tree.db, threshold, |table|, old(itlen), itlen)
      decreases tree.itemno, 1
    {
      hide FPTree.Valid, Flattened, Reported, Tallied, Support, Names, EnumeratesFrom;
      var mark := if tree.itemno <= 0x100 then 0xff else if tree.itemno <= 0x1_0000 then 0xffff else 0xffff_ffff;
      var cells, list, ids := Transform(tree, mark);
      StartMining(tree.db, fs, table, threshold, |table|, itlen);
      out, sets := MineRange(tree, table, count, cells, mark, list, ids, tree.itemno, 0, [], [], itlen);
      AllFound(sets, tree.db, threshold, |table|);
    }

    // FP_growth_first: like FP_growth, but the array lies in memory with cells of one, two or four bytes, and is
    // narrowed in place once the items that are left fit narrower cells.
    method FPGrowthFirst(tree: FPTree, table: seq<nat>, count: seq<nat>)
      returns (ghost out: seq<Report>, ghost sets: seq<set<nat>>)
      requires tree.Valid() && 1 <= tree.itemno == |table| == |count| < 0x8000_0000
      requires threshold >= 1 && Distinct(table) && |fs| + |table| <= |itlen|
      requires forall x :: 0 <= x < |table| ==> table[x] in tempOrder
      requires forall x :: 0 <= x < |count| ==> count[x] == Support(tree.db, {x}) >= threshold
      modifies this
      ensures fs == old(fs) && output == old(output) + out && |itlen| == old(|itlen|)
      ensures old(tempOrder).Keys <= tempOrder.Keys
      ensures Mined(out, sets, fs, table, tree.db, threshold, |table|, old(itlen), itlen)
      decreases tree.itemno, 1
    {
      hide FPTree.Valid, Flattened, Reported, Tallied, Support, Names, EnumeratesFrom, Cells, Pow256, Reduced;
      var itemno := tree.itemno;
      var width := FirstWidth(itemno);
      PowersOf256();
      var wide, list, ids := Transform(tree, Pow256(width) - 1);
      var size := wide.Length;
      var mem := Store(wide, width);
      SmallRemainder(Pow256(width) - 1, Pow256(width));
      ReducedIsFlattened(tree, itemno, wide[..], Cells(mem[..], width, size), Pow256(width), Pow256(width) - 1, list, ids);
      out, sets := [], [];
      StartMining(tree.db, fs, table, threshold, |table|, itlen);
      ghost var itlen0 := itlen;
      var lower := itemno;
      for t := 0 to 3
        invariant width == WidthBefore(itemno, t) && width * size <= mem.Length && fresh(mem)
        invariant lower == if t == 0 then itemno else LOWERBOUND[t - 1]
        invariant Flattened(tree.A(), tree.count, Min(lower, itemno), Cells(mem[..], width, size), Pow256(width) - 1, list, ids)
        invariant fs == old(fs) && |itlen| == old(|itlen|) && old(tempOrder).Keys <= tempOrder.Keys
        invariant output == old(output) + out && EnumeratesFrom(sets, tree.db, threshold, |table|, Min(lower, itemno))
        invariant Reported(out, sets, fs, table, tree.db) && Tallied(itlen0, itlen, sets, |fs|)
      {
        var upper := Min(lower, itemno);
        lower := LOWERBOUND[t];
        if upper > lower {
          width := Retype(tree, t, upper, mem, width, size, list, ids);
          var cells := View(mem, width, size);
          out, sets := MineRange(tree, table, count, cells, Pow256(width) - 1, list, ids, upper, lower, out, sets, itlen0);
          FlattenedFewer(tree.A(), tree.count, upper, lower, Cells(mem[..], width, size), Pow256(width) - 1, list, ids);
        }
      }
      AllFound(sets, tree.db, threshold, |table|);
    }

    // The mining loop over the items below hi, last first, down to lo; out0 and sets0 have been found above hi.
    method MineRange(tree: FPTree, table: seq<nat>, count: seq<nat>, cells: array<int>, mark: int,
                     list: seq<seq<Entry>>, ghost ids: seq<seq<nat>>, hi: nat, lo: nat,
                     ghost out0: seq<Report>, ghost sets0: seq<set<nat>>, ghost itlen0: seq<nat>)
      returns (ghost out: seq<Report>, ghost sets: seq<set<nat>>)
      requires tree.Valid() && lo <= hi <= tree.itemno == |table| == |count| < 0x8000_0000
      requires Flattened(tree.A(), tree.count, hi, cells[..], mark, list, ids)
      requires threshold >= 1 && Distinct(table) && |fs| + |table| <= |itlen|
      requires forall x :: 0 <= x < |table| ==> table[x] in tempOrder
      requires forall x :: 0 <= x < |count| ==> count[x] == Support(tree.db, {x}) >= threshold
      requires EnumeratesFrom(sets0, tree.db, threshold, |table|, hi)
      requires Reported(out0, sets0, fs, table, tree.db) && Tallied(itlen0, itlen, sets0, |fs|)
      modifies this
      ensures fs == old(fs) && |itlen| == old(|itlen|) && old(tempOrder).Keys <= tempOrder.Keys
      ensures out0 <= out && output == old(output) + out[|out0|..]
      ensures EnumeratesFrom(sets, tree.db, threshold, |table|, lo)
      ensures Reported(out, sets, fs, table, tree.db) && Tallied(itlen0, itlen, sets, |fs|)
      decreases hi, 0
    {
      hide FPTree.Valid, Flattened, Reported, Tallied, Support, Names, EnumeratesFrom;
      ghost var flat := cells[..];
      out, sets := out0, sets0;
      var sequence: int := hi - 1;
      while sequence >= lo
        invariant lo - 1 <= sequence < hi && cells[..] == flat
        invariant fs == old(fs) && |itlen| == old(|itlen|) && old(tempOrder).Keys <= tempOrder.Keys
        invariant out0 <= out && output == old(output) + out[|out0|..]
        invariant EnumeratesFrom(sets, tree.db, threshold, |table|, sequence + 1)
        invariant Reported(out, sets, fs, table, tree.db) && Tallied(itlen0, itlen, sets, |fs|)
      {
        ghost var itlen1 := itlen;
        FlattenedFewer(tree.A(), tree.count, hi, sequence + 1, flat, mark, list, ids);
        var out', ys, base := TreatItem(tree, table, count, cells, mark, list, ids, sequence);
        OneMoreItem(sets, ys, tree.db, base, threshold, |table|, sequence);
        ghost var found := [{sequence}] + WithItem(ys, sequence);
        ReportedConcat(out, sets, out', found, fs, table, tree.db);
        TalliedConcat(itlen0, itlen1, itlen, sets, found, |fs|);
        assert (out + out')[|out0|..] == out[|out0|..] + out';
        out, sets := out + out', sets + found;
        sequence := sequence - 1;
      }
    }

    // One turn of the mining loop: item i itself, and everything found below it.
    method TreatItem(tree: FPTree, table: seq<nat>, count: seq<nat>, cells: array<int>, mark: int,
                     list: seq<seq<Entry>>, ghost ids: seq<seq<nat>>, i: nat)
      returns (ghost out: seq<Report>, ghost ys: seq<set<nat>>, ghost base: seq<Transaction>)
      requires tree.Valid() && i < tree.itemno == |table| == |count| < 0x8000_0000
      requires Flattened(tree.A(), tree.count, i + 1, cells[..], mark, list, ids)
      requires threshold >= 1 && Distinct(table) && |fs| + |table| <= |itlen|
      requires forall x :: 0 <= x < |table| ==> table[x] in tempOrder
      requires count[i] == Support(tree.db, {i})
      modifies this
      ensures fs == old(fs) && output == old(output) + out && |itlen| == old(|itlen|)
      ensures old(tempOrder).Keys <= tempOrder.Keys
      ensures forall Y :: InRange(Y, i) ==> Support(base, Y) == Support(tree.db, Y + {i})
      ensures Enumerates(ys, base, threshold, i)
      ensures Reported(out, [{i}] + WithItem(ys, i), fs, table, tree.db)
      ensures Tallied(old(itlen), itlen, [{i}] + WithItem(ys, i), |fs|)
      decreases i, 4
    {
      hide FPTree.Valid, Flattened, Support, Distinct, Names, Mined, Reported, Tallied, Enumerates;
      ghost var prefix, itlen0 := fs, itlen;
      fs := fs + [table[i]];
      itlen := itlen[|fs| - 1 := itlen[|fs| - 1] + 1];
      output := output + [Report(fs, count[i])];
      ghost var itlen1 := itlen;
      TalliedOne(itlen0, {i}, |prefix|);
      OneItemReported(prefix, table, tree.db, i, count[i]);
      ghost var below;
      below, ys, base := MineBelow(tree, table, cells, mark, list, ids, i);
      fs := fs[..|fs| - 1];
      assert fs == prefix;
      out := [Report(prefix + [table[i]], count[i])] + below;
      ItemAndBelow(below, ys, prefix, table, i, tree.db, base, threshold, count[i], itlen0, itlen1, itlen);
    }

    // What can be found below item i, which is already the last of the prefix.
    method MineBelow(tree: FPTree, table: seq<nat>, cells: array<int>, mark: int,
                     list: seq<seq<Entry>>, ghost ids: seq<seq<nat>>, i: nat)
      returns (ghost out: seq<Report>, ghost ys: seq<set<nat>>, ghost base: seq<Transaction>)
      requires tree.Valid() && i < tree.itemno == |table| < 0x8000_0000
      requires Flattened(tree.A(), tree.count, i + 1, cells[..], mark, list, ids)
      requires threshold >= 1 && Distinct(table) && |fs| + i <= |itlen|
      requires forall x :: 0 <= x < |table| ==> table[x] in tempOrder
      modifies this
      ensures fs == old(fs) && output == old(output) + out && |itlen| == old(|itlen|)
      ensures old(tempOrder).Keys <= tempOrder.Keys
      ensures forall Y :: InRange(Y, i) ==> Support(base, Y) == Support(tree.db, Y + {i})
      ensures Mined(out, ys, fs, table, base, threshold, i, old(itlen), itlen)
      decreases i, 3
    {
      hide Support, Mined, PathsGrow, KidsMatchParents, LinksSpellKids, Counted, Complete, Orderly, ReadsUp, Reserved,
           Increasing;
      BaseIsReadable(tree, cells[..], mark, list, ids, i);
      base := CondBase(tree.A(), tree.count, ids[i]);
      forall Y | InRange(Y, i) ensures Support(base, Y) == Support(tree.db, Y + {i}) {
        CondBaseSupport(tree, ids[i], i, Y);
      }
      hide FPTree.Valid, Flattened, Distinct, Readable, CondBase;
      var freq, names, counts := [], [], [];
      if i != 0 {
        var supp := CountSupports(cells, mark, list[i], i, base);
        freq, names, counts, tempOrder := Collect(supp, threshold, table, tempOrder);
        CollectedAreFrequent(freq, supp, base, threshold, i);
      }
      if |freq| == 0 {
        NothingBelow(freq, base, threshold, i);
        NothingMined(fs, table, base, threshold, i, freq, itlen);
        out, ys := [], [];
      } else if |freq| == 1 {
        OneItemMined(fs, table, base, threshold, i, freq, itlen, counts[0]);
        out, ys := [Report(fs + [names[0]], counts[0])], [{freq[0]}];
        itlen := itlen[|fs| := itlen[|fs|] + 1];
        output := output + [Report(fs + [names[0]], counts[0])];
      } else {
        out, ys := MineConditional(cells, mark, list[i], i, table, names, counts, freq, base);
      }
    }
  }

  /* ---------- the cells of the first level ---------- */

  const LOWERBOUND: seq<nat> := [0x1_0000, 0x100, 0]

  function Min(a: nat, b: nat): nat {
    if a < b then a else b
  }

  // sizeof(T), as FP_growth_first chooses T at first.
  function FirstWidth(itemno: nat): nat {
    if itemno <= 0x100 then 1 else if itemno < 0x1_0000 then 2 else 4
  }

  // The cells' width when round t begins.
  function WidthBefore(itemno: nat, t: nat): nat {
    if t <= 1 then FirstWidth(itemno) else if t == 2 && itemno > 0x100 then 2 else 1
  }

  lemma PowersOf256()
    ensures Pow256(1) == 0x100 && Pow256(2) == 0x1_0000 && Pow256(4) == 0x1_0000_0000
  {
    assert Pow256(0) == 1;
    assert Pow256(3) == 0x100_0000;
  }

  // The change of function_type at the start of a round.  The array is read at the type that round t stands
  // for, and that is always the type it has.
  method Retype(tree: FPTree, t: nat, upper: nat, mem: array<Byte>, width: nat, size: nat,
                list: seq<seq<Entry>>, ghost ids: seq<seq<nat>>)
    returns (width': nat)
    requires tree.Valid() && t < 3 && LOWERBOUND[t] < upper <= tree.itemno < 0x8000_0000
    requires upper == if t == 0 then tree.itemno else Min(LOWERBOUND[t - 1], tree.itemno)
    requires width == WidthBefore(tree.itemno, t) && width * size <= mem.Length
    requires Flattened(tree.A(), tree.count, upper, Cells(mem[..], width, size), Pow256(width) - 1, list, ids)
    modifies mem
    ensures width' == WidthBefore(tree.itemno, t + 1) && width' * size <= mem.Length
    ensures Flattened(tree.A(), tree.count, upper, Cells(mem[..], width', size), Pow256(width') - 1, list, ids)
  {
    hide FPTree.Valid, Flattened, Cells, Pow256;
    PowersOf256();
    width' := if upper - 1 < 0x100 then 1 else if upper - 1 < 0x1_0000 then 2 else 4;
    if width' != width {
      if t == 1 { NarrowArray(tree, upper, mem, 4, 2, size, list, ids); }
      if t == 2 { NarrowArray(tree, upper, mem, 2, 1, size, list, ids); }
    }
  }

  /* ---------- the whole run ---------- */

  ghost function CountLength(out: seq<Report>, m: int): nat {
    if out == [] then 0
    else CountLength(out[..|out| - 1], m) + if |out[|out| - 1].items| == m then 1 else 0
  }

  lemma {:induction false} LengthsAreSizes(out: seq<Report>, sets: seq<set<nat>>, table: seq<nat>, db: seq<Transaction>,
                                           m: int)
    requires Reported(out, sets, [], table, db)
    ensures CountLength(out, m) == CountSize(sets, m)
  {
    if out != [] {
      var n := |out| - 1;
      LengthsAreSizes(out[..n], sets[..n], table, db, m);
      assert Names(out[n].items, [], table, sets[n]);
    }
  }

  ghost predicate IsReportOf(r: Report, X: set<nat>, table: seq<nat>) {
    InRange(X, |table|) && Items(r.items) == Image(table, X) && |r.items| == |X|
  }

  ghost predicate IsReportOfSome(r: Report, db: seq<Transaction>, table: seq<nat>, threshold: nat) {
    exists X :: Frequent(db, threshold, |table|, X) && IsReportOf(r, X, table)
  }

  ghost predicate IsAmong(out: seq<Report>, X: set<nat>, table: seq<nat>, support: nat) {
    exists k :: 0 <= k < |out| && IsReportOf(out[k], X, table) && out[k].support == support
  }

  // Every frequent itemset, under its names, is reported exactly once and with its support.
  ghost predicate ReportsAll(out: seq<Report>, db: seq<Transaction>, table: seq<nat>, threshold: nat) {
    && (forall X :: Frequent(db, threshold, |table|, X) ==> IsAmong(out, X, table, Support(db, X)))
    && (forall k :: 0 <= k < |out| ==> IsReportOfSome(out[k], db, table, threshold))
    && (forall j, k :: 0 <= j < k < |out| ==> Items(out[j].items) != Items(out[k].items))
  }

  lemma MinedReportsAll(out: seq<Report>, sets: seq<set<nat>>, db: seq<Transaction>, table: seq<nat>, threshold: nat)
    requires Enumerates(sets, db, threshold, |table|) && Reported(out, sets, [], table, db) && Distinct(table)
    ensures ReportsAll(out, db, table, threshold)
  {
    forall k | 0 <= k < |out|
      ensures Frequent(db, threshold, |table|, sets[k]) && IsReportOf(out[k], sets[k], table)
    {
      assert sets[k] in sets;
      assert out[k].items[0..] == out[k].items;
      assert Names(out[k].items, [], table, sets[k]);
    }
    forall k | 0 <= k < |out| ensures IsReportOfSome(out[k], db, table, threshold) {
      var X := sets[k];
      assert Frequent(db, threshold, |table|, X) && IsReportOf(out[k], X, table);
    }
    forall X | Frequent(db, threshold, |table|, X)
      ensures IsAmong(out, X, table, Support(db, X))
    {
      assert X in sets;
      var k :| 0 <= k < |sets| && sets[k] == X;
      assert IsReportOf(out[k], X, table);
    }
    forall j, k | 0 <= j < k < |out| ensures Items(out[j].items) != Items(out[k].items) {
      PreimageOfImage(table, sets[j]);
      PreimageOfImage(table, sets[k]);
    }
  }

  method BuildAll(transactions: seq<Transaction>, itemno: nat) returns (tree: FPTree)
    requires WellFormed(transactions, itemno)
    ensures fresh(tree) && tree.Valid() && tree.itemno == itemno && tree.db == transactions
  {
    tree := new FPTree(itemno);
    hide FPTree.Valid, WellFormedTransaction;
    for k := 0 to |transactions|
      invariant fresh(tree) && tree.Valid() && tree.itemno == itemno && tree.db == transactions[..k]
    {
      tree.Insert(transactions[k].items, transactions[k].weight);
      assert transactions[k] == Transaction(transactions[k].items, transactions[k].weight);
    }
    assert transactions[..|transactions|] == transactions;
  }

  // Builds the tree of a database and mines it.
  method MineDatabase(transactions: seq<Transaction>, table: seq<nat>, count: seq<nat>, threshold: nat)
    returns (reports: seq<Report>, itlen: seq<nat>)
    requires threshold >= 1 && 1 <= |table| == |count| < 0x8000_0000 && Distinct(table)
    requires WellFormed(transactions, |table|)
    requires forall x :: 0 <= x < |count| ==> count[x] == Support(transactions, {x}) >= threshold
    ensures ReportsAll(reports, transactions, table, threshold)
    ensures |itlen| == |table| && forall k :: 0 <= k < |itlen| ==> itlen[k] == CountLength(reports, k + 1)
  {
    hide FPTree.Valid, Support, Distinct, WellFormed, ReportsAll, Enumerates, Reported, CountSize, CountLength;
    var tree := BuildAll(transactions, |table|);
    var miner := new FPMiner(threshold, |table|, set x | x in table);
    ghost var itlen0 := miner.itlen;
    var out, sets := miner.FPGrowthFirst(tree, table, count);
    reports, itlen := miner.output, miner.itlen;
    assert reports == out;
    MinedReportsAll(out, sets, transactions, table, threshold);
    forall k | 0 <= k < |itlen| ensures itlen[k] == CountLength(reports, k + 1) {
      LengthsAreSizes(out, sets, table, transactions, k + 1);
      assert itlen[k] == itlen0[k] + CountSize(sets, k + 1 - 0);
    }
  }
}
