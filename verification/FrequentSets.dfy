/**
  What the miner has to deliver: every frequent itemset exactly once, with its
  true support.  The lemmas say how such a list is put together item by item
  and how it survives the renumbering of items.
 */
module FrequentSets {
  import opened FiniteSets
  import opened Itemsets

  datatype Report = Report(items: seq<nat>, support: nat)

  ghost predicate InRange(X: set<nat>, n: nat) {
    forall x :: x in X ==> x < n
  }

  ghost predicate Frequent(db: seq<Transaction>, threshold: nat, n: nat, X: set<nat>) {
    X != {} && InRange(X, n) && Support(db, X) >= threshold
  }

  // The frequent sets of items below n, each once.
  ghost predicate Enumerates(sets: seq<set<nat>>, db: seq<Transaction>, threshold: nat, n: nat) {
    Distinct(sets) && forall X: set<nat> :: X in sets <==> Frequent(db, threshold, n, X)
  }

  // Those among them that contain an item from s on.
  ghost predicate EnumeratesFrom(sets: seq<set<nat>>, db: seq<Transaction>, threshold: nat, n: nat, s: nat) {
    Distinct(sets) && forall X: set<nat> :: X in sets <==> Frequent(db, threshold, n, X) && !InRange(X, s)
  }

  ghost function WithItem(sets: seq<set<nat>>, i: nat): (r: seq<set<nat>>)
    ensures |r| == |sets|
    ensures forall k :: 0 <= k < |sets| ==> r[k] == sets[k] + {i}
  {
    seq(|sets|, k requires 0 <= k < |sets| => sets[k] + {i})
  }

  lemma DistinctWithItem(sets: seq<set<nat>>, i: nat)
    requires Distinct(sets) && forall X :: X in sets ==> i !in X
    ensures Distinct([{i}] + WithItem(sets, i)) || {} in sets
  {
    var r := [{i}] + WithItem(sets, i);
    if {} !in sets {
      forall a, b | 0 <= a < b < |r| ensures r[a] != r[b] {
        var Y := sets[b - 1];
        assert Y in sets;
        assert Y == r[b] - {i};
        if a > 0 {
          assert sets[a - 1] in sets;
          assert sets[a - 1] == r[a] - {i};
        } else {
          assert r[a] - {i} == {};
        }
      }
    }
  }

  // Membership in the sets found while treating item i.
  lemma MembersWithItem(sets: seq<set<nat>>, i: nat, X: set<nat>)
    requires forall Y :: Y in sets ==> i !in Y
    ensures X in [{i}] + WithItem(sets, i) <==> X == {i} || (i in X && X - {i} in sets)
  {
    var r := [{i}] + WithItem(sets, i);
    if X in r && X != {i} {
      var k :| 0 <= k < |r| && r[k] == X;
      assert sets[k - 1] in sets;
      assert X - {i} == sets[k - 1];
    }
    if i in X && X - {i} in sets {
      var k :| 0 <= k < |sets| && sets[k] == X - {i};
      assert r[k + 1] == X;
    }
    assert r[0] == {i};
  }

  // Treating item i: {i} itself, and i added to whatever is frequent in its conditional base.
  lemma OneMoreItem(sets: seq<set<nat>>, ys: seq<set<nat>>, db: seq<Transaction>, base: seq<Transaction>,
                    threshold: nat, n: nat, i: nat)
    requires i < n && EnumeratesFrom(sets, db, threshold, n, i + 1) && Enumerates(ys, base, threshold, i)
    requires forall Y :: InRange(Y, i) ==> Support(base, Y) == Support(db, Y + {i})
    requires Support(db, {i}) >= threshold
    ensures EnumeratesFrom(sets + ([{i}] + WithItem(ys, i)), db, threshold, n, i)
  {
    var found := [{i}] + WithItem(ys, i);
    forall Y | Y in ys ensures i !in Y {
      assert Frequent(base, threshold, i, Y);
    }
    assert {} !in ys by {
      assert !Frequent(base, threshold, i, {});
    }
    DistinctWithItem(ys, i);
    forall X: set<nat> ensures X in found <==> Frequent(db, threshold, n, X) && InRange(X, i + 1) && !InRange(X, i) {
      MembersWithItem(ys, i, X);
      MaxItem(X, i);
      if i in X && InRange(X, i + 1) {
        assert X - {i} + {i} == X;
        assert Support(base, X - {i}) == Support(db, X);
        assert X - {i} in ys <==> Frequent(base, threshold, i, X - {i});
      }
    }
    forall a, b | 0 <= a < b < |sets + found| ensures (sets + found)[a] != (sets + found)[b] {
      if a < |sets| <= b {
        assert sets[a] in sets && found[b - |sets|] in found;
      }
    }
  }

  lemma MaxItem(X: set<nat>, i: nat)
    ensures InRange(X, i + 1) && !InRange(X, i) <==> InRange(X, i + 1) && i in X
    ensures InRange(X, i + 1) ==> InRange(X - {i}, i)
  {
  }

  /* ---------- few frequent items ---------- */

  // freq lists the single items that are frequent in base.
  ghost predicate FrequentItems(freq: seq<nat>, base: seq<Transaction>, threshold: nat, n: nat) {
    Distinct(freq) && forall x: nat :: x in freq <==> x < n && Support(base, {x}) >= threshold
  }

  lemma OnlyFrequentItems(freq: seq<nat>, base: seq<Transaction>, threshold: nat, n: nat, X: set<nat>)
    requires FrequentItems(freq, base, threshold, n) && Frequent(base, threshold, n, X)
    ensures forall x :: x in X ==> x in freq
  {
    forall x | x in X ensures x in freq {
      SupportAntimonotone(base, {x}, X);
    }
  }

  lemma NoFrequentItem(freq: seq<nat>, base: seq<Transaction>, threshold: nat, n: nat)
    requires FrequentItems(freq, base, threshold, n) && freq == []
    ensures Enumerates([], base, threshold, n)
  {
    forall X: set<nat> | X != {} && InRange(X, n) ensures Support(base, X) < threshold {
      var x :| x in X;
      assert x !in freq;
      SupportAntimonotone(base, {x}, X);
    }
  }

  lemma OneFrequentItem(freq: seq<nat>, base: seq<Transaction>, threshold: nat, n: nat)
    requires FrequentItems(freq, base, threshold, n) && |freq| == 1
    ensures Enumerates([{freq[0]}], base, threshold, n)
  {
    assert freq[0] in freq;
    forall X: set<nat> | Frequent(base, threshold, n, X) ensures X == {freq[0]} {
      OnlyFrequentItems(freq, base, threshold, n, X);
      assert forall x :: x in freq ==> x == freq[0];
      var x :| x in X;
    }
  }

  /* ---------- renumbering ---------- */

  ghost function Image(back: seq<nat>, X: set<nat>): set<nat>
    requires InRange(X, |back|)
  {
    set x | x in X :: back[x]
  }

  ghost function Images(back: seq<nat>, sets: seq<set<nat>>): (r: seq<set<nat>>)
    requires forall k :: 0 <= k < |sets| ==> InRange(sets[k], |back|)
    ensures |r| == |sets| && forall k :: 0 <= k < |sets| ==> r[k] == Image(back, sets[k])
  {
    seq(|sets|, k requires 0 <= k < |sets| => Image(back, sets[k]))
  }

  ghost function Preimage(back: seq<nat>, X: set<nat>): set<nat> {
    set k: nat | k < |back| && back[k] in X
  }

  lemma ImageOfPreimage(back: seq<nat>, X: set<nat>)
    requires forall x :: x in X ==> x in back
    ensures InRange(Preimage(back, X), |back|) && Image(back, Preimage(back, X)) == X
  {
    forall x | x in X ensures x in Image(back, Preimage(back, X)) {
      var k :| 0 <= k < |back| && back[k] == x;
      assert k in Preimage(back, X);
    }
  }

  lemma PreimageOfImage(back: seq<nat>, Y: set<nat>)
    requires Distinct(back) && InRange(Y, |back|)
    ensures Preimage(back, Image(back, Y)) == Y
  {
  }

  lemma {:induction false} ImageSize(back: seq<nat>, Y: set<nat>)
    requires Distinct(back) && InRange(Y, |back|)
    ensures |Image(back, Y)| == |Y|
    decreases |Y|
  {
    if Y != {} {
      var y :| y in Y;
      ImageSize(back, Y - {y});
      assert Image(back, Y) == Image(back, Y - {y}) + {back[y]};
      assert back[y] !in Image(back, Y - {y});
    }
  }

  // Mining under new numbers is mining under the old ones.
  lemma RenumberedEnumeration(ys: seq<set<nat>>, db': seq<Transaction>, back: seq<nat>, freq: seq<nat>,
                              base: seq<Transaction>, threshold: nat, n: nat)
    requires FrequentItems(freq, base, threshold, n)
    requires Distinct(back) && forall x :: x in back <==> x in freq
    requires Enumerates(ys, db', threshold, |back|)
    requires forall Y :: Y != {} && InRange(Y, |back|) ==> Support(db', Y) == Support(base, Image(back, Y))
    ensures forall k :: 0 <= k < |ys| ==> InRange(ys[k], |back|)
    ensures Enumerates(Images(back, ys), base, threshold, n)
  {
    forall k | 0 <= k < |ys| ensures InRange(ys[k], |back|) {
      assert ys[k] in ys;
    }
    var xs := Images(back, ys);
    forall a, b | 0 <= a < b < |xs| ensures xs[a] != xs[b] {
      PreimageOfImage(back, ys[a]);
      PreimageOfImage(back, ys[b]);
    }
    forall X: set<nat> ensures X in xs <==> Frequent(base, threshold, n, X) {
      if X in xs {
        var k :| 0 <= k < |xs| && xs[k] == X;
        assert ys[k] in ys;
        ImageIsFrequent(ys[k], db', back, freq, base, threshold, n);
      }
      if Frequent(base, threshold, n, X) {
        OnlyFrequentItems(freq, base, threshold, n, X);
        var Y := Preimage(back, X);
        ImageOfPreimage(back, X);
        assert Frequent(db', threshold, |back|, Y);
        var k :| 0 <= k < |ys| && ys[k] == Y;
        assert xs[k] == X;
      }
    }
  }

  lemma ImageIsFrequent(Y: set<nat>, db': seq<Transaction>, back: seq<nat>, freq: seq<nat>,
                        base: seq<Transaction>, threshold: nat, n: nat)
    requires FrequentItems(freq, base, threshold, n)
    requires forall x :: x in back <==> x in freq
    requires Frequent(db', threshold, |back|, Y)
    requires Support(db', Y) == Support(base, Image(back, Y))
    ensures Frequent(base, threshold, n, Image(back, Y))
  {
    var y :| y in Y;
    assert back[y] in Image(back, Y);
    forall x | x in Image(back, Y) ensures x < n {
      assert x in back;
    }
  }

  // A transaction keeps its support when its frequent items are renumbered and the others dropped.
  lemma RecodedTransaction(items: seq<nat>, compact: seq<nat>, back: seq<nat>, Y: set<nat>)
    requires InRange(Y, |back|)
    requires Items(compact) == Preimage(back, Items(items))
    ensures Y <= Items(compact) <==> Image(back, Y) <= Items(items)
  {
    forall y | y in Y ensures y in Items(compact) <==> back[y] in Items(items) {
    }
    if Image(back, Y) <= Items(items) {
      forall y | y in Y ensures y in Items(compact) {
        assert back[y] in Image(back, Y);
      }
    }
  }

  /* ---------- sizes ---------- */

  ghost function CountSize(sets: seq<set<nat>>, m: int): nat {
    if sets == [] then 0
    else CountSize(sets[..|sets| - 1], m) + if |sets[|sets| - 1]| == m then 1 else 0
  }

  lemma {:induction false} CountSizeConcat(s: seq<set<nat>>, t: seq<set<nat>>, m: int)
    ensures CountSize(s + t, m) == CountSize(s, m) + CountSize(t, m)
  {
    if t == [] {
      assert s + t == s;
    } else {
      CountSizeConcat(s, t[..|t| - 1], m);
      assert (s + t)[..|s + t| - 1] == s + t[..|t| - 1];
    }
  }

  // Two lists whose sets differ in size by d throughout have their counts shifted by d.
  lemma {:induction false} CountSizeShift(s: seq<set<nat>>, t: seq<set<nat>>, d: int, m: int)
    requires |s| == |t| && forall k :: 0 <= k < |s| ==> |t[k]| == |s[k]| + d
    ensures CountSize(t, m) == CountSize(s, m - d)
  {
    if s != [] {
      CountSizeShift(s[..|s| - 1], t[..|t| - 1], d, m);
    }
  }

  /* ---------- reports ---------- */

  // `items` spells the prefix and then the names of X.
  ghost predicate Names(items: seq<nat>, prefix: seq<nat>, table: seq<nat>, X: set<nat>) {
    && InRange(X, |table|)
    && |items| == |prefix| + |X| && items[..|prefix|] == prefix
    && Items(items[|prefix|..]) == Image(table, X)
  }

  ghost predicate Reported(out: seq<Report>, sets: seq<set<nat>>, prefix: seq<nat>, table: seq<nat>,
                           db: seq<Transaction>)
  {
    |out| == |sets| && forall k :: 0 <= k < |sets| ==>
      out[k].support == Support(db, sets[k]) && Names(out[k].items, prefix, table, sets[k])
  }

  lemma ReportedConcat(out: seq<Report>, sets: seq<set<nat>>, out': seq<Report>, sets': seq<set<nat>>,
                       prefix: seq<nat>, table: seq<nat>, db: seq<Transaction>)
    requires Reported(out, sets, prefix, table, db) && Reported(out', sets', prefix, table, db)
    ensures Reported(out + out', sets + sets', prefix, table, db)
  {
    hide Names;
  }

  lemma NamesRenumbered(items: seq<nat>, prefix: seq<nat>, table: seq<nat>, table': seq<nat>, back: seq<nat>, Y: set<nat>)
    requires Names(items, prefix, table', Y) && |table'| == |back| && Distinct(back)
    requires forall y :: 0 <= y < |back| ==> back[y] < |table| && table'[y] == table[back[y]]
    ensures Names(items, prefix, table, Image(back, Y))
  {
    ImageSize(back, Y);
    assert Image(table, Image(back, Y)) == Image(table', Y) by {
      forall y | y in Y ensures table'[y] in Image(table, Image(back, Y)) {
        assert back[y] in Image(back, Y);
      }
    }
  }

  lemma NamesWithItem(items: seq<nat>, prefix: seq<nat>, table: seq<nat>, i: nat, Y: set<nat>)
    requires i < |table| && i !in Y && Names(items, prefix + [table[i]], table, Y)
    ensures Names(items, prefix, table, Y + {i})
  {
    var rest := items[|prefix| + 1..];
    assert items[|prefix|] == items[..|prefix| + 1][|prefix|] == table[i];
    assert items[..|prefix|] == items[..|prefix| + 1][..|prefix|] == prefix;
    assert items[|prefix|..] == [table[i]] + rest;
    assert Items(items[|prefix|..]) == {table[i]} + Items(rest);
    assert Image(table, Y + {i}) == Image(table, Y) + {table[i]};
  }

  /* ---------- all subsets of a path ---------- */

  // The order in which powerset visits the subsets of {k..n-1}, each added to P.
  ghost function Subsets(P: set<nat>, k: nat, n: nat): seq<set<nat>>
    requires k <= n
    decreases n - k
  {
    if k == n then if P == {} then [] else [P]
    else Subsets(P, k + 1, n) + Subsets(P + {k}, k + 1, n)
  }

  ghost predicate Extends(P: set<nat>, k: nat, n: nat, X: set<nat>) {
    X != {} && P <= X && forall x :: x in X ==> x in P || k <= x < n
  }

  lemma {:induction false} SubsetsMembers(P: set<nat>, k: nat, n: nat)
    requires k <= n && InRange(P, k)
    ensures Distinct(Subsets(P, k, n))
    ensures forall X :: X in Subsets(P, k, n) <==> Extends(P, k, n, X)
    decreases n - k
  {
    if k == n {
      forall X: set<nat> | Extends(P, k, n, X) ensures X == P {
      }
    } else {
      var s, t := Subsets(P, k + 1, n), Subsets(P + {k}, k + 1, n);
      SubsetsMembers(P, k + 1, n);
      SubsetsMembers(P + {k}, k + 1, n);
      var r := s + t;
      forall a, b | 0 <= a < b < |r| ensures r[a] != r[b] {
        if a < |s| <= b {
          assert s[a] in s && t[b - |s|] in t;
          assert k in t[b - |s|] && k !in s[a];
        }
      }
      forall X: set<nat> ensures X in r <==> Extends(P, k, n, X) {
        assert X in r <==> X in s || X in t;
      }
    }
  }

  ghost function Choose(n: nat, k: int): nat {
    if k < 0 || k > n then 0
    else if k == 0 || k == n then 1
    else Choose(n - 1, k - 1) + Choose(n - 1, k)
  }

  lemma {:induction false} SubsetsCount(P: set<nat>, k: nat, n: nat, m: int)
    requires k <= n && InRange(P, k) && m >= 1
    ensures CountSize(Subsets(P, k, n), m) == Choose(n - k, m - |P|)
    decreases n - k
  {
    hide Choose, CountSize;
    if k < n {
      var s, t := Subsets(P, k + 1, n), Subsets(P + {k}, k + 1, n);
      SubsetsCount(P, k + 1, n, m);
      SubsetsCount(P + {k}, k + 1, n, m);
      CountSizeConcat(s, t, m);
      assert k !in P && |P + {k}| == |P| + 1;
      Pascal(n - k - 1, m - |P|);
    } else {
      LastSubset(P, m);
    }
  }

  lemma LastSubset(P: set<nat>, m: int)
    requires m >= 1
    ensures CountSize(if P == {} then [] else [P], m) == Choose(0, m - |P|)
  {
    if P != {} {
      assert [P][..0] == [];
      assert CountSize([P], m) == CountSize([P][..0], m) + if |P| == m then 1 else 0;
    }
  }

  lemma Pascal(n: nat, k: int)
    ensures Choose(n + 1, k) == Choose(n, k - 1) + Choose(n, k)
  {
    if k == n + 1 {
      assert Choose(n, k - 1) == 1;
    }
  }

  // The step of the running product: k * C(n, k) == (n - k + 1) * C(n, k - 1), so the division is exact.
  lemma {:induction false} ChooseStep(n: nat, k: nat)
    requires 1 <= k <= n
    ensures k * Choose(n, k) == (n - k + 1) * Choose(n, k - 1)
  {
    if k == n {
      ChooseAllButOne(n);
    } else if k == 1 {
      ChooseOne(n);
    } else {
      ChooseStep(n - 1, k);
      ChooseStep(n - 1, k - 1);
      ChooseArithmetic(n, k, Choose(n - 1, k - 2), Choose(n - 1, k - 1), Choose(n - 1, k));
    }
  }

  lemma ChooseArithmetic(n: int, k: int, a: int, b: int, c: int)
    requires k * c == (n - k) * b && (k - 1) * b == (n - k + 1) * a
    ensures k * (b + c) == (n - k + 1) * (a + b)
  {
    assert k * (b + c) == k * b + (n - k) * b;
    assert k * b + (n - k) * b == (k - 1) * b + (n - k + 1) * b;
  }

  lemma {:induction false} ChooseOne(n: nat)
    requires n >= 1
    ensures Choose(n, 1) == n && Choose(n, 0) == 1
  {
    if n > 1 {
      ChooseOne(n - 1);
    }
  }

  lemma {:induction false} ChooseAllButOne(n: nat)
    requires n >= 1
    ensures Choose(n, n - 1) == n && Choose(n, n) == 1
  {
    if n > 1 {
      ChooseAllButOne(n - 1);
    }
  }
}
