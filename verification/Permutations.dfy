/** `permutations` of rad_util.py: insert the first item at every position of every permutation of the rest. */
module Permuting {
  import opened Sequences

  function Insert<T>(item: T, sub: seq<T>, i: nat): seq<T>
    requires i <= |sub|
  {
    sub[..i] + [item] + sub[i..]
  }

  function Insertions<T>(item: T, sub: seq<T>, n: nat): seq<seq<T>>
    requires n <= |sub| + 1
  {
    if n == 0 then [] else Insertions(item, sub, n - 1) + [Insert(item, sub, n - 1)]
  }

  function AllInsertions<T>(item: T, subs: seq<seq<T>>): seq<seq<T>> {
    if subs == [] then []
    else
      var last := subs[|subs| - 1];
      AllInsertions(item, subs[..|subs| - 1]) + Insertions(item, last, |last| + 1)
  }

  function Perms<T>(input: seq<T>): seq<seq<T>> {
    if |input| > 1 then AllInsertions(input[0], Perms(input[1..])) else [input]
  }

  function Factorial(n: nat): nat {
    if n == 0 then 1 else n * Factorial(n - 1)
  }

  lemma AllInsertionsStep<T>(item: T, subs: seq<seq<T>>, n: nat)
    requires n < |subs|
    ensures AllInsertions(item, subs[..n + 1])
         == AllInsertions(item, subs[..n]) + Insertions(item, subs[n], |subs[n]| + 1)
  {
    hide Insertions;
    assert subs[..n + 1][..n] == subs[..n];
  }

  lemma InsertionsStep<T>(before: seq<seq<T>>, item: T, sub: seq<T>, i: nat)
    requires i <= |sub|
    ensures before + Insertions(item, sub, i + 1) == before + Insertions(item, sub, i) + [Insert(item, sub, i)]
  {
  }

  lemma NoInsertions<T>(item: T, subs: seq<seq<T>>)
    ensures AllInsertions(item, subs[..0]) == [] && subs[..|subs|] == subs
    ensures forall sub :: Insertions(item, sub, 0) == []
  {
  }

  lemma PermsStep<T>(input: seq<T>)
    ensures Perms(input) == if |input| > 1 then AllInsertions(input[0], Perms(input[1..])) else [input]
  {
  }

  method Permutations<T(!new)>(inputList: seq<T>) returns (outLists: seq<seq<T>>)
    ensures outLists == Perms(inputList)
    decreases |inputList|
  {
    hide Perms, AllInsertions, Insertions;
    PermsStep(inputList);
    outLists := [];
    if |inputList| > 1 {
      var item := inputList[0];
      var subLists := Permutations(inputList[1..]);
      PermsLength(inputList[1..]);
      NoInsertions(item, subLists);
      for n := 0 to |subLists|
        invariant outLists == AllInsertions(item, subLists[..n])
      {
        var subList := subLists[n];
        ghost var before := outLists;
        assert subList in subLists;
        AllInsertionsStep(item, subLists, n);
        for i := 0 to |inputList|
          invariant outLists == before + Insertions(item, subList, i)
        {
          InsertionsStep(before, item, subList, i);
          var newList := subList;
          newList := newList[..i] + [item] + newList[i..];
          outLists := outLists + [newList];
        }
      }
    } else {
      outLists := [inputList];
    }
  }

  // ----- membership ------------------------------------------------------------

  lemma {:induction false} InInsertions<T>(item: T, sub: seq<T>, n: nat, p: seq<T>)
    requires n <= |sub| + 1
    ensures |Insertions(item, sub, n)| == n
    ensures p in Insertions(item, sub, n) <==> exists i :: 0 <= i < n && p == Insert(item, sub, i)
  {
    if n > 0 {
      InInsertions(item, sub, n - 1, p);
    }
  }

  ghost predicate FromSub<T>(item: T, sub: seq<T>, p: seq<T>) {
    exists i :: 0 <= i <= |sub| && p == Insert(item, sub, i)
  }

  lemma {:induction false} InAllInsertions<T>(item: T, subs: seq<seq<T>>, p: seq<T>)
    ensures p in AllInsertions(item, subs) <==> exists sub :: sub in subs && FromSub(item, sub, p)
  {
    if subs != [] {
      var front, last := subs[..|subs| - 1], subs[|subs| - 1];
      InAllInsertions(item, front, p);
      InInsertions(item, last, |last| + 1, p);
      assert subs == front + [last];
      assert p in Insertions(item, last, |last| + 1) <==> FromSub(item, last, p);
    }
  }

  lemma InsertItems<T>(item: T, sub: seq<T>, i: nat)
    requires i <= |sub|
    ensures multiset(Insert(item, sub, i)) == multiset{item} + multiset(sub)
  {
    assert sub == sub[..i] + sub[i..];
  }

  lemma RemoveItems<T>(p: seq<T>, i: nat)
    requires i < |p|
    ensures var sub := p[..i] + p[i + 1..];
      && p == Insert(p[i], sub, i) && FromSub(p[i], sub, p)
      && multiset(p) == multiset{p[i]} + multiset(sub)
  {
    var sub := p[..i] + p[i + 1..];
    assert p == Insert(p[i], sub, i);
    InsertItems(p[i], sub, i);
  }

  lemma FromSubItems<T>(item: T, sub: seq<T>, p: seq<T>)
    requires FromSub(item, sub, p)
    ensures multiset(p) == multiset{item} + multiset(sub)
  {
    var i :| 0 <= i <= |sub| && p == Insert(item, sub, i);
    InsertItems(item, sub, i);
  }

  lemma HeadFromTail<T>(input: seq<T>)
    requires input != []
    ensures FromSub(input[0], input[1..], input)
  {
    assert input == Insert(input[0], input[1..], 0);
  }

  lemma {:induction false} PermsSound<T(!new)>(input: seq<T>, p: seq<T>)
    requires p in Perms(input)
    ensures multiset(p) == multiset(input)
    decreases |input|
  {
    hide AllInsertions, Insert, FromSub;
    if |input| > 1 {
      var item, rest := input[0], input[1..];
      InAllInsertions(item, Perms(rest), p);
      var sub :| sub in Perms(rest) && FromSub(item, sub, p);
      PermsSound(rest, sub);
      FromSubItems(item, sub, p);
      HeadFromTail(input);
      FromSubItems(item, rest, input);
    }
  }

  /** Taking the first item of the input out of a rearrangement leaves a rearrangement of the rest. */
  lemma TakeOut<T(!new)>(input: seq<T>, p: seq<T>) returns (sub: seq<T>)
    requires input != [] && multiset(p) == multiset(input)
    ensures multiset(sub) == multiset(input[1..]) && FromSub(input[0], sub, p)
  {
    RemoveItems(input, 0);
    assert input[..0] + input[1..] == input[1..];
    assert input[0] in multiset(p);
    var i :| 0 <= i < |p| && p[i] == input[0];
    RemoveItems(p, i);
    sub := p[..i] + p[i + 1..];
    Cancel(input[0], multiset(sub), multiset(input[1..]));
  }

  lemma Cancel<T(!new)>(x: T, a: multiset<T>, b: multiset<T>)
    requires multiset{x} + a == multiset{x} + b
    ensures a == b
  {
    forall y: T ensures a[y] == b[y] {
      assert (multiset{x} + a)[y] == (multiset{x} + b)[y];
    }
  }

  lemma {:induction false} PermsComplete<T(!new)>(input: seq<T>, p: seq<T>)
    requires multiset(p) == multiset(input)
    ensures p in Perms(input)
    decreases |input|
  {
    hide FromSub, AllInsertions;
    if |input| > 1 {
      var sub := TakeOut(input, p);
      PermsComplete(input[1..], sub);
      InAllInsertions(input[0], Perms(input[1..]), p);
    } else {
      ShortPermutation(input, p);
    }
  }

  /** The results are exactly the rearrangements of the input, whether or not items repeat. */
  lemma PermsExact<T(!new)>(input: seq<T>, p: seq<T>)
    ensures p in Perms(input) <==> multiset(p) == multiset(input)
  {
    if p in Perms(input) {
      PermsSound(input, p);
    }
    if multiset(p) == multiset(input) {
      PermsComplete(input, p);
    }
  }

  lemma ShortPermutation<T>(input: seq<T>, p: seq<T>)
    requires |input| <= 1
    ensures multiset(p) == multiset(input) <==> p == input
  {
  }

  lemma PermsLength<T(!new)>(input: seq<T>)
    ensures forall p :: p in Perms(input) ==> |p| == |input|
  {
    forall p | p in Perms(input) ensures |p| == |input| {
      PermsExact(input, p);
      assert |p| == |multiset(p)| && |input| == |multiset(input)|;
    }
  }

  // ----- how many ----------------------------------------------------------------

  lemma OneMore(k: nat, m: nat)
    ensures (k + 1) * m == k * m + m
  {
  }

  lemma InsertionsCount<T>(item: T, sub: seq<T>)
    ensures |Insertions(item, sub, |sub| + 1)| == |sub| + 1
  {
    InInsertions(item, sub, |sub| + 1, []);
  }

  lemma {:induction false} AllInsertionsCount<T>(item: T, subs: seq<seq<T>>, n: nat)
    requires forall i :: 0 <= i < |subs| ==> |subs[i]| == n
    ensures |AllInsertions(item, subs)| == |subs| * (n + 1)
  {
    hide Insertions;
    if subs != [] {
      var k := |subs| - 1;
      AllInsertionsCount(item, subs[..k], n);
      InsertionsCount(item, subs[k]);
      OneMore(k, n + 1);
    }
  }

  lemma {:induction false} PermsCount<T(!new)>(input: seq<T>)
    ensures |Perms(input)| == Factorial(|input|)
    decreases |input|
  {
    if |input| > 1 {
      var n := |input| - 1;
      var subs := Perms(input[1..]);
      PermsCount(input[1..]);
      PermsLength(input[1..]);
      assert forall i :: 0 <= i < |subs| ==> subs[i] in subs;
      hide AllInsertions;
      AllInsertionsCount(input[0], subs, n);
      assert |Perms(input)| == Factorial(n) * (n + 1);
      FactorialStep(n);
    } else if |input| == 1 {
      FactorialStep(0);
    }
  }

  lemma FactorialStep(n: nat)
    ensures Factorial(n + 1) == Factorial(n) * (n + 1)
    ensures Factorial(0) == Factorial(1) == 1
  {
  }

  // ----- no repetition -------------------------------------------------------------

  /** Where a new item was inserted, and into what, can be read off the result. */
  lemma InsertInjective<T(!new)>(item: T, a: seq<T>, i: nat, b: seq<T>, j: nat)
    requires i <= |a| && j <= |b| && item !in a && item !in b
    requires Insert(item, a, i) == Insert(item, b, j)
    ensures i == j && a == b
  {
    var p := Insert(item, a, i);
    assert p[i] == item && p[j] == item;
    assert forall k :: 0 <= k < i ==> p[k] == a[k];
    assert forall k :: 0 <= k < j ==> p[k] == b[k];
    assert i == j;
    assert a == p[..i] + p[i + 1..];
    assert b == p[..j] + p[j + 1..];
  }

  lemma {:induction false} InsertionsDistinct<T(!new)>(item: T, sub: seq<T>, n: nat)
    requires n <= |sub| + 1 && item !in sub
    ensures Distinct(Insertions(item, sub, n))
  {
    if n > 0 {
      InsertionsDistinct(item, sub, n - 1);
      var front, last := Insertions(item, sub, n - 1), Insert(item, sub, n - 1);
      InInsertions(item, sub, n - 1, last);
      if last in front {
        var i :| 0 <= i < n - 1 && last == Insert(item, sub, i);
        InsertInjective(item, sub, n - 1, sub, i);
      }
      DistinctAppend(front, [last]);
    }
  }

  lemma DistinctAppend<T(!new)>(a: seq<T>, b: seq<T>)
    requires Distinct(a) && Distinct(b) && forall x :: x in a ==> x !in b
    ensures Distinct(a + b)
  {
    forall i, j | 0 <= i < j < |a + b| ensures (a + b)[i] != (a + b)[j] {
      if i < |a| <= j {
        assert a[i] in a && b[j - |a|] in b;
      }
    }
  }

  lemma {:induction false} AllInsertionsDistinct<T(!new)>(item: T, subs: seq<seq<T>>)
    requires Distinct(subs) && forall sub :: sub in subs ==> item !in sub
    ensures Distinct(AllInsertions(item, subs))
  {
    if subs != [] {
      var front, last := subs[..|subs| - 1], subs[|subs| - 1];
      assert last in subs && forall sub :: sub in front ==> sub in subs;
      AllInsertionsDistinct(item, front);
      InsertionsDistinct(item, last, |last| + 1);
      forall p | p in AllInsertions(item, front) ensures p !in Insertions(item, last, |last| + 1) {
        InAllInsertions(item, front, p);
        InInsertions(item, last, |last| + 1, p);
        var sub :| sub in front && FromSub(item, sub, p);
        var i :| 0 <= i <= |sub| && p == Insert(item, sub, i);
        if j :| 0 <= j < |last| + 1 && p == Insert(item, last, j) {
          InsertInjective(item, sub, i, last, j);
        }
      }
      DistinctAppend(AllInsertions(item, front), Insertions(item, last, |last| + 1));
    }
  }

  lemma {:induction false} PermsDistinct<T(!new)>(input: seq<T>)
    requires Distinct(input)
    ensures Distinct(Perms(input))
    decreases |input|
  {
    if |input| > 1 {
      var item, rest := input[0], input[1..];
      PermsDistinct(rest);
      forall sub | sub in Perms(rest) ensures item !in sub {
        PermsExact(rest, sub);
        assert item !in rest;
        assert multiset(sub)[item] == multiset(rest)[item] == 0;
      }
      AllInsertionsDistinct(item, Perms(rest));
    }
  }

  /** For n distinct items: n! lists, pairwise different, which are exactly the rearrangements. */
  lemma PermutationsOfDistinct<T(!new)>(input: seq<T>)
    requires Distinct(input)
    ensures |Perms(input)| == Factorial(|input|) && Distinct(Perms(input))
    ensures forall p :: p in Perms(input) <==> multiset(p) == multiset(input)
  {
    PermsCount(input);
    PermsDistinct(input);
    forall p ensures p in Perms(input) <==> multiset(p) == multiset(input) {
      PermsExact(input, p);
    }
  }

  // ----- how often -----------------------------------------------------------------

  ghost function Times(k: nat, m: nat): nat {
    if k == 0 then 0 else Times(k - 1, m) + m
  }

  /** The product of the factorials of the multiplicities. */
  ghost function Factorials<T>(items: multiset<T>): nat
    decreases |items|
  {
    if items == multiset{} then 1
    else var x :| x in items; Times(Factorial(items[x]), Factorials(items[x := 0]))
  }

  /** Places among the first `n` of `p` from which taking out the item leaves `sub`. */
  ghost function Places<T>(item: T, sub: seq<T>, p: seq<T>, n: nat): nat
    requires n <= |sub| + 1
  {
    if n == 0 then 0 else Places(item, sub, p, n - 1) + if Insert(item, sub, n - 1) == p then 1 else 0
  }

  lemma {:induction false} InsertionsListed<T(!new)>(item: T, sub: seq<T>, n: nat, p: seq<T>)
    requires n <= |sub| + 1
    ensures multiset(Insertions(item, sub, n))[p] == Places(item, sub, p, n)
  {
    hide Insert;
    if n > 0 {
      InsertionsListed(item, sub, n - 1, p);
    }
  }

  ghost function Without<T>(p: seq<T>, i: nat): seq<T>
    requires i < |p|
  {
    p[..i] + p[i + 1..]
  }

  /** How often `p` arises by inserting the item in front of place `n`, over all `subs`. */
  ghost function Slots<T>(item: T, subs: seq<seq<T>>, p: seq<T>, n: nat): nat
    requires n <= |p|
  {
    if n == 0 then 0
    else Slots(item, subs, p, n - 1) + if p[n - 1] == item then multiset(subs)[Without(p, n - 1)] else 0
  }

  lemma InsertWithout<T>(item: T, sub: seq<T>, p: seq<T>, i: nat)
    requires i <= |sub| && |p| == |sub| + 1
    ensures Insert(item, sub, i) == p <==> p[i] == item && sub == Without(p, i)
  {
    if Insert(item, sub, i) == p {
      assert sub == sub[..i] + sub[i..] == Without(p, i);
    }
    if p[i] == item && sub == Without(p, i) {
      assert p == p[..i] + [p[i]] + p[i + 1..];
    }
  }

  lemma {:induction false} SlotsMore<T(!new)>(item: T, front: seq<seq<T>>, last: seq<T>, p: seq<T>, n: nat)
    requires n <= |p| == |last| + 1
    ensures Slots(item, front + [last], p, n) == Slots(item, front, p, n) + Places(item, last, p, n)
  {
    hide Insert, Without;
    if n > 0 {
      SlotsMore(item, front, last, p, n - 1);
      InsertWithout(item, last, p, n - 1);
    }
  }

  lemma {:induction false} NoSlots<T(!new)>(item: T, p: seq<T>, n: nat)
    requires n <= |p|
    ensures Slots(item, [], p, n) == 0
  {
    if n > 0 {
      NoSlots(item, p, n - 1);
    }
  }

  lemma {:induction false} AllInsertionsListed<T(!new)>(item: T, subs: seq<seq<T>>, p: seq<T>)
    requires forall i :: 0 <= i < |subs| ==> |subs[i]| + 1 == |p|
    ensures multiset(AllInsertions(item, subs))[p] == if subs == [] then 0 else Slots(item, subs, p, |p|)
  {
    hide Insertions, Slots, Places;
    if subs != [] {
      var front, last := subs[..|subs| - 1], subs[|subs| - 1];
      assert subs == front + [last];
      AllInsertionsListed(item, front, p);
      InsertionsListed(item, last, |last| + 1, p);
      SlotsMore(item, front, last, p, |p|);
      NoSlots(item, p, |p|);
    }
  }

  /** Every place where the item stands gives the same number. */
  lemma {:induction false} EqualSlots<T(!new)>(item: T, subs: seq<seq<T>>, p: seq<T>, n: nat, each: nat)
    requires n <= |p|
    requires forall i: nat :: i < |p| && p[i] == item ==> multiset(subs)[Without(p, i)] == each
    ensures Slots(item, subs, p, n) == Times(multiset(p[..n])[item], each)
  {
    if n > 0 {
      EqualSlots(item, subs, p, n - 1, each);
      assert p[..n] == p[..n - 1] + [p[n - 1]];
    }
  }

  /** Every rearrangement is listed as often as there are ways to exchange equal items. */
  lemma {:induction false} PermsListed<T(!new)>(input: seq<T>, p: seq<T>)
    requires multiset(p) == multiset(input)
    ensures multiset(Perms(input))[p] == Factorials(multiset(input))
    decreases |input|
  {
    hide AllInsertions, Slots, Factorials;
    if |input| > 1 {
      var item, rest := input[0], input[1..];
      var subs, each := Perms(rest), Factorials(multiset(rest));
      forall i: nat | i < |p| && p[i] == item ensures multiset(subs)[Without(p, i)] == each {
        RemoveItems(p, i);
        assert input == [item] + rest;
        Cancel(item, multiset(Without(p, i)), multiset(rest));
        PermsListed(rest, Without(p, i));
      }
      PermsLength(rest);
      assert |p| == |multiset(p)| == |multiset(input)| == |input|;
      forall i | 0 <= i < |subs| ensures |subs[i]| + 1 == |p| {
        assert subs[i] in subs;
      }
      AllInsertionsListed(item, subs, p);
      EqualSlots(item, subs, p, |p|, each);
      assert p[..|p|] == p;
      PermsExact(rest, rest);
      FactorialsMore(input);
    } else {
      ShortPermutation(input, p);
      FactorialsShort(input);
    }
  }

  // ----- the product of factorials --------------------------------------------------

  lemma {:induction false} TimesIsProduct(k: nat, m: nat)
    ensures Times(k, m) == k * m
  {
    if k > 0 {
      TimesIsProduct(k - 1, m);
      OneMore(k - 1, m);
    }
  }

  lemma Exchange(a: nat, b: nat, c: nat)
    ensures a * (b * c) == b * (a * c)
  {
  }

  lemma TimesExchange(a: nat, b: nat, c: nat)
    ensures Times(a, Times(b, c)) == Times(b, Times(a, c))
  {
    TimesIsProduct(b, c);
    TimesIsProduct(a, c);
    TimesIsProduct(a, Times(b, c));
    TimesIsProduct(b, Times(a, c));
    Exchange(a, b, c);
  }

  /** Which item is taken first does not matter. */
  lemma {:induction false} FactorialsWithout<T(!new)>(items: multiset<T>, x: T)
    requires x in items
    ensures Factorials(items) == Times(Factorial(items[x]), Factorials(items[x := 0]))
    decreases |items|
  {
    hide Times, Factorial;
    var y :| y in items && Factorials(items) == Times(Factorial(items[y]), Factorials(items[y := 0]));
    if x != y {
      FactorialsWithout(items[y := 0], x);
      FactorialsWithout(items[x := 0], y);
      assert items[y := 0][x := 0] == items[x := 0][y := 0];
      TimesExchange(Factorial(items[x]), Factorial(items[y]), Factorials(items[x := 0][y := 0]));
    }
  }

  lemma FactorialsMore<T(!new)>(input: seq<T>)
    requires input != []
    ensures Factorials(multiset(input)) == Times(multiset(input)[input[0]], Factorials(multiset(input[1..])))
  {
    hide Factorials, Times, Factorial;
    var item, rest := input[0], input[1..];
    var all, less := multiset(input), multiset(input[1..]);
    assert input == [item] + rest;
    FactorialsWithout(all, item);
    assert all[item := 0] == less[item := 0];
    FactorialTimes(less[item], Factorials(all[item := 0]));
    if item in less {
      FactorialsWithout(less, item);
    } else {
      assert less[item := 0] == less;
      FactorialTimesOne(Factorials(less));
    }
  }

  lemma FactorialTimes(n: nat, m: nat)
    ensures Times(Factorial(n + 1), m) == Times(n + 1, Times(Factorial(n), m))
  {
    TimesIsProduct(Factorial(n + 1), m);
    TimesIsProduct(Factorial(n), m);
    TimesIsProduct(n + 1, Times(Factorial(n), m));
    Associate(n + 1, Factorial(n), m);
  }

  lemma Associate(a: nat, b: nat, c: nat)
    ensures a * b * c == a * (b * c)
  {
  }

  lemma FactorialTimesOne(m: nat)
    ensures Times(Factorial(0), m) == m
  {
    TimesIsProduct(1, m);
  }

  lemma FactorialsShort<T(!new)>(input: seq<T>)
    requires |input| <= 1
    ensures Factorials(multiset(input)) == 1
  {
    if input == [] {
      assert multiset(input) == multiset{};
    } else {
      FactorialsMore(input);
      assert multiset(input[1..]) == multiset{};
      assert input == [input[0]];
      TimesIsProduct(1, 1);
    }
  }

  // ----- how many different ones ------------------------------------------------------

  lemma {:induction false} EquallyOften<T(!new)>(items: multiset<T>, different: set<T>, each: nat)
    requires forall x :: x in different <==> x in items
    requires forall x :: x in items ==> items[x] == each
    ensures |items| == Times(|different|, each)
    decreases |items|
  {
    if items == multiset{} {
      assert different == {};
    } else {
      var x :| x in items;
      EquallyOften(items[x := 0], different - {x}, each);
      assert |different| == |different - {x}| + 1;
      assert items == items[x := 0] + multiset{}[x := each];
    }
  }

  /** The number of different results, times the product of the factorials of the multiplicities, is n!. */
  lemma DifferentPerms<T(!new)>(input: seq<T>)
    ensures |Items(Perms(input))| * Factorials(multiset(input)) == Factorial(|input|)
  {
    hide Perms, Factorials, Factorial, Times;
    var all := Perms(input);
    var each := Factorials(multiset(input));
    forall p | p in multiset(all) ensures multiset(all)[p] == each {
      PermsExact(input, p);
      PermsListed(input, p);
    }
    EquallyOften(multiset(all), Items(all), each);
    TimesIsProduct(|Items(all)|, each);
    PermsCount(input);
  }

  // ----- in which order ---------------------------------------------------------------

  lemma {:induction false} InsertionsAt<T>(item: T, sub: seq<T>, n: nat, i: nat)
    requires i < n <= |sub| + 1
    ensures |Insertions(item, sub, n)| == n
    ensures Insertions(item, sub, n)[i] == sub[..i] + [item] + sub[i..]
  {
    InInsertions(item, sub, n, []);
    if i < n - 1 {
      InInsertions(item, sub, n - 1, []);
      InsertionsAt(item, sub, n - 1, i);
    }
  }

  lemma {:induction false} AllInsertionsAt<T>(item: T, subs: seq<seq<T>>, n: nat, k: nat, i: nat)
    requires forall j :: 0 <= j < |subs| ==> |subs[j]| + 1 == n
    requires k < |subs| && i < n
    ensures |AllInsertions(item, subs)| == Times(|subs|, n)
    ensures Times(k, n) + i < Times(|subs|, n)
    ensures AllInsertions(item, subs)[Times(k, n) + i] == subs[k][..i] + [item] + subs[k][i..]
  {
    hide Insertions;
    var front, last := subs[..|subs| - 1], subs[|subs| - 1];
    InsertionsCount(item, last);
    if k < |front| {
      AllInsertionsAt(item, front, n, k, i);
    } else {
      AllInsertionsLength(item, front, n);
      InsertionsAt(item, last, n, i);
    }
  }

  lemma {:induction false} AllInsertionsLength<T>(item: T, subs: seq<seq<T>>, n: nat)
    requires forall j :: 0 <= j < |subs| ==> |subs[j]| + 1 == n
    ensures |AllInsertions(item, subs)| == Times(|subs|, n)
  {
    hide Insertions;
    if subs != [] {
      InsertionsCount(item, subs[|subs| - 1]);
      AllInsertionsLength(item, subs[..|subs| - 1], n);
    }
  }

  lemma PermsAt<T(!new)>(input: seq<T>, k: nat, i: nat)
    requires |input| > 1 && k < |Perms(input[1..])| && i < |input|
    ensures Times(k, |input|) + i < |Perms(input)|
    ensures var sub := Perms(input[1..])[k];
      i <= |sub| && Perms(input)[Times(k, |input|) + i] == sub[..i] + [input[0]] + sub[i..]
  {
    hide AllInsertions, Times, Perms;
    var subs := Perms(input[1..]);
    PermsLength(input[1..]);
    forall j | 0 <= j < |subs| ensures |subs[j]| + 1 == |input| {
      assert subs[j] in subs;
    }
    AllInsertionsAt(input[0], subs, |input|, k, i);
    PermsStep(input);
  }

  /** The order of the results: for each result for the rest of the list, in their order, the first item at every
      place from the first to the last. */
  lemma PermsInOrder<T(!new)>(input: seq<T>, k: nat, i: nat)
    requires |input| > 1 && k < |Perms(input[1..])| && i < |input|
    ensures var at, sub := k * |input| + i, Perms(input[1..])[k];
      at < |Perms(input)| && i <= |sub| && Perms(input)[at] == sub[..i] + [input[0]] + sub[i..]
  {
    hide Perms, Times;
    PermsAt(input, k, i);
    TimesIsProduct(k, |input|);
  }
}
