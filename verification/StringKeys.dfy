/** Lists of distinct strings, and the keys of a collection in string order. */
module StringKeys {
  import Sorting

  ghost predicate Distinct(s: seq<string>) {
    forall i, j :: 0 <= i < j < |s| ==> s[i] != s[j]
  }

  lemma DistinctConcat(a: seq<string>, b: seq<string>)
    requires Distinct(a) && Distinct(b) && forall x :: x in a ==> x !in b
    ensures Distinct(a + b)
  {
    forall i, j | 0 <= i < j < |a + b| ensures (a + b)[i] != (a + b)[j] {
      if i < |a| <= j { assert (a + b)[i] in a && (a + b)[j] in b; }
    }
  }

  lemma {:induction false} DistinctCounts(a: seq<string>)
    requires Distinct(a)
    ensures forall x :: multiset(a)[x] <= 1
    decreases |a|
  {
    if a != [] {
      var n := |a| - 1;
      DistinctCounts(a[..n]);
      assert a == a[..n] + [a[n]];
      assert a[n] !in a[..n];
    }
  }

  /** A permutation of distinct elements is distinct. */
  lemma DistinctByCount(a: seq<string>, b: seq<string>)
    requires Distinct(a) && multiset(a) == multiset(b)
    ensures Distinct(b)
  {
    DistinctCounts(a);
    forall i, j | 0 <= i < j < |b| ensures b[i] != b[j] {
      assert b == b[..j] + [b[j]] + b[j + 1..];
      assert multiset(b)[b[j]] == multiset(b[..j])[b[j]] + 1 + multiset(b[j + 1..])[b[j]];
      assert b[i] in b[..j];
    }
  }

  lemma {:induction false} LeastKey(keys: set<string>)
    requires keys != {}
    ensures exists k :: k in keys && forall k' :: k' in keys ==> Sorting.StringLe(k, k')
    decreases |keys|
  {
    Sorting.StringOrder();
    var x :| x in keys;
    if keys == {x} {
      assert forall k' :: k' in keys ==> Sorting.StringLe(x, k');
    } else {
      assert keys == {x} + (keys - {x});
      LeastKey(keys - {x});
      var m :| m in keys - {x} && forall k' :: k' in keys - {x} ==> Sorting.StringLe(m, k');
      var k := if Sorting.StringLe(x, m) then x else m;
      assert forall k' :: k' in keys ==> Sorting.StringLe(k, k');
    }
  }

  /** The keys of a set in `sort.Strings` order. */
  ghost function SortedKeys(keys: set<string>): seq<string> {
    if keys == {} then []
    else
      LeastKey(keys);
      var k :| k in keys && forall k' :: k' in keys ==> Sorting.StringLe(k, k');
      [k] + SortedKeys(keys - {k})
  }

  /** The list splits off the least key. */
  lemma SortedKeysSplit(keys: set<string>) returns (m: string)
    requires keys != {}
    ensures m in keys && SortedKeys(keys) == [m] + SortedKeys(keys - {m})
    ensures forall k :: k in keys ==> Sorting.StringLe(m, k)
  {
    LeastKey(keys);
    m :| m in keys && (forall k :: k in keys ==> Sorting.StringLe(m, k))
      && SortedKeys(keys) == [m] + SortedKeys(keys - {m});
  }

  lemma {:induction false} SortedKeysCover(keys: set<string>)
    ensures forall k :: k in SortedKeys(keys) <==> k in keys
    ensures Distinct(SortedKeys(keys))
    decreases |keys|
  {
    if keys != {} {
      var m := SortedKeysSplit(keys);
      SortedKeysCover(keys - {m});
    }
  }

  lemma {:induction false} SortedKeysAscend(keys: set<string>)
    ensures Sorting.Sorted(Sorting.StringLe, SortedKeys(keys))
    decreases |keys|
  {
    if keys != {} {
      var m := SortedKeysSplit(keys);
      SortedKeysAscend(keys - {m});
      SortedKeysCover(keys - {m});
      Sorting.SortedCons(Sorting.StringLe, m, SortedKeys(keys - {m}));
    }
  }

  /** The first of a sorted list is the least key. */
  lemma SortedHead(s: seq<string>, keys: set<string>, m: string)
    requires Sorting.Sorted(Sorting.StringLe, s) && multiset(s) == multiset(keys) && s != []
    requires m in keys && forall k :: k in keys ==> Sorting.StringLe(m, k)
    ensures s[0] == m
  {
    assert s[0] in multiset(s) && m in multiset(keys);
    assert m in s;
    var i :| 0 <= i < |s| && s[i] == m;
    Sorting.StringLeTotal(s[0], m);
    assert i > 0 ==> Sorting.StringLe(s[0], s[i]);
  }

  lemma DropHead(s: seq<string>, keys: set<string>, m: string)
    requires s != [] && s[0] == m && m in keys && multiset(s) == multiset(keys)
    ensures multiset(s[1..]) == multiset(keys - {m}) && s == [m] + s[1..]
  {
    assert s == [m] + s[1..];
    assert multiset(keys - {m}) == multiset(keys) - multiset{m};
  }

  /** A sorted list of the keys of a set, each once, is the only one. */
  lemma {:induction false} SortedIsUnique(s: seq<string>, keys: set<string>)
    requires Sorting.Sorted(Sorting.StringLe, s) && multiset(s) == multiset(keys)
    ensures s == SortedKeys(keys)
    decreases |s|
  {
    if s == [] {
      assert forall k :: k in keys ==> k in multiset(keys);
      assert keys == {};
    } else {
      assert s[0] in multiset(s);
      var m := SortedKeysSplit(keys);
      SortedHead(s, keys, m);
      DropHead(s, keys, m);
      SortedIsUnique(s[1..], keys - {m});
    }
  }

  /** The keys, collected in any order and sorted. */
  method OrderedKeys(keys: set<string>) returns (ordered: seq<string>)
    ensures ordered == SortedKeys(keys)
  {
    ordered := [];
    var todo := keys;
    ghost var done: set<string> := {};
    while todo != {}
      invariant todo !! done && todo + done == keys
      invariant multiset(ordered) == multiset(done)
      decreases |todo|
    {
      var k :| k in todo;
      ordered := ordered + [k];
      todo, done := todo - {k}, done + {k};
    }
    assert done == keys;
    Sorting.StringOrder();
    Sorting.SortCorrect(Sorting.StringLe, ordered);
    ordered := Sorting.Sort(Sorting.StringLe, ordered);
    SortedIsUnique(ordered, keys);
  }
}
