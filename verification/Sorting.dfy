/** Stable sorting by a total preorder, and the string order used by the sorts of the analyzers. */
module Sorting {
  ghost predicate TotalPreorder<T(!new)>(le: (T, T) -> bool) {
    && (forall x, y :: le(x, y) || le(y, x))
    && (forall x, y, z :: le(x, y) && le(y, z) ==> le(x, z))
  }

  ghost predicate Sorted<T>(le: (T, T) -> bool, s: seq<T>) {
    forall i, j :: 0 <= i < j < |s| ==> le(s[i], s[j])
  }

  function Insert<T>(le: (T, T) -> bool, x: T, s: seq<T>): seq<T> {
    if s == [] || le(x, s[0]) then [x] + s else [s[0]] + Insert(le, x, s[1..])
  }

  function Sort<T>(le: (T, T) -> bool, s: seq<T>): seq<T> {
    if s == [] then [] else Insert(le, s[0], Sort(le, s[1..]))
  }

  lemma InsertMembers<T(!new)>(le: (T, T) -> bool, x: T, s: seq<T>)
    ensures forall y :: y in Insert(le, x, s) ==> y == x || y in s
    decreases |s|
  {
    if s != [] && !le(x, s[0]) { InsertMembers(le, x, s[1..]); }
  }

  lemma SortedCons<T(!new)>(le: (T, T) -> bool, x: T, s: seq<T>)
    requires Sorted(le, s) && forall y :: y in s ==> le(x, y)
    ensures Sorted(le, [x] + s)
  {
  }

  lemma {:induction false} InsertKeeps<T(!new)>(le: (T, T) -> bool, x: T, s: seq<T>)
    requires TotalPreorder(le) && Sorted(le, s)
    ensures Sorted(le, Insert(le, x, s))
    decreases |s|
  {
    if s == [] {
    } else if le(x, s[0]) {
      forall y | y in s ensures le(x, y) {
        var i :| 0 <= i < |s| && s[i] == y;
        assert i > 0 ==> le(s[0], s[i]);
      }
      SortedCons(le, x, s);
    } else {
      InsertKeeps(le, x, s[1..]);
      InsertMembers(le, x, s[1..]);
      forall y | y in Insert(le, x, s[1..]) ensures le(s[0], y) {
        if y in s[1..] { var i :| 1 <= i < |s| && s[i] == y; }
      }
      SortedCons(le, s[0], Insert(le, x, s[1..]));
    }
  }

  lemma {:induction false} InsertAdds<T>(le: (T, T) -> bool, x: T, s: seq<T>)
    ensures multiset(Insert(le, x, s)) == multiset(s) + multiset{x}
    decreases |s|
  {
    if s != [] && !le(x, s[0]) {
      InsertAdds(le, x, s[1..]);
      assert s == [s[0]] + s[1..];
    }
  }

  /** Sorting orders the elements and neither loses nor invents one. */
  lemma {:induction false} SortCorrect<T(!new)>(le: (T, T) -> bool, s: seq<T>)
    requires TotalPreorder(le)
    ensures Sorted(le, Sort(le, s))
    ensures multiset(Sort(le, s)) == multiset(s)
    ensures |Sort(le, s)| == |s|
    decreases |s|
  {
    if s != [] {
      SortCorrect(le, s[1..]);
      InsertKeeps(le, s[0], Sort(le, s[1..]));
      InsertAdds(le, s[0], Sort(le, s[1..]));
      assert s == [s[0]] + s[1..];
      assert |multiset(Sort(le, s))| == |multiset(s)|;
    }
  }

  lemma SortMembers<T(!new)>(le: (T, T) -> bool, s: seq<T>)
    requires TotalPreorder(le)
    ensures forall x :: x in Sort(le, s) <==> x in s
  {
    SortCorrect(le, s);
    forall x ensures x in Sort(le, s) <==> x in s {
      assert x in Sort(le, s) <==> x in multiset(Sort(le, s));
    }
  }

  /** `x` may stand ahead of `y` in a stably sorted list: it was ahead before, or it ranks strictly lower. */
  ghost predicate Ahead<T>(le: (T, T) -> bool, before: (T, T) -> bool, x: T, y: T) {
    le(x, y) && (before(x, y) || (before(y, x) && !le(y, x)))
  }

  ghost predicate StablySorted<T>(le: (T, T) -> bool, before: (T, T) -> bool, s: seq<T>) {
    forall i, j :: 0 <= i < j < |s| ==> Ahead(le, before, s[i], s[j])
  }

  lemma StableCons<T(!new)>(le: (T, T) -> bool, before: (T, T) -> bool, x: T, s: seq<T>)
    requires StablySorted(le, before, s) && forall y :: y in s ==> Ahead(le, before, x, y)
    ensures StablySorted(le, before, [x] + s)
  {
  }

  lemma {:induction false} InsertStable<T(!new)>(le: (T, T) -> bool, before: (T, T) -> bool, x: T, s: seq<T>)
    requires TotalPreorder(le) && StablySorted(le, before, s)
    requires forall y :: y in s ==> before(x, y)
    ensures StablySorted(le, before, Insert(le, x, s))
    decreases |s|
  {
    if s == [] {
    } else if le(x, s[0]) {
      forall y | y in s ensures Ahead(le, before, x, y) {
        var i :| 0 <= i < |s| && s[i] == y;
        assert i > 0 ==> Ahead(le, before, s[0], s[i]);
      }
      StableCons(le, before, x, s);
    } else {
      InsertStable(le, before, x, s[1..]);
      InsertMembers(le, x, s[1..]);
      forall y | y in Insert(le, x, s[1..]) ensures Ahead(le, before, s[0], y) {
        if y in s[1..] {
          var i :| 1 <= i < |s| && s[i] == y;
        }
      }
      StableCons(le, before, s[0], Insert(le, x, s[1..]));
    }
  }

  /** Sorting moves an element ahead of an earlier one only when it ranks strictly lower. */
  lemma {:induction false} SortStable<T(!new)>(le: (T, T) -> bool, before: (T, T) -> bool, s: seq<T>)
    requires TotalPreorder(le)
    requires forall i, j :: 0 <= i < j < |s| ==> before(s[i], s[j])
    ensures StablySorted(le, before, Sort(le, s))
    decreases |s|
  {
    if s != [] {
      SortStable(le, before, s[1..]);
      SortMembers(le, s[1..]);
      forall y | y in s[1..] ensures before(s[0], y) {
        var i :| 1 <= i < |s| && s[i] == y;
      }
      InsertStable(le, before, s[0], Sort(le, s[1..]));
    }
  }

  // ----- Counting -----

  function CountIf<T>(p: T -> bool, s: seq<T>): (n: nat)
    ensures n <= |s|
  {
    if s == [] then 0 else CountIf(p, s[1..]) + if p(s[0]) then 1 else 0
  }

  lemma {:induction false} CountSnoc<T>(p: T -> bool, s: seq<T>, x: T)
    ensures CountIf(p, s + [x]) == CountIf(p, s) + if p(x) then 1 else 0
    decreases |s|
  {
    if s == [] {
      assert ([x])[1..] == [];
    } else {
      CountSnoc(p, s[1..], x);
      assert (s + [x])[1..] == s[1..] + [x];
    }
  }

  lemma {:induction false} CountMonotone<T(!new)>(p: T -> bool, q: T -> bool, s: seq<T>)
    requires forall x :: p(x) ==> q(x)
    ensures CountIf(p, s) <= CountIf(q, s)
    decreases |s|
  {
    if s != [] { CountMonotone(p, q, s[1..]); }
  }

  lemma {:induction false} InsertCounts<T>(le: (T, T) -> bool, p: T -> bool, x: T, s: seq<T>)
    ensures CountIf(p, Insert(le, x, s)) == CountIf(p, s) + if p(x) then 1 else 0
    decreases |s|
  {
    if s == [] || le(x, s[0]) {
      assert ([x] + s)[1..] == s;
    } else {
      InsertCounts(le, p, x, s[1..]);
      var t := Insert(le, x, s[1..]);
      assert ([s[0]] + t)[1..] == t;
    }
  }

  /** Sorting changes no count. */
  lemma {:induction false} SortCounts<T>(le: (T, T) -> bool, p: T -> bool, s: seq<T>)
    ensures CountIf(p, Sort(le, s)) == CountIf(p, s)
    decreases |s|
  {
    if s != [] {
      SortCounts(le, p, s[1..]);
      InsertCounts(le, p, s[0], Sort(le, s[1..]));
    }
  }

  lemma {:induction false} CountConcat<T>(p: T -> bool, s: seq<T>, t: seq<T>)
    ensures CountIf(p, s + t) == CountIf(p, s) + CountIf(p, t)
    decreases |s|
  {
    if s == [] {
      assert s + t == t;
    } else {
      CountConcat(p, s[1..], t);
      assert (s + t)[1..] == s[1..] + t;
    }
  }

  // ----- Selecting -----

  /** `out` holds one entry for each selected element of `s`, in order: the entry of the one at `i` comes after
      those of the selected elements before it. */
  ghost predicate Picks<T, U>(p: T -> bool, rel: (T, U) -> bool, s: seq<T>, out: seq<U>) {
    && |out| == CountIf(p, s)
    && forall i :: 0 <= i < |s| && p(s[i]) ==>
         var n := CountIf(p, s[..i]);
         n < |out| && rel(s[i], out[n])
  }

  lemma PicksSnoc<T, U>(p: T -> bool, rel: (T, U) -> bool, s: seq<T>, out: seq<U>, x: T, ys: seq<U>)
    requires Picks(p, rel, s, out)
    requires if p(x) then |ys| == 1 && rel(x, ys[0]) else ys == []
    ensures Picks(p, rel, s + [x], out + ys)
  {
    CountSnoc(p, s, x);
    var all := s + [x];
    forall i | 0 <= i < |all| && p(all[i])
      ensures var n := CountIf(p, all[..i]); n < |out + ys| && rel(all[i], (out + ys)[n])
    {
      assert all[..i] == s[..i];
      if i == |s| { assert all[..i] == s; }
    }
  }

  lemma PicksConcat<T, U>(p: T -> bool, rel: (T, U) -> bool, s: seq<T>, out: seq<U>, t: seq<T>, ys: seq<U>)
    requires Picks(p, rel, s, out) && Picks(p, rel, t, ys)
    ensures Picks(p, rel, s + t, out + ys)
  {
    CountConcat(p, s, t);
    var all := s + t;
    forall i | 0 <= i < |all| && p(all[i])
      ensures var n := CountIf(p, all[..i]); n < |out + ys| && rel(all[i], (out + ys)[n])
    {
      if i < |s| {
        assert all[..i] == s[..i];
      } else {
        assert all[..i] == s + t[..i - |s|];
        CountConcat(p, s, t[..i - |s|]);
      }
    }
  }

  lemma PicksOne<T, U>(p: T -> bool, rel: (T, U) -> bool, x: T, ys: seq<U>)
    requires if p(x) then |ys| == 1 && rel(x, ys[0]) else ys == []
    ensures Picks(p, rel, [x], ys)
  {
    var s := [x];
    assert s[1..] == [];
    assert CountIf(p, s) == if p(x) then 1 else 0;
    forall i | 0 <= i < |s| && p(s[i]) ensures var n := CountIf(p, s[..i]); n < |ys| && rel(s[i], ys[n]) {
      assert s[..i] == [];
    }
  }

  lemma PicksCons<T, U>(p: T -> bool, rel: (T, U) -> bool, x: T, ys: seq<U>, s: seq<T>, out: seq<U>)
    requires Picks(p, rel, s, out)
    requires if p(x) then |ys| == 1 && rel(x, ys[0]) else ys == []
    ensures Picks(p, rel, [x] + s, ys + out)
  {
    PicksOne(p, rel, x, ys);
    PicksConcat(p, rel, [x], ys, s, out);
  }

  lemma PicksWeaken<T(!new), U(!new)>(p: T -> bool, rel: (T, U) -> bool, rel': (T, U) -> bool, s: seq<T>, out: seq<U>)
    requires Picks(p, rel, s, out) && forall x, y :: rel(x, y) ==> rel'(x, y)
    ensures Picks(p, rel', s, out)
  {
  }

  // ----- Strings -----

  /** Go's string comparison: UTF-8 byte order, which is code-point order. */
  predicate StringLe(a: string, b: string) {
    a == [] || (b != [] && (a[0] < b[0] || (a[0] == b[0] && StringLe(a[1..], b[1..]))))
  }

  /** After `n` equal characters the first string ends, or has the smaller one. */
  ghost predicate SmallerAt(a: string, b: string, n: nat) {
    n <= |a| && n <= |b| && a[..n] == b[..n] && (n == |a| || (n < |b| && a[n] < b[n]))
  }

  lemma SameStart(a: string, b: string, n: nat)
    requires 0 < n <= |a| && n <= |b| && a[..n] == b[..n]
    ensures a[0] == b[0]
  {
    assert a[0] == a[..n][0] && b[0] == b[..n][0];
  }

  /** One string is at most another when it is a beginning of it or has the smaller character where they part. */
  lemma {:induction false} StringLeExact(a: string, b: string)
    ensures StringLe(a, b) <==> exists n: nat :: SmallerAt(a, b, n)
    decreases |a|
  {
    if a == [] {
      assert SmallerAt(a, b, 0);
    } else if b == [] || a[0] != b[0] {
      assert b != [] && a[0] < b[0] ==> SmallerAt(a, b, 0);
      if n: nat :| SmallerAt(a, b, n) {
        if n > 0 { SameStart(a, b, n); }
      }
    } else {
      var x, y := a[1..], b[1..];
      StringLeExact(x, y);
      if n: nat :| SmallerAt(x, y, n) {
        assert a[..n + 1] == [a[0]] + x[..n] && b[..n + 1] == [b[0]] + y[..n];
        assert SmallerAt(a, b, n + 1);
      }
      if n: nat :| SmallerAt(a, b, n) {
        assert n > 0 && x[..n - 1] == a[..n][1..] && y[..n - 1] == b[..n][1..];
        assert SmallerAt(x, y, n - 1);
      }
    }
  }

  lemma {:induction false} StringLeTotal(a: string, b: string)
    ensures StringLe(a, b) || StringLe(b, a)
    ensures StringLe(a, b) && StringLe(b, a) ==> a == b
    decreases |a|
  {
    if a != [] && b != [] && a[0] == b[0] {
      StringLeTotal(a[1..], b[1..]);
      assert a == [a[0]] + a[1..] && b == [b[0]] + b[1..];
    }
  }

  lemma {:induction false} StringLeTransitive(a: string, b: string, c: string)
    requires StringLe(a, b) && StringLe(b, c)
    ensures StringLe(a, c)
    decreases |a|
  {
    if a != [] && a[0] == b[0] && b[0] == c[0] {
      StringLeTransitive(a[1..], b[1..], c[1..]);
    }
  }

  lemma StringOrder()
    ensures TotalPreorder(StringLe)
  {
    forall x: string, y: string ensures StringLe(x, y) || StringLe(y, x) { StringLeTotal(x, y); }
    forall x: string, y: string, z: string | StringLe(x, y) && StringLe(y, z) ensures StringLe(x, z) {
      StringLeTransitive(x, y, z);
    }
  }
}
