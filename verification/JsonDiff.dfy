/** The structural diff between two revisions of a resource, and what applying it gives back. */
module JsonDiff {
  import Sorting
  import opened StringKeys

  datatype Json =
    | Null
    | Bool(b: bool)
    | Num(n: real)
    | Str(s: string)
    | Arr(items: seq<Json>)
    | Obj(fields: map<string, Json>)

  /** One component of a path into a value. */
  datatype Step = Key(key: string) | Index(index: nat)

  datatype Kind = Added | Removed | Changed

  /** One differing field; values are kept raw and paths structured. */
  datatype Change = Change(path: seq<Step>, old_: Json, new_: Json, kind: Kind)

  /** A missing map key reads as null. */
  function Get(j: Json, k: string): Json
    requires j.Obj?
  {
    if k in j.fields then j.fields[k] else Null
  }

  /** A missing array element reads as null. */
  function At(j: Json, i: nat): Json
    requires j.Arr?
  {
    if i < |j.items| then j.items[i] else Null
  }

  function Max(a: nat, b: nat): nat {
    if a < b then b else a
  }

  // ----- The specification of the diff -----

  function KindOf(a: Json, b: Json): Kind {
    if a.Null? then Added else if b.Null? then Removed else Changed
  }

  function Prefixed(s: Step, cs: seq<Change>): seq<Change> {
    seq(|cs|, i requires 0 <= i < |cs| => cs[i].(path := [s] + cs[i].path))
  }

  /** The changes from `a` to `b`, the keys of a map in order. */
  ghost function Diff(a: Json, b: Json): seq<Change>
    decreases !a.Null?, a, 1, 0
  {
    if a.Obj? && b.Obj? then DiffKeys(a, b, SortedKeys(a.fields.Keys + b.fields.Keys))
    else if a.Arr? && b.Arr? then DiffItems(a, b, 0)
    else if a == b then []
    else [Change([], a, b, KindOf(a, b))]
  }

  ghost function DiffKeys(a: Json, b: Json, ks: seq<string>): seq<Change>
    requires a.Obj? && b.Obj?
    decreases !a.Null?, a, 0, |ks|
  {
    if ks == [] then []
    else Prefixed(Key(ks[0]), Diff(Get(a, ks[0]), Get(b, ks[0]))) + DiffKeys(a, b, ks[1..])
  }

  ghost function DiffItems(a: Json, b: Json, i: nat): seq<Change>
    requires a.Arr? && b.Arr?
    decreases !a.Null?, a, 0, Max(|a.items|, |b.items|) - i
  {
    if i >= Max(|a.items|, |b.items|) then []
    else Prefixed(Index(i), Diff(At(a, i), At(b, i))) + DiffItems(a, b, i + 1)
  }

  // ----- The code: structural recursion appending to one output -----

  /** The changes of a diff, seen from the root of the document. */
  function Under(path: seq<Step>, cs: seq<Change>): seq<Change> {
    seq(|cs|, i requires 0 <= i < |cs| => cs[i].(path := path + cs[i].path))
  }

  /** Seen from the root a change keeps its values and kind; only its path is longer. */
  lemma UnderKeeps(path: seq<Step>, cs: seq<Change>, i: nat)
    requires i < |cs|
    ensures |Under(path, cs)| == |cs|
    ensures var c := Under(path, cs)[i];
      && |c.path| == |path| + |cs[i].path| && c.path[..|path|] == path && c.path[|path|..] == cs[i].path
      && c.old_ == cs[i].old_ && c.new_ == cs[i].new_ && c.kind == cs[i].kind
  {
  }

  lemma UnderRoot(cs: seq<Change>)
    ensures Under([], cs) == cs
  {
    forall i | 0 <= i < |cs| ensures Under([], cs)[i] == cs[i] { assert [] + cs[i].path == cs[i].path; }
  }

  lemma UnderPrefixed(path: seq<Step>, s: Step, cs: seq<Change>, ds: seq<Change>)
    ensures Under(path, Prefixed(s, cs) + ds) == Under(path + [s], cs) + Under(path, ds)
  {
    forall i | 0 <= i < |cs| ensures path + ([s] + cs[i].path) == (path + [s]) + cs[i].path {}
  }

  lemma DiffItemsStep(path: seq<Step>, a: Json, b: Json, i: nat)
    requires a.Arr? && b.Arr? && i < Max(|a.items|, |b.items|)
    ensures Under(path, DiffItems(a, b, i))
      == Under(path + [Index(i)], Diff(At(a, i), At(b, i))) + Under(path, DiffItems(a, b, i + 1))
  {
    UnderPrefixed(path, Index(i), Diff(At(a, i), At(b, i)), DiffItems(a, b, i + 1));
  }

  /** Appends the changes from `a` to `b` at `path` to the output. */
  method DiffValue(path: seq<Step>, a: Json, b: Json, out: seq<Change>) returns (out': seq<Change>)
    ensures out' == out + Under(path, Diff(a, b))
    decreases !a.Null?, a, 1
  {
    if a.Obj? && b.Obj? {
      out' := DiffFields(path, a, b, out);
    } else if a.Arr? && b.Arr? {
      out' := DiffElements(path, a, b, out);
    } else if a == b {
      out' := out;
    } else {
      out' := out + [Change(path, a, b, KindOf(a, b))];
      assert path + [] == path;
    }
  }

  method DiffFields(path: seq<Step>, a: Json, b: Json, out: seq<Change>) returns (out': seq<Change>)
    requires a.Obj? && b.Obj?
    ensures out' == out + Under(path, Diff(a, b))
    decreases !a.Null?, a, 0
  {
    out' := out;
    var ordered := OrderedKeys(a.fields.Keys + b.fields.Keys);
    var i := 0;
    while i < |ordered|
      invariant 0 <= i <= |ordered|
      invariant out' + Under(path, DiffKeys(a, b, ordered[i..])) == out + Under(path, Diff(a, b))
    {
      var k := ordered[i];
      assert ordered[i..][1..] == ordered[i + 1..];
      UnderPrefixed(path, Key(k), Diff(Get(a, k), Get(b, k)), DiffKeys(a, b, ordered[i + 1..]));
      out' := DiffValue(path + [Key(k)], Get(a, k), Get(b, k), out');
      i := i + 1;
    }
  }

  method DiffElements(path: seq<Step>, a: Json, b: Json, out: seq<Change>) returns (out': seq<Change>)
    requires a.Arr? && b.Arr?
    ensures out' == out + Under(path, Diff(a, b))
    decreases !a.Null?, a, 0
  {
    out' := out;
    var n := |a.items|;
    if |b.items| > n { n := |b.items|; }
    var i := 0;
    while i < n
      invariant 0 <= i <= n
      invariant out' + Under(path, DiffItems(a, b, i)) == out + Under(path, Diff(a, b))
    {
      DiffItemsStep(path, a, b, i);
      ghost var here, later := Under(path + [Index(i)], Diff(At(a, i), At(b, i))), Under(path, DiffItems(a, b, i + 1));
      assert out' + (here + later) == (out' + here) + later;
      out' := DiffValue(path + [Index(i)], At(a, i), At(b, i), out');
      i := i + 1;
    }
  }

  // ----- Equivalence: absent is null, arrays are padded with null -----

  ghost predicate Equiv(a: Json, b: Json)
    decreases !a.Null?, a
  {
    if a.Obj? && b.Obj? then forall k :: k in a.fields.Keys + b.fields.Keys ==> Equiv(Get(a, k), Get(b, k))
    else if a.Arr? && b.Arr? then forall i: nat :: i < Max(|a.items|, |b.items|) ==> Equiv(At(a, i), At(b, i))
    else a == b
  }

  lemma {:induction false} EquivReflexive(a: Json)
    ensures Equiv(a, a)
    decreases !a.Null?, a
  {
    if a.Obj? {
      forall k | k in a.fields.Keys + a.fields.Keys ensures Equiv(Get(a, k), Get(a, k)) { EquivReflexive(Get(a, k)); }
    } else if a.Arr? {
      forall i: nat | i < |a.items| ensures Equiv(At(a, i), At(a, i)) { EquivReflexive(At(a, i)); }
    }
  }

  lemma {:induction false} EquivSymmetric(a: Json, b: Json)
    requires Equiv(a, b)
    ensures Equiv(b, a)
    decreases !a.Null?, a
  {
    if a.Obj? && b.Obj? {
      forall k | k in b.fields.Keys + a.fields.Keys ensures Equiv(Get(b, k), Get(a, k)) {
        assert k in a.fields.Keys + b.fields.Keys;
        EquivSymmetric(Get(a, k), Get(b, k));
      }
    } else if a.Arr? && b.Arr? {
      forall i: nat | i < Max(|b.items|, |a.items|) ensures Equiv(At(b, i), At(a, i)) {
        EquivSymmetric(At(a, i), At(b, i));
      }
    }
  }

  lemma {:induction false} EquivTransitive(a: Json, b: Json, c: Json)
    requires Equiv(a, b) && Equiv(b, c)
    ensures Equiv(a, c)
    decreases !a.Null?, a
  {
    if a.Obj? && c.Obj? {
      forall k | k in a.fields.Keys + c.fields.Keys ensures Equiv(Get(a, k), Get(c, k)) {
        assert k in a.fields.Keys ==> k in a.fields.Keys + b.fields.Keys;
        assert k in c.fields.Keys ==> k in b.fields.Keys + c.fields.Keys;
        if k in a.fields.Keys + b.fields.Keys && k in b.fields.Keys + c.fields.Keys {
          EquivTransitive(Get(a, k), Get(b, k), Get(c, k));
        }
      }
    } else if a.Arr? && c.Arr? {
      forall i: nat | i < Max(|a.items|, |c.items|) ensures Equiv(At(a, i), At(c, i)) {
        if i < Max(|a.items|, |b.items|) && i < Max(|b.items|, |c.items|) {
          EquivTransitive(At(a, i), At(b, i), At(c, i));
        }
      }
    }
  }

  // ----- Emptiness -----

  lemma {:induction false} DiffKeysEmpty(a: Json, b: Json, ks: seq<string>)
    requires a.Obj? && b.Obj?
    ensures DiffKeys(a, b, ks) == [] <==> forall k :: k in ks ==> Diff(Get(a, k), Get(b, k)) == []
    decreases |ks|
  {
    if ks != [] {
      DiffKeysEmpty(a, b, ks[1..]);
      assert forall k :: k in ks <==> k == ks[0] || k in ks[1..];
      assert |Prefixed(Key(ks[0]), Diff(Get(a, ks[0]), Get(b, ks[0])))| == |Diff(Get(a, ks[0]), Get(b, ks[0]))|;
    }
  }

  lemma {:induction false} DiffItemsEmpty(a: Json, b: Json, i: nat)
    requires a.Arr? && b.Arr?
    ensures DiffItems(a, b, i) == [] <==> forall j: nat :: i <= j < Max(|a.items|, |b.items|) ==>
      Diff(At(a, j), At(b, j)) == []
    decreases Max(|a.items|, |b.items|) - i
  {
    if i < Max(|a.items|, |b.items|) {
      DiffItemsEmpty(a, b, i + 1);
      assert |Prefixed(Index(i), Diff(At(a, i), At(b, i)))| == |Diff(At(a, i), At(b, i))|;
    }
  }

  /** Nothing is reported exactly when the two values are equivalent. */
  lemma {:induction false} EmptyIffEquivalent(a: Json, b: Json)
    ensures Diff(a, b) == [] <==> Equiv(a, b)
    decreases !a.Null?, a
  {
    if a.Obj? && b.Obj? {
      var keys := a.fields.Keys + b.fields.Keys;
      SortedKeysCover(keys);
      DiffKeysEmpty(a, b, SortedKeys(keys));
      forall k | k in keys ensures Diff(Get(a, k), Get(b, k)) == [] <==> Equiv(Get(a, k), Get(b, k)) {
        EmptyIffEquivalent(Get(a, k), Get(b, k));
      }
    } else if a.Arr? && b.Arr? {
      DiffItemsEmpty(a, b, 0);
      forall i: nat | i < Max(|a.items|, |b.items|)
        ensures Diff(At(a, i), At(b, i)) == [] <==> Equiv(At(a, i), At(b, i))
      {
        EmptyIffEquivalent(At(a, i), At(b, i));
      }
    }
  }

  // ----- Mirror -----

  function Flip(k: Kind): Kind {
    match k
    case Added => Removed
    case Removed => Added
    case Changed => Changed
  }

  function Mirror(cs: seq<Change>): seq<Change> {
    seq(|cs|, i requires 0 <= i < |cs| => Change(cs[i].path, cs[i].new_, cs[i].old_, Flip(cs[i].kind)))
  }

  lemma MirrorPrefixed(s: Step, cs: seq<Change>, ds: seq<Change>)
    ensures Mirror(Prefixed(s, cs) + ds) == Prefixed(s, Mirror(cs)) + Mirror(ds)
  {
  }

  lemma {:induction false} MirrorKeys(a: Json, b: Json, ks: seq<string>)
    requires a.Obj? && b.Obj?
    requires forall k :: k in ks ==> k in a.fields.Keys + b.fields.Keys
    ensures DiffKeys(b, a, ks) == Mirror(DiffKeys(a, b, ks))
    decreases !a.Null?, a, 0, |ks|
  {
    if ks != [] {
      DiffMirror(Get(a, ks[0]), Get(b, ks[0]));
      MirrorKeys(a, b, ks[1..]);
      MirrorPrefixed(Key(ks[0]), Diff(Get(a, ks[0]), Get(b, ks[0])), DiffKeys(a, b, ks[1..]));
    }
  }

  lemma {:induction false} MirrorItems(a: Json, b: Json, i: nat)
    requires a.Arr? && b.Arr?
    ensures DiffItems(b, a, i) == Mirror(DiffItems(a, b, i))
    decreases !a.Null?, a, 0, Max(|a.items|, |b.items|) - i
  {
    if i < Max(|a.items|, |b.items|) {
      DiffMirror(At(a, i), At(b, i));
      MirrorItems(a, b, i + 1);
      MirrorPrefixed(Index(i), Diff(At(a, i), At(b, i)), DiffItems(a, b, i + 1));
    }
  }

  /** The diff the other way round is the same list with old and new, added and removed exchanged. */
  lemma {:induction false} DiffMirror(a: Json, b: Json)
    ensures Diff(b, a) == Mirror(Diff(a, b))
    decreases !a.Null?, a, 1, 0
  {
    if a.Obj? && b.Obj? {
      assert b.fields.Keys + a.fields.Keys == a.fields.Keys + b.fields.Keys;
      SortedKeysCover(a.fields.Keys + b.fields.Keys);
      MirrorKeys(a, b, SortedKeys(a.fields.Keys + b.fields.Keys));
    } else if a.Arr? && b.Arr? {
      MirrorItems(a, b, 0);
    }
  }

  // ----- Applying a diff -----

  function SetItem(items: seq<Json>, i: nat, x: Json): seq<Json> {
    if i < |items| then items[i := x] else items + seq(i - |items|, _ => Null) + [x]
  }

  /** The value with the part at `path` replaced; a path that does not fit changes nothing. */
  function SetAt(v: Json, path: seq<Step>, x: Json): Json
    decreases |path|
  {
    if path == [] then x
    else match path[0]
      case Key(k) => if v.Obj? then Obj(v.fields[k := SetAt(Get(v, k), path[1..], x)]) else v
      case Index(i) => if v.Arr? then Arr(SetItem(v.items, i, SetAt(At(v, i), path[1..], x))) else v
  }

  function Patch(v: Json, cs: seq<Change>): Json
    decreases |cs|
  {
    if cs == [] then v else Patch(SetAt(v, cs[0].path, cs[0].new_), cs[1..])
  }

  lemma {:induction false} PatchAppend(v: Json, cs: seq<Change>, ds: seq<Change>)
    ensures Patch(v, cs + ds) == Patch(Patch(v, cs), ds)
    decreases |cs|
  {
    if cs == [] {
      assert cs + ds == ds;
    } else {
      assert (cs + ds)[1..] == cs[1..] + ds;
      PatchAppend(SetAt(v, cs[0].path, cs[0].new_), cs[1..], ds);
    }
  }

  /** Changes under one key only touch that key. */
  lemma {:induction false} PatchKey(v: Json, k: string, cs: seq<Change>)
    requires v.Obj?
    ensures var r := Patch(v, Prefixed(Key(k), cs));
      r.Obj? && forall k' :: Get(r, k') == if k' == k then Patch(Get(v, k), cs) else Get(v, k')
    decreases |cs|
  {
    if cs != [] {
      var ps := Prefixed(Key(k), cs);
      assert ps[1..] == Prefixed(Key(k), cs[1..]);
      assert ps[0].path[1..] == cs[0].path;
      PatchKey(SetAt(v, ps[0].path, ps[0].new_), k, cs[1..]);
    }
  }

  lemma {:induction false} PatchIndex(v: Json, i: nat, cs: seq<Change>)
    requires v.Arr?
    ensures var r := Patch(v, Prefixed(Index(i), cs));
      r.Arr? && forall j: nat :: At(r, j) == if j == i then Patch(At(v, i), cs) else At(v, j)
    decreases |cs|
  {
    if cs != [] {
      var ps := Prefixed(Index(i), cs);
      assert ps[1..] == Prefixed(Index(i), cs[1..]);
      assert ps[0].path[1..] == cs[0].path;
      PatchIndex(SetAt(v, ps[0].path, ps[0].new_), i, cs[1..]);
    }
  }

  lemma {:induction false} PatchKeys(v: Json, a: Json, b: Json, ks: seq<string>)
    requires v.Obj? && a.Obj? && b.Obj? && Distinct(ks)
    requires forall k :: k in ks ==> Get(v, k) == Get(a, k)
    ensures var r := Patch(v, DiffKeys(a, b, ks));
      r.Obj? && forall k :: Get(r, k) == if k in ks then Patch(Get(a, k), Diff(Get(a, k), Get(b, k))) else Get(v, k)
    decreases |ks|
  {
    if ks != [] {
      var cs := Diff(Get(a, ks[0]), Get(b, ks[0]));
      PatchAppend(v, Prefixed(Key(ks[0]), cs), DiffKeys(a, b, ks[1..]));
      PatchKey(v, ks[0], cs);
      assert forall k :: k in ks <==> k == ks[0] || k in ks[1..];
      PatchKeys(Patch(v, Prefixed(Key(ks[0]), cs)), a, b, ks[1..]);
    }
  }

  lemma {:induction false} PatchItems(v: Json, a: Json, b: Json, i: nat)
    requires v.Arr? && a.Arr? && b.Arr?
    requires forall j: nat :: i <= j ==> At(v, j) == At(a, j)
    ensures var r := Patch(v, DiffItems(a, b, i));
      r.Arr? && forall j: nat :: At(r, j) == if i <= j < Max(|a.items|, |b.items|)
        then Patch(At(a, j), Diff(At(a, j), At(b, j))) else At(v, j)
    decreases Max(|a.items|, |b.items|) - i
  {
    if i < Max(|a.items|, |b.items|) {
      var cs := Diff(At(a, i), At(b, i));
      PatchAppend(v, Prefixed(Index(i), cs), DiffItems(a, b, i + 1));
      PatchIndex(v, i, cs);
      PatchItems(Patch(v, Prefixed(Index(i), cs)), a, b, i + 1);
    }
  }

  /** Round trip: applying the changes from `a` to `b` to `a` gives `b`, up to absent-is-null. */
  lemma {:induction false} PatchRoundTrip(a: Json, b: Json)
    ensures Equiv(Patch(a, Diff(a, b)), b)
    decreases !a.Null?, a
  {
    var r := Patch(a, Diff(a, b));
    if a.Obj? && b.Obj? {
      var keys := a.fields.Keys + b.fields.Keys;
      SortedKeysCover(keys);
      PatchKeys(a, a, b, SortedKeys(keys));
      forall k | k in r.fields.Keys + b.fields.Keys ensures Equiv(Get(r, k), Get(b, k)) {
        if k in keys { PatchRoundTrip(Get(a, k), Get(b, k)); }
      }
    } else if a.Arr? && b.Arr? {
      PatchItems(a, a, b, 0);
      forall i: nat | i < Max(|r.items|, |b.items|) ensures Equiv(At(r, i), At(b, i)) {
        if i < Max(|a.items|, |b.items|) { PatchRoundTrip(At(a, i), At(b, i)); }
      }
    } else {
      EquivReflexive(b);
      if a != b { assert Patch(a, [Change([], a, b, KindOf(a, b))]) == b; }
    }
  }

  // ----- What each change says -----

  function Lookup(v: Json, path: seq<Step>): Json
    decreases |path|
  {
    if path == [] then v
    else match path[0]
      case Key(k) => if v.Obj? then Lookup(Get(v, k), path[1..]) else Null
      case Index(i) => if v.Arr? then Lookup(At(v, i), path[1..]) else Null
  }

  /** A change names a place where the two values really differ, with both values and their kind. */
  ghost predicate Truthful(a: Json, b: Json, c: Change) {
    && Lookup(a, c.path) == c.old_ && Lookup(b, c.path) == c.new_
    && !Equiv(c.old_, c.new_)
    && (c.kind == Added <==> c.old_ == Null)
    && (c.kind == Removed <==> c.new_ == Null)
  }

  ghost predicate ChildrenAt(a: Json, b: Json, s: Step, x: Json, y: Json) {
    match s
    case Key(k) => a.Obj? && b.Obj? && x == Get(a, k) && y == Get(b, k)
    case Index(i) => a.Arr? && b.Arr? && x == At(a, i) && y == At(b, i)
  }

  lemma TruthfulUnder(a: Json, b: Json, s: Step, x: Json, y: Json, cs: seq<Change>)
    requires ChildrenAt(a, b, s, x, y)
    requires forall c :: c in cs ==> Truthful(x, y, c)
    ensures forall c :: c in Prefixed(s, cs) ==> Truthful(a, b, c)
  {
    forall c | c in Prefixed(s, cs) ensures Truthful(a, b, c) {
      var i :| 0 <= i < |cs| && Prefixed(s, cs)[i] == c;
      var d := cs[i];
      assert Truthful(x, y, d);
      assert c.path[0] == s && c.path[1..] == d.path;
      assert Lookup(a, c.path) == Lookup(x, d.path) && Lookup(b, c.path) == Lookup(y, d.path);
    }
  }

  lemma {:induction false} TruthfulKeys(a: Json, b: Json, ks: seq<string>)
    requires a.Obj? && b.Obj?
    ensures forall c :: c in DiffKeys(a, b, ks) ==> Truthful(a, b, c)
    decreases !a.Null?, a, 0, |ks|
  {
    if ks != [] {
      DiffTruthful(Get(a, ks[0]), Get(b, ks[0]));
      TruthfulUnder(a, b, Key(ks[0]), Get(a, ks[0]), Get(b, ks[0]), Diff(Get(a, ks[0]), Get(b, ks[0])));
      TruthfulKeys(a, b, ks[1..]);
    }
  }

  lemma {:induction false} TruthfulItems(a: Json, b: Json, i: nat)
    requires a.Arr? && b.Arr?
    ensures forall c :: c in DiffItems(a, b, i) ==> Truthful(a, b, c)
    decreases !a.Null?, a, 0, Max(|a.items|, |b.items|) - i
  {
    if i < Max(|a.items|, |b.items|) {
      DiffTruthful(At(a, i), At(b, i));
      TruthfulUnder(a, b, Index(i), At(a, i), At(b, i), Diff(At(a, i), At(b, i)));
      TruthfulItems(a, b, i + 1);
    }
  }

  lemma {:induction false} DiffTruthful(a: Json, b: Json)
    ensures forall c :: c in Diff(a, b) ==> Truthful(a, b, c)
    decreases !a.Null?, a, 1, 0
  {
    if a.Obj? && b.Obj? {
      TruthfulKeys(a, b, SortedKeys(a.fields.Keys + b.fields.Keys));
    } else if a.Arr? && b.Arr? {
      TruthfulItems(a, b, 0);
    }
  }

  // ----- The order of the changes does not matter -----

  /** Neither path is a prefix of the other. */
  predicate Diverge(p: seq<Step>, q: seq<Step>)
    decreases |p|
  {
    p != [] && q != [] && (p[0] != q[0] || Diverge(p[1..], q[1..]))
  }

  ghost predicate Independent(cs: seq<Change>) {
    forall i, j :: 0 <= i < j < |cs| ==> Diverge(cs[i].path, cs[j].path)
  }

  /** All paths start with a step that satisfies neither of the steps of `others`. */
  lemma IndependentJoin(s: Step, cs: seq<Change>, ds: seq<Change>)
    requires Independent(cs) && Independent(ds)
    requires forall d :: d in ds ==> d.path != [] && d.path[0] != s
    ensures Independent(Prefixed(s, cs) + ds)
  {
    var ps := Prefixed(s, cs);
    var all := ps + ds;
    forall i, j | 0 <= i < j < |all| ensures Diverge(all[i].path, all[j].path) {
      if j < |cs| {
        assert ps[i].path[1..] == cs[i].path && ps[j].path[1..] == cs[j].path;
      } else if i < |cs| {
        assert all[j] == ds[j - |cs|] && ds[j - |cs|] in ds;
      } else {
        assert all[i] == ds[i - |cs|] && all[j] == ds[j - |cs|];
      }
    }
  }

  lemma {:induction false} KeysIndependent(a: Json, b: Json, ks: seq<string>)
    requires a.Obj? && b.Obj? && Distinct(ks)
    ensures Independent(DiffKeys(a, b, ks))
    ensures forall c :: c in DiffKeys(a, b, ks) ==> c.path != [] && exists k :: k in ks && c.path[0] == Key(k)
    decreases !a.Null?, a, 0, |ks|
  {
    if ks != [] {
      var cs, ds := Diff(Get(a, ks[0]), Get(b, ks[0])), DiffKeys(a, b, ks[1..]);
      DiffIndependent(Get(a, ks[0]), Get(b, ks[0]));
      KeysIndependent(a, b, ks[1..]);
      forall d | d in ds ensures d.path != [] && d.path[0] != Key(ks[0]) {
        var k :| k in ks[1..] && d.path[0] == Key(k);
      }
      IndependentJoin(Key(ks[0]), cs, ds);
      forall c | c in DiffKeys(a, b, ks) ensures c.path != [] && exists k :: k in ks && c.path[0] == Key(k) {
        if c in ds {
          var k :| k in ks[1..] && c.path[0] == Key(k);
          assert k in ks;
        } else {
          assert ks[0] in ks;
        }
      }
    }
  }

  lemma {:induction false} ItemsIndependent(a: Json, b: Json, i: nat)
    requires a.Arr? && b.Arr?
    ensures Independent(DiffItems(a, b, i))
    ensures forall c :: c in DiffItems(a, b, i) ==> c.path != [] && c.path[0].Index? && c.path[0].index >= i
    decreases !a.Null?, a, 0, Max(|a.items|, |b.items|) - i
  {
    if i < Max(|a.items|, |b.items|) {
      DiffIndependent(At(a, i), At(b, i));
      ItemsIndependent(a, b, i + 1);
      IndependentJoin(Index(i), Diff(At(a, i), At(b, i)), DiffItems(a, b, i + 1));
    }
  }

  /** No change of a diff lies at or below the path of another. */
  lemma {:induction false} DiffIndependent(a: Json, b: Json)
    ensures Independent(Diff(a, b))
    decreases !a.Null?, a, 1, 0
  {
    if a.Obj? && b.Obj? {
      SortedKeysCover(a.fields.Keys + b.fields.Keys);
      KeysIndependent(a, b, SortedKeys(a.fields.Keys + b.fields.Keys));
    } else if a.Arr? && b.Arr? {
      ItemsIndependent(a, b, 0);
    }
  }

  lemma SetItemCommutes(items: seq<Json>, i: nat, x: Json, j: nat, y: Json)
    requires i != j
    ensures SetItem(SetItem(items, i, x), j, y) == SetItem(SetItem(items, j, y), i, x)
  {
  }

  lemma SetItemTwice(items: seq<Json>, i: nat, x: Json, z: Json)
    ensures SetItem(SetItem(items, i, x), i, z) == SetItem(items, i, z)
    ensures i < |SetItem(items, i, x)| && SetItem(items, i, x)[i] == x
  {
  }

  lemma SetItemElsewhere(items: seq<Json>, i: nat, x: Json, j: nat)
    requires i != j
    ensures At(Arr(SetItem(items, i, x)), j) == At(Arr(items), j)
  {
  }

  lemma SetKeyTwice(v: Json, k: string, p: seq<Step>, x: Json, q: seq<Step>, y: Json)
    requires v.Obj?
    ensures SetAt(SetAt(v, [Key(k)] + p, x), [Key(k)] + q, y) == Obj(v.fields[k := SetAt(SetAt(Get(v, k), p, x), q, y)])
  {
    var w := SetAt(Get(v, k), p, x);
    assert ([Key(k)] + p)[1..] == p && ([Key(k)] + q)[1..] == q;
    assert SetAt(v, [Key(k)] + p, x) == Obj(v.fields[k := w]);
    assert v.fields[k := w][k := SetAt(w, q, y)] == v.fields[k := SetAt(w, q, y)];
  }

  lemma SetIndexTwice(v: Json, i: nat, p: seq<Step>, x: Json, q: seq<Step>, y: Json)
    requires v.Arr?
    ensures SetAt(SetAt(v, [Index(i)] + p, x), [Index(i)] + q, y)
      == Arr(SetItem(v.items, i, SetAt(SetAt(At(v, i), p, x), q, y)))
  {
    var w := SetAt(At(v, i), p, x);
    assert ([Index(i)] + p)[1..] == p && ([Index(i)] + q)[1..] == q;
    assert SetAt(v, [Index(i)] + p, x) == Arr(SetItem(v.items, i, w));
    SetItemTwice(v.items, i, w, SetAt(w, q, y));
  }

  lemma SetApartKeys(v: Json, k: string, p: seq<Step>, x: Json, l: string, q: seq<Step>, y: Json)
    requires v.Obj? && k != l
    ensures SetAt(SetAt(v, [Key(k)] + p, x), [Key(l)] + q, y)
      == Obj(v.fields[k := SetAt(Get(v, k), p, x)][l := SetAt(Get(v, l), q, y)])
  {
    assert ([Key(k)] + p)[1..] == p && ([Key(l)] + q)[1..] == q;
    assert SetAt(v, [Key(k)] + p, x) == Obj(v.fields[k := SetAt(Get(v, k), p, x)]);
  }

  lemma SetApartIndices(v: Json, i: nat, p: seq<Step>, x: Json, j: nat, q: seq<Step>, y: Json)
    requires v.Arr? && i != j
    ensures SetAt(SetAt(v, [Index(i)] + p, x), [Index(j)] + q, y)
         == Arr(SetItem(SetItem(v.items, i, SetAt(At(v, i), p, x)), j, SetAt(At(v, j), q, y)))
  {
    assert ([Index(i)] + p)[1..] == p && ([Index(j)] + q)[1..] == q;
    assert SetAt(v, [Index(i)] + p, x) == Arr(SetItem(v.items, i, SetAt(At(v, i), p, x)));
    SetItemElsewhere(v.items, i, SetAt(At(v, i), p, x), j);
  }

  lemma ApartKeysCommute(v: Json, k: string, p: seq<Step>, x: Json, l: string, q: seq<Step>, y: Json)
    requires v.Obj? && k != l
    ensures SetAt(SetAt(v, [Key(k)] + p, x), [Key(l)] + q, y) == SetAt(SetAt(v, [Key(l)] + q, y), [Key(k)] + p, x)
  {
    SetApartKeys(v, k, p, x, l, q, y);
    SetApartKeys(v, l, q, y, k, p, x);
    var r, s := SetAt(Get(v, k), p, x), SetAt(Get(v, l), q, y);
    assert v.fields[k := r][l := s] == v.fields[l := s][k := r];
  }

  lemma ApartIndicesCommute(v: Json, i: nat, p: seq<Step>, x: Json, j: nat, q: seq<Step>, y: Json)
    requires v.Arr? && i != j
    ensures SetAt(SetAt(v, [Index(i)] + p, x), [Index(j)] + q, y)
      == SetAt(SetAt(v, [Index(j)] + q, y), [Index(i)] + p, x)
  {
    SetApartIndices(v, i, p, x, j, q, y);
    SetApartIndices(v, j, q, y, i, p, x);
    SetItemCommutes(v.items, i, SetAt(At(v, i), p, x), j, SetAt(At(v, j), q, y));
  }

  /** The first steps differ: the two updates do not see each other. */
  lemma SetApart(v: Json, p: seq<Step>, x: Json, q: seq<Step>, y: Json)
    requires p != [] && q != [] && p[0] != q[0]
    ensures SetAt(SetAt(v, p, x), q, y) == SetAt(SetAt(v, q, y), p, x)
  {
    assert p == [p[0]] + p[1..] && q == [q[0]] + q[1..];
    match (p[0], q[0]) {
      case (Key(k), Key(l)) =>
        if v.Obj? { ApartKeysCommute(v, k, p[1..], x, l, q[1..], y); }
      case (Index(i), Index(j)) =>
        if v.Arr? { ApartIndicesCommute(v, i, p[1..], x, j, q[1..], y); }
      case _ =>
    }
  }

  lemma {:induction false} SetAtCommutes(v: Json, p: seq<Step>, x: Json, q: seq<Step>, y: Json)
    requires Diverge(p, q)
    ensures SetAt(SetAt(v, p, x), q, y) == SetAt(SetAt(v, q, y), p, x)
    decreases |p|
  {
    if p[0] != q[0] {
      SetApart(v, p, x, q, y);
    } else {
      assert p == [p[0]] + p[1..] && q == [q[0]] + q[1..];
      match p[0] {
        case Key(k) =>
          if v.Obj? {
            SetAtCommutes(Get(v, k), p[1..], x, q[1..], y);
            SetKeyTwice(v, k, p[1..], x, q[1..], y);
            SetKeyTwice(v, k, q[1..], y, p[1..], x);
          }
        case Index(i) =>
          if v.Arr? {
            SetAtCommutes(At(v, i), p[1..], x, q[1..], y);
            SetIndexTwice(v, i, p[1..], x, q[1..], y);
            SetIndexTwice(v, i, q[1..], y, p[1..], x);
          }
      }
    }
  }

  lemma PatchCons(v: Json, c: Change, rest: seq<Change>)
    ensures Patch(v, [c] + rest) == Patch(SetAt(v, c.path, c.new_), rest)
  {
    assert ([c] + rest)[1..] == rest;
  }

  lemma SwapFirstTwo(v: Json, c: Change, d: Change, rest: seq<Change>)
    requires Diverge(c.path, d.path)
    ensures Patch(v, [c] + ([d] + rest)) == Patch(v, [d] + ([c] + rest))
  {
    PatchCons(v, c, [d] + rest);
    PatchCons(v, d, [c] + rest);
    PatchCons(SetAt(v, c.path, c.new_), d, rest);
    PatchCons(SetAt(v, d.path, d.new_), c, rest);
    SetAtCommutes(v, c.path, c.new_, d.path, d.new_);
  }

  /** A change may be applied before the independent ones that precede it. */
  lemma {:induction false} MoveToFront(v: Json, front: seq<Change>, c: Change, back: seq<Change>)
    requires forall i :: 0 <= i < |front| ==> Diverge(front[i].path, c.path)
    ensures Patch(v, front + ([c] + back)) == Patch(v, [c] + (front + back))
    decreases |front|
  {
    if front == [] {
      assert front + ([c] + back) == [c] + back && front + back == back;
    } else {
      var f, tail := front[0], front[1..];
      assert front + ([c] + back) == [f] + (tail + ([c] + back));
      PatchCons(v, f, tail + ([c] + back));
      MoveToFront(SetAt(v, f.path, f.new_), tail, c, back);
      PatchCons(v, f, [c] + (tail + back));
      SwapFirstTwo(v, f, c, tail + back);
      assert front + back == [f] + (tail + back);
    }
  }

  lemma IndependentWithout(cs: seq<Change>, i: nat)
    requires Independent(cs) && i < |cs|
    ensures Independent(cs[..i] + cs[i + 1..])
  {
    var ds := cs[..i] + cs[i + 1..];
    forall j, k | 0 <= j < k < |ds| ensures Diverge(ds[j].path, ds[k].path) {
      assert ds[j] == cs[if j < i then j else j + 1] && ds[k] == cs[if k < i then k else k + 1];
    }
  }

  lemma RemoveOne(cs: seq<Change>, i: nat)
    requires i < |cs|
    ensures multiset(cs[..i] + cs[i + 1..]) == multiset(cs) - multiset{cs[i]}
  {
    assert cs == cs[..i] + [cs[i]] + cs[i + 1..];
  }

  /** Where a permutation's first element is, and what remains without it. */
  lemma FindHead(cs: seq<Change>, ds: seq<Change>) returns (i: nat)
    requires ds != [] && multiset(cs) == multiset(ds)
    ensures i < |cs| && cs[i] == ds[0] && multiset(cs[..i] + cs[i + 1..]) == multiset(ds[1..])
  {
    assert ds[0] in multiset(ds);
    i :| 0 <= i < |cs| && cs[i] == ds[0];
    RemoveOne(cs, i);
    assert ds == [ds[0]] + ds[1..];
    assert multiset(ds[1..]) == multiset(ds) - multiset{ds[0]};
  }

  lemma PatchPicked(v: Json, cs: seq<Change>, i: nat)
    requires Independent(cs) && i < |cs|
    ensures Patch(v, cs) == Patch(SetAt(v, cs[i].path, cs[i].new_), cs[..i] + cs[i + 1..])
  {
    assert cs == cs[..i] + ([cs[i]] + cs[i + 1..]);
    MoveToFront(v, cs[..i], cs[i], cs[i + 1..]);
    PatchCons(v, cs[i], cs[..i] + cs[i + 1..]);
  }

  lemma {:induction false} PatchAnyOrder(v: Json, cs: seq<Change>, ds: seq<Change>)
    requires Independent(cs) && multiset(cs) == multiset(ds)
    ensures Patch(v, cs) == Patch(v, ds)
    decreases |ds|
  {
    if ds == [] {
      assert |multiset(cs)| == |cs|;
    } else {
      var i := FindHead(cs, ds);
      var rest := cs[..i] + cs[i + 1..];
      PatchPicked(v, cs, i);
      IndependentWithout(cs, i);
      PatchAnyOrder(SetAt(v, ds[0].path, ds[0].new_), rest, ds[1..]);
    }
  }

  /** The reported changes are sorted by a rendered path, with an unstable sort; applying them in
      whatever order results still turns the old revision into the new one. */
  lemma ReportedOrderRoundTrip(a: Json, b: Json, reported: seq<Change>)
    requires multiset(reported) == multiset(Diff(a, b))
    ensures Equiv(Patch(a, reported), b)
  {
    DiffIndependent(a, b);
    PatchAnyOrder(a, Diff(a, b), reported);
    PatchRoundTrip(a, b);
  }

  // ----- The diff of two revisions -----

  function ByPath(render: seq<Step> -> string): (Change, Change) -> bool {
    (c: Change, d: Change) => Sorting.StringLe(render(c.path), render(d.path))
  }

  lemma ByPathOrder(render: seq<Step> -> string)
    ensures Sorting.TotalPreorder(ByPath(render))
  {
    var le := ByPath(render);
    forall c, d ensures le(c, d) || le(d, c) { Sorting.StringLeTotal(render(c.path), render(d.path)); }
    forall c, d, e | le(c, d) && le(d, e) ensures le(c, e) {
      Sorting.StringLeTransitive(render(c.path), render(d.path), render(e.path));
    }
  }

  /** What the changes say of the two revisions: they turn the old one into the new one, each of them names a
      place where the two differ, with both values, and there are none if and only if the revisions are
      equivalent. */
  ghost predicate Explains(a: Json, b: Json, cs: seq<Change>) {
    && Equiv(Patch(a, cs), b)
    && (forall c :: c in cs ==> Truthful(a, b, c))
    && (cs == [] <==> Equiv(a, b))
  }

  lemma ReorderedExplains(a: Json, b: Json, cs: seq<Change>)
    requires multiset(cs) == multiset(Diff(a, b))
    ensures Explains(a, b, cs)
  {
    ReportedOrderRoundTrip(a, b, cs);
    DiffTruthful(a, b);
    EmptyIffEquivalent(a, b);
    forall c | c in cs ensures c in Diff(a, b) { assert c in multiset(cs); }
    assert |cs| == |multiset(cs)| == |Diff(a, b)|;
  }

  /** Compares two revisions: the changes from the root, listed by their rendered paths. */
  method DiffRevisions(a: Json, b: Json, render: seq<Step> -> string) returns (changes: seq<Change>)
    ensures Explains(a, b, changes)
    ensures forall i, j :: 0 <= i < j < |changes| ==>
      Sorting.StringLe(render(changes[i].path), render(changes[j].path))
  {
    changes := DiffValue([], a, b, []);
    UnderRoot(Diff(a, b));
    ByPathOrder(render);
    Sorting.SortCorrect(ByPath(render), changes);
    changes := Sorting.Sort(ByPath(render), changes);
    ReorderedExplains(a, b, changes);
    forall i, j | 0 <= i < j < |changes|
      ensures Sorting.StringLe(render(changes[i].path), render(changes[j].path))
    {
      assert ByPath(render)(changes[i], changes[j]);
    }
  }
}
