/** Collecting a cluster: paged listings, one per target, and what a failed listing may not touch. */
module ClusterListing {
  import opened Text
  import Collector
  import SnapshotSync

  type Item = Collector.Item

  // ----- One listing -----

  /** One answer of the API server: objects, and the token of the next page (blank on the last). */
  datatype Page = Page(items: seq<Item>, next: string)

  function Behind(items: seq<Item>, rest: Option<seq<Item>>): Option<seq<Item>> {
    if rest.None? then None else Some(items + rest.value)
  }

  /** The objects of a whole listing; nothing when a page fails or the walk is cut off. */
  function Listing(answers: seq<Option<Page>>): Option<seq<Item>> {
    if answers == [] || answers[0].None? then None
    else if Blank(answers[0].value.next) then Some(answers[0].value.items)
    else Behind(answers[0].value.items, Listing(answers[1..]))
  }

  lemma BehindAgain(a: seq<Item>, b: seq<Item>, rest: Option<seq<Item>>)
    ensures Behind(a, Behind(b, rest)) == Behind(a + b, rest) && Behind([], rest) == rest
  {
    if rest.Some? {
      assert [] + rest.value == rest.value && a + (b + rest.value) == (a + b) + rest.value;
    }
  }

  ghost function AllItems(answers: seq<Option<Page>>): seq<Item> {
    if answers == [] then []
    else (if answers[0].Some? then answers[0].value.items else []) + AllItems(answers[1..])
  }

  /** The first `n + 1` answers are pages and only the last of them ends the listing. */
  ghost predicate EndsAt(answers: seq<Option<Page>>, n: nat) {
    && n < |answers|
    && (forall i :: 0 <= i <= n ==> answers[i].Some?)
    && forall i :: 0 <= i <= n ==> (Blank(answers[i].value.next) <==> i == n)
  }

  /** All or nothing: a listing is either the concatenation of every page up to the last, or a failure. */
  lemma {:induction false} ListingIsWhole(answers: seq<Option<Page>>, items: seq<Item>)
    ensures Listing(answers) == Some(items) <==> exists n: nat ::
      EndsAt(answers, n) && items == AllItems(answers[..n + 1])
    decreases |answers|
  {
    if answers == [] || answers[0].None? {
    } else if Blank(answers[0].value.next) {
      assert AllItems(answers[..1]) == answers[0].value.items by { assert answers[..1][1..] == []; }
      if Listing(answers) == Some(items) { assert EndsAt(answers, 0); }
      if n: nat :| EndsAt(answers, n) && items == AllItems(answers[..n + 1]) { assert n == 0; }
    } else {
      var tail := answers[1..];
      if Listing(answers) == Some(items) {
        var rest := Listing(tail).value;
        ListingIsWhole(tail, rest);
        var n: nat :| EndsAt(tail, n) && rest == AllItems(tail[..n + 1]);
        assert answers[..n + 2][1..] == tail[..n + 1];
        assert forall i :: 0 < i <= n + 1 ==> answers[i] == tail[i - 1];
        assert EndsAt(answers, n + 1);
      }
      if n: nat :| EndsAt(answers, n) && items == AllItems(answers[..n + 1]) {
        assert n > 0;
        assert answers[..n + 1][1..] == tail[..n];
        assert forall i :: 0 <= i < n ==> tail[i] == answers[i + 1];
        assert EndsAt(tail, n - 1);
        ListingIsWhole(tail, AllItems(tail[..n]));
      }
    }
  }

  /** The paging loop. `answers` are the server's replies in order; running out of them is a cut-off walk. */
  method ListPages(answers: seq<Option<Page>>) returns (r: Option<seq<Item>>)
    ensures r == Listing(answers)
  {
    var out, i := [], 0;
    assert answers[0..] == answers;
    BehindAgain([], [], Listing(answers));
    while i < |answers|
      invariant 0 <= i <= |answers|
      invariant Listing(answers) == Behind(out, Listing(answers[i..]))
    {
      assert answers[i..][1..] == answers[i + 1..];
      if answers[i].Some? { BehindAgain(out, answers[i].value.items, Listing(answers[i + 1..])); }
      if answers[i].None? { return None; }
      out := out + answers[i].value.items;
      if Blank(answers[i].value.next) { return Some(out); }
      i := i + 1;
    }
    r := None;
  }

  // ----- All targets -----

  datatype Target = Target(path: string, kind: string, optional: bool)

  predicate OptionalAPI(path: string) {
    || Contains(path, "/ingresses") || Contains(path, "/cronjobs")
    || Contains(path, "rbac.authorization.k8s.io") || Contains(path, "/networkpolicies")
    || Contains(path, "/horizontalpodautoscalers") || Contains(path, "/secrets")
  }

  const OPTIONAL_PARTS := ["/ingresses", "/cronjobs", "rbac.authorization.k8s.io", "/networkpolicies",
                           "/horizontalpodautoscalers", "/secrets"]

  /** The paths of the listings a cluster may refuse: one of six parts stands somewhere in them. */
  lemma OptionalExact(path: string)
    ensures OptionalAPI(path) <==> exists part, i: nat :: part in OPTIONAL_PARTS && StandsAt(part, path, i)
  {
    forall part | part in OPTIONAL_PARTS ensures Contains(path, part) <==> exists i: nat :: StandsAt(part, path, i) {
      ContainsExact(path, part);
    }
    assert OPTIONAL_PARTS[0] == "/ingresses" && OPTIONAL_PARTS[1] == "/cronjobs"
      && OPTIONAL_PARTS[2] == "rbac.authorization.k8s.io" && OPTIONAL_PARTS[3] == "/networkpolicies"
      && OPTIONAL_PARTS[4] == "/horizontalpodautoscalers" && OPTIONAL_PARTS[5] == "/secrets";
    if OptionalAPI(path) {
      var part :| part in OPTIONAL_PARTS && Contains(path, part);
      var i: nat :| StandsAt(part, path, i);
    }
  }

  predicate Tolerated(t: Target) {
    t.optional || OptionalAPI(t.path)
  }

  /** Objects listed under a target carry the target's kind. */
  function OfTarget(t: Target, objects: seq<Item>): seq<Item> {
    seq(|objects|, i requires 0 <= i < |objects| => objects[i].(kind := t.kind))
  }

  datatype Collected = Collected(resources: seq<Item>, kinds: seq<string>)

  /** What the answered targets contribute; nothing at all when a required target fails. */
  function CollectedFrom(targets: seq<Target>, answers: seq<seq<Option<Page>>>): Option<Collected>
    requires |targets| == |answers|
  {
    if targets == [] then Some(Collected([], []))
    else
      var n := |targets| - 1;
      match CollectedFrom(targets[..n], answers[..n])
      case None => None
      case Some(c) =>
        match Listing(answers[n])
        case None => if Tolerated(targets[n]) then Some(c) else None
        case Some(objects) => Some(Collected(c.resources + OfTarget(targets[n], objects), c.kinds + [targets[n].kind]))
  }

  lemma {:induction false} RequiredFailure(targets: seq<Target>, answers: seq<seq<Option<Page>>>, k: nat)
    requires |targets| == |answers| && k <= |targets|
    requires CollectedFrom(targets[..k], answers[..k]).None?
    ensures CollectedFrom(targets, answers).None?
    decreases |targets|
  {
    if k < |targets| {
      var n := |targets| - 1;
      assert targets[..n][..k] == targets[..k] && answers[..n][..k] == answers[..k];
      RequiredFailure(targets[..n], answers[..n], k);
    } else {
      assert targets[..k] == targets && answers[..k] == answers;
    }
  }

  /** The collection loop. */
  method Collect(targets: seq<Target>, answers: seq<seq<Option<Page>>>) returns (r: Option<Collected>)
    requires |targets| == |answers|
    ensures r == CollectedFrom(targets, answers)
  {
    var c, i := Collected([], []), 0;
    while i < |targets|
      invariant 0 <= i <= |targets|
      invariant CollectedFrom(targets[..i], answers[..i]) == Some(c)
    {
      var listed := ListPages(answers[i]);
      assert targets[..i + 1][..i] == targets[..i] && answers[..i + 1][..i] == answers[..i];
      if listed.None? {
        if !Tolerated(targets[i]) {
          RequiredFailure(targets, answers, i + 1);
          return None;
        }
      } else {
        c := Collected(c.resources + OfTarget(targets[i], listed.value), c.kinds + [targets[i].kind]);
      }
      i := i + 1;
    }
    assert targets[..i] == targets && answers[..i] == answers;
    r := Some(c);
  }

  ghost predicate Answered(targets: seq<Target>, answers: seq<seq<Option<Page>>>, i: int)
    requires |targets| == |answers|
  {
    0 <= i < |targets| && Listing(answers[i]).Some?
  }

  /** Target `i` was answered with the object. */
  ghost predicate Gave(targets: seq<Target>, answers: seq<seq<Option<Page>>>, i: int, it: Item)
    requires |targets| == |answers|
  {
    Answered(targets, answers, i) && it in OfTarget(targets[i], Listing(answers[i]).value)
  }

  /** The object is the one listed at `j`, but for the kind, which is the target's. */
  ghost predicate ListedAt(t: Target, objects: seq<Item>, it: Item, j: nat) {
    j < |objects| && it == objects[j].(kind := t.kind)
  }

  lemma OfTargetExact(t: Target, objects: seq<Item>, it: Item)
    ensures it in OfTarget(t, objects) <==> exists j: nat :: ListedAt(t, objects, it, j)
  {
    var given := OfTarget(t, objects);
    if it in given {
      var j :| 0 <= j < |given| && given[j] == it;
      assert ListedAt(t, objects, it, j);
    }
    if j: nat :| ListedAt(t, objects, it, j) { assert given[j] == it; }
  }

  ghost predicate Faithful(targets: seq<Target>, answers: seq<seq<Option<Page>>>, c: Collected)
    requires |targets| == |answers|
  {
    && (forall k :: k in c.kinds <==> exists i :: Answered(targets, answers, i) && targets[i].kind == k)
    && (forall it :: it in c.resources <==> exists i :: Gave(targets, answers, i, it))
  }

  /** One more target seen from the targets before it. */
  lemma OneMoreTarget(targets: seq<Target>, answers: seq<seq<Option<Page>>>)
    requires |targets| == |answers| > 0
    ensures var n := |targets| - 1;
      && (forall i :: Answered(targets[..n], answers[..n], i) <==> i < n && Answered(targets, answers, i))
      && (forall i, it :: Gave(targets[..n], answers[..n], i, it) <==> i < n && Gave(targets, answers, i, it))
  {
  }

  lemma KindsStep(targets: seq<Target>, answers: seq<seq<Option<Page>>>, kinds: seq<string>, kinds': seq<string>)
    requires |targets| == |answers| > 0
    requires var n := |targets| - 1;
      && (forall k :: k in kinds <==>
            exists i :: Answered(targets[..n], answers[..n], i) && targets[..n][i].kind == k)
      && kinds' == kinds + if Listing(answers[n]).None? then [] else [targets[n].kind]
    ensures forall k :: k in kinds' <==> exists i :: Answered(targets, answers, i) && targets[i].kind == k
  {
    var n := |targets| - 1;
    var ts, ans := targets[..n], answers[..n];
    OneMoreTarget(targets, answers);
    forall k ensures k in kinds' <==> exists i :: Answered(targets, answers, i) && targets[i].kind == k {
      if i :| Answered(targets, answers, i) && targets[i].kind == k { assert i < n ==> Answered(ts, ans, i); }
      if k in kinds {
        var i :| Answered(ts, ans, i) && ts[i].kind == k;
        assert Answered(targets, answers, i) && targets[i].kind == k;
      } else if k in kinds' {
        assert Answered(targets, answers, n) && targets[n].kind == k;
      }
    }
  }

  lemma ResourcesStep(targets: seq<Target>, answers: seq<seq<Option<Page>>>, items: seq<Item>, items': seq<Item>)
    requires |targets| == |answers| > 0
    requires var n := |targets| - 1;
      && (forall it :: it in items <==> exists i :: Gave(targets[..n], answers[..n], i, it))
      && items' == items + if Listing(answers[n]).None? then [] else OfTarget(targets[n], Listing(answers[n]).value)
    ensures forall it :: it in items' <==> exists i :: Gave(targets, answers, i, it)
  {
    var n := |targets| - 1;
    var ts, ans := targets[..n], answers[..n];
    OneMoreTarget(targets, answers);
    forall it ensures it in items' <==> exists i :: Gave(targets, answers, i, it) {
      if it in items {
        var i :| Gave(ts, ans, i, it);
        assert Gave(targets, answers, i, it);
      } else if it in items' {
        assert Gave(targets, answers, n, it);
      }
      if i :| Gave(targets, answers, i, it) { assert i < n ==> Gave(ts, ans, i, it); }
    }
  }

  lemma FaithfulStep(targets: seq<Target>, answers: seq<seq<Option<Page>>>, c: Collected, c': Collected)
    requires |targets| == |answers| > 0
    requires var n := |targets| - 1;
      && Faithful(targets[..n], answers[..n], c)
      && match Listing(answers[n])
         case None => c' == c
         case Some(objects) => c' == Collected(c.resources + OfTarget(targets[n], objects), c.kinds + [targets[n].kind])
    ensures Faithful(targets, answers, c')
  {
    assert c.resources + [] == c.resources && c.kinds + [] == c.kinds;
    KindsStep(targets, answers, c.kinds, c'.kinds);
    ResourcesStep(targets, answers, c.resources, c'.resources);
  }

  /** A collection succeeds exactly when every required target answers; it then names exactly the kinds of
      the answered targets, and lists exactly the objects they answered with. */
  lemma {:induction false} CollectionIsFaithful(targets: seq<Target>, answers: seq<seq<Option<Page>>>)
    requires |targets| == |answers|
    ensures var r := CollectedFrom(targets, answers);
      && (r.None? <==> exists i :: 0 <= i < |targets| && !Answered(targets, answers, i) && !targets[i].optional
                                   && !OptionalAPI(targets[i].path))
      && (r.Some? ==> Faithful(targets, answers, r.value))
    decreases |targets|
  {
    if targets != [] {
      var n := |targets| - 1;
      var ts, ans := targets[..n], answers[..n];
      CollectionIsFaithful(ts, ans);
      assert forall i :: Answered(ts, ans, i) <==> i < n && Answered(targets, answers, i);
      assert forall i :: 0 <= i < n ==> ts[i] == targets[i];
      var before, r := CollectedFrom(ts, ans), CollectedFrom(targets, answers);
      if r.Some? { FaithfulStep(targets, answers, before.value, r.value); }
      if before.None? {
        var i :| 0 <= i < n && !Answered(ts, ans, i) && !ts[i].optional && !OptionalAPI(ts[i].path);
        assert !Answered(targets, answers, i) && !targets[i].optional && !OptionalAPI(targets[i].path);
      }
    }
  }

  /** The snapshot built from a collection. */
  function SnapshotOf(cluster: string, observedAt: string, c: Collected): SnapshotSync.Snapshot {
    SnapshotSync.Snapshot(cluster, observedAt, c.resources, true, c.kinds)
  }

  /** Every synchronised kind is the trimmed kind of an answered target. */
  lemma SyncKindsAnswered(targets: seq<Target>, answers: seq<seq<Option<Page>>>, cluster: string, observedAt: string,
                          c: Collected, k: string)
    requires |targets| == |answers| && Faithful(targets, answers, c)
    requires k in SnapshotSync.SyncKinds(SnapshotOf(cluster, observedAt, c), c.resources)
    ensures exists i :: Answered(targets, answers, i) && TrimSpace(targets[i].kind) == k
  {
    forall it | it in c.resources && SnapshotSync.Listed(it)
      ensures TrimSpace(it.kind) in SnapshotSync.NormalizeKinds(c.kinds)
    {
      var i :| Gave(targets, answers, i, it);
      assert it.kind == targets[i].kind && it.kind in c.kinds;
    }
    SnapshotSync.FirstKindFound(c.resources);
    var v :| v in c.kinds && k == TrimSpace(v);
    var i :| Answered(targets, answers, i) && targets[i].kind == v;
  }

  /** A kind that no answered target lists, because its optional listing failed on some page, say, keeps
      every row it had: nothing of it is deleted, added or changed. */
  lemma UnlistedKindUntouched(targets: seq<Target>, answers: seq<seq<Option<Page>>>, cluster: string,
                              observedAt: string, inv: Collector.Inventory, id: Collector.InventoryId)
    requires |targets| == |answers| && CollectedFrom(targets, answers).Some?
    requires forall i :: Answered(targets, answers, i) ==> Normalize(targets[i].kind) != Lower(id.kind)
    ensures var after := SnapshotSync.Synced(inv,
      SnapshotOf(cluster, observedAt, CollectedFrom(targets, answers).value));
      (id in after <==> id in inv) && (id in inv ==> after[id] == inv[id])
  {
    CollectionIsFaithful(targets, answers);
    var c := CollectedFrom(targets, answers).value;
    var snap := SnapshotOf(cluster, observedAt, c);
    forall it | it in c.resources ensures !SnapshotSync.Names(TrimSpace(cluster), it, id) {
      var i :| Gave(targets, answers, i, it);
      assert it.kind == targets[i].kind;
    }
    if SnapshotSync.OfKinds(id.kind, SnapshotSync.SyncKinds(snap, c.resources)) {
      var k :| k in SnapshotSync.SyncKinds(snap, c.resources) && Lower(k) == Lower(id.kind);
      SyncKindsAnswered(targets, answers, cluster, observedAt, c, k);
    }
    SnapshotSync.OtherRowsStay(inv, snap, id);
  }

  /** A kind that was listed ends up stored exactly as listed. */
  lemma ListedKindExact(targets: seq<Target>, answers: seq<seq<Option<Page>>>, i: int, cluster: string,
                        observedAt: string, inv: Collector.Inventory, x: string)
    requires |targets| == |answers| && CollectedFrom(targets, answers).Some?
    requires Answered(targets, answers, i) && !Blank(targets[i].kind)
    requires SnapshotSync.TrimmedRows(inv) && SnapshotSync.NulFreeRows(inv)
    requires forall it :: it in CollectedFrom(targets, answers).value.resources ==>
      SnapshotSync.NulFree(it.kind, it.namespace, it.name)
    ensures var after := SnapshotSync.Synced(inv,
      SnapshotOf(cluster, observedAt, CollectedFrom(targets, answers).value));
      SnapshotSync.StoredHas(after, TrimSpace(cluster), TrimSpace(targets[i].kind), x) <==>
        exists j, it :: Gave(targets, answers, j, it) && SnapshotSync.Listed(it)
                        && Normalize(it.kind) == Normalize(targets[i].kind) && SnapshotSync.ItemIdentity(it) == x
  {
    CollectionIsFaithful(targets, answers);
    var c := CollectedFrom(targets, answers).value;
    var snap, kind := SnapshotOf(cluster, observedAt, c), TrimSpace(targets[i].kind);
    assert targets[i].kind in c.kinds;
    assert kind in SnapshotSync.NormalizeKinds(c.kinds);
    SnapshotSync.SyncExact(inv, snap, kind, x);
    if SnapshotSync.SnapshotHas(c.resources, kind, x) {
      var it :| it in c.resources && SnapshotSync.Listed(it) && Normalize(it.kind) == Lower(kind)
        && SnapshotSync.ItemIdentity(it) == x;
      var j :| Gave(targets, answers, j, it);
    }
  }
}
