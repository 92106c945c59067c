/** Full-snapshot reconciliation: listing the cluster, upserting what was listed, and pruning the rows of
    the synchronised kinds that the snapshot no longer mentions. */
module SnapshotSync {
  import opened Text
  import Collector
  import Sorting

  type Item = Collector.Item

  type InventoryId = Collector.InventoryId

  type Inventory = Collector.Inventory

  datatype Snapshot = Snapshot(clusterID: string, observedAt: string, resources: seq<Item>,
                               fullSync: bool, fullSyncKinds: seq<string>)

  // ----- Identities -----

  /** The identity of a resource: folded kind, namespace and name. */
  function Identity(kind: string, namespace: string, name: string): string {
    Join([Normalize(kind), TrimSpace(namespace), TrimSpace(name)], '\0')
  }

  function RowIdentity(id: InventoryId): string {
    Identity(id.kind, id.namespace, id.name)
  }

  function ItemIdentity(it: Item): string {
    Identity(it.kind, it.namespace, it.name)
  }

  predicate NulFree(kind: string, namespace: string, name: string) {
    '\0' !in kind && '\0' !in namespace && '\0' !in name
  }

  lemma NormalizeKeepsOutNul(s: string)
    requires '\0' !in s
    ensures '\0' !in Normalize(s)
  {
    TrimChars(s, '\0');
    var t := TrimSpace(s);
    assert forall i :: 0 <= i < |t| ==> t[i] in t && LowerChar(t[i]) != '\0';
  }

  /** Fields without NUL: equal identities mean the same folded kind, namespace and name. */
  lemma IdentityInjective(kind: string, namespace: string, name: string, kind': string, namespace': string,
                          name': string)
    requires NulFree(kind, namespace, name) && NulFree(kind', namespace', name')
    requires Identity(kind, namespace, name) == Identity(kind', namespace', name')
    ensures Normalize(kind) == Normalize(kind') && TrimSpace(namespace) == TrimSpace(namespace')
      && TrimSpace(name) == TrimSpace(name')
  {
    NormalizeKeepsOutNul(kind);
    NormalizeKeepsOutNul(kind');
    TrimChars(namespace, '\0');
    TrimChars(namespace', '\0');
    TrimChars(name, '\0');
    TrimChars(name', '\0');
    var a := [Normalize(kind), TrimSpace(namespace), TrimSpace(name)];
    var b := [Normalize(kind'), TrimSpace(namespace'), TrimSpace(name')];
    JoinInjective(a, b, '\0');
    assert a[0] == b[0] && a[1] == b[1] && a[2] == b[2];
  }

  // ----- What a snapshot asks for -----

  /** Resources without a kind or a name are passed over. */
  predicate Listed(it: Item) {
    !Blank(it.kind) && !Blank(it.name)
  }

  function RowId(cluster: string, it: Item): InventoryId {
    Collector.InventoryId(cluster, TrimSpace(it.kind), it.namespace, TrimSpace(it.name))
  }

  function Row(observedAt: string, it: Item): Item {
    it.(kind := TrimSpace(it.kind), name := TrimSpace(it.name), observedAt := First([it.observedAt, observedAt]))
  }

  /** The inventory after upserting the listed resources, in order. */
  function Upserted(cluster: string, observedAt: string, inv: Inventory, items: seq<Item>): Inventory {
    if items == [] then inv
    else
      var it, before := items[|items| - 1], Upserted(cluster, observedAt, inv, items[..|items| - 1]);
      if Listed(it) then before[RowId(cluster, it) := Row(observedAt, it)] else before
  }

  ghost function Present(items: seq<Item>): set<string> {
    set it | it in items && Listed(it) :: ItemIdentity(it)
  }

  function NormalizeKinds(values: seq<string>): set<string> {
    set v | v in values && !Blank(v) :: TrimSpace(v)
  }

  /** The kind of the first listed resource, if there is one. */
  ghost function FirstKind(items: seq<Item>): set<string> {
    if items == [] then {}
    else
      var it, before := items[|items| - 1], FirstKind(items[..|items| - 1]);
      if before == {} && Listed(it) then {TrimSpace(it.kind)} else before
  }

  /** The kinds a snapshot synchronises, after its first resources have been seen. A full snapshot that
      names no kinds picks up the kind of its first resource, and then no other. */
  ghost function SyncKinds(snap: Snapshot, items: seq<Item>): set<string> {
    var named := NormalizeKinds(snap.fullSyncKinds);
    if named == {} && snap.fullSync then FirstKind(items) else named
  }

  ghost predicate OfKinds(kind: string, kinds: set<string>) {
    exists k :: k in kinds && Lower(k) == Lower(kind)
  }

  /** The rows a full sync removes: this cluster, a synchronised kind, not in the snapshot. */
  ghost predicate Stale(id: InventoryId, cluster: string, kinds: set<string>, present: set<string>) {
    id.cluster == cluster && OfKinds(id.kind, kinds) && RowIdentity(id) !in present
  }

  ghost function Pruned(inv: Inventory, cluster: string, kinds: set<string>, present: set<string>): Inventory {
    map id | id in inv && !Stale(id, cluster, kinds, present) :: inv[id]
  }

  /** The inventory after a whole snapshot. */
  ghost function Synced(inv: Inventory, snap: Snapshot): Inventory {
    var cluster := TrimSpace(snap.clusterID);
    var up := Upserted(cluster, snap.observedAt, inv, snap.resources);
    if snap.fullSync then Pruned(up, cluster, SyncKinds(snap, snap.resources), Present(snap.resources)) else up
  }

  /** Rows only leave, and only stale ones. */
  ghost predicate OnlyStaleRemoved(inv: Inventory, inv': Inventory, cluster: string, kinds: set<string>,
                                   present: set<string>) {
    && (forall id :: id in inv' ==> id in inv && inv'[id] == inv[id])
    && (forall id :: id in inv && id !in inv' ==> Stale(id, cluster, kinds, present))
  }

  /** Kinds and names of stored rows are trimmed. */
  ghost predicate TrimmedRows(inv: Inventory) {
    forall id :: id in inv ==> Trimmed(id.kind) && Trimmed(id.name)
  }

  /** The resource has a kind and a name, and the row is the one of its trimmed kind, its namespace and its trimmed
      name. */
  predicate Names(cluster: string, it: Item, id: InventoryId) {
    && !Blank(it.kind) && !Blank(it.name)
    && id == Collector.InventoryId(cluster, TrimSpace(it.kind), it.namespace, TrimSpace(it.name))
  }

  /** The row shows the resource, kind and name trimmed, and the snapshot's time when it has none of its own. */
  predicate Shows(row: Item, it: Item, observedAt: string) {
    row == it.(kind := TrimSpace(it.kind), name := TrimSpace(it.name),
               observedAt := if !Blank(it.observedAt) then it.observedAt
                             else if !Blank(observedAt) then observedAt else "")
  }

  lemma RowShows(observedAt: string, it: Item)
    ensures Shows(Row(observedAt, it), it, observedAt)
  {
    FirstOfTwo(it.observedAt, observedAt);
  }

  /** The position of the last resource with a given row id; -1 when there is none. */
  ghost function LastNaming(cluster: string, items: seq<Item>, id: InventoryId): (n: int)
    ensures -1 <= n < |items|
    ensures n >= 0 ==> Names(cluster, items[n], id)
    ensures forall j :: n < j < |items| ==> !Names(cluster, items[j], id)
  {
    if items == [] then -1
    else if Names(cluster, items[|items| - 1], id) then |items| - 1
    else LastNaming(cluster, items[..|items| - 1], id)
  }

  /** A row after the upserts: the row of the last resource with that id, or the row that was there. */
  lemma {:induction false} UpsertedRow(cluster: string, observedAt: string, inv: Inventory, items: seq<Item>,
                                       id: InventoryId)
    ensures var up, n := Upserted(cluster, observedAt, inv, items), LastNaming(cluster, items, id);
      if n >= 0 then id in up && Shows(up[id], items[n], observedAt)
      else (id in up <==> id in inv) && (id in up ==> up[id] == inv[id])
    decreases |items|
  {
    if items != [] {
      RowShows(observedAt, items[|items| - 1]);
      UpsertedRow(cluster, observedAt, inv, items[..|items| - 1], id);
    }
  }

  lemma TrimmedIdentity(it: Item)
    ensures Identity(TrimSpace(it.kind), it.namespace, TrimSpace(it.name)) == ItemIdentity(it)
    ensures forall cluster :: RowIdentity(RowId(cluster, it)) == ItemIdentity(it)
    ensures Trimmed(TrimSpace(it.kind)) && Trimmed(TrimSpace(it.name))
  {
    TrimSpaceFixedPoints(it.kind);
    TrimSpaceFixedPoints(it.name);
  }

  // ----- What a sync leaves behind -----

  /** A row after a snapshot, full or not: the last resource with its id gives its contents and keeps it;
      an unmentioned row stays untouched unless a full sync finds it stale. */
  lemma SyncedRow(inv: Inventory, snap: Snapshot, id: InventoryId)
    ensures var cluster, items, after := TrimSpace(snap.clusterID), snap.resources, Synced(inv, snap);
      var n := LastNaming(cluster, items, id);
      if n >= 0 then id in after && Shows(after[id], items[n], snap.observedAt)
      else
        && (id in after
          <==> id in inv && !(snap.fullSync && Stale(id, cluster, SyncKinds(snap, items), Present(items))))
        && (id in after ==> after[id] == inv[id])
  {
    var cluster, items := TrimSpace(snap.clusterID), snap.resources;
    UpsertedRow(cluster, snap.observedAt, inv, items, id);
    var n := LastNaming(cluster, items, id);
    if n >= 0 {
      TrimmedIdentity(items[n]);
      assert RowIdentity(id) in Present(items);
    }
  }

  /** Rows of other clusters and of kinds outside the sync set stay, apart from upserts. */
  lemma OtherRowsStay(inv: Inventory, snap: Snapshot, id: InventoryId)
    requires id.cluster != TrimSpace(snap.clusterID) || !OfKinds(id.kind, SyncKinds(snap, snap.resources))
    requires forall it :: it in snap.resources ==> !Names(TrimSpace(snap.clusterID), it, id)
    ensures id in Synced(inv, snap) <==> id in inv
    ensures id in inv ==> Synced(inv, snap)[id] == inv[id]
  {
    SyncedRow(inv, snap, id);
  }

  ghost predicate StoredHas(inv: Inventory, cluster: string, kind: string, x: string) {
    exists id :: id in inv && id.cluster == cluster && Lower(id.kind) == Lower(kind) && RowIdentity(id) == x
  }

  ghost predicate SnapshotHas(items: seq<Item>, kind: string, x: string) {
    exists it :: it in items && Listed(it) && Normalize(it.kind) == Lower(kind) && ItemIdentity(it) == x
  }

  ghost predicate NulFreeRows(inv: Inventory) {
    forall id :: id in inv ==> NulFree(id.kind, id.namespace, id.name)
  }

  /** After a full sync the identities stored for a synchronised kind are exactly the snapshot's. */
  lemma SyncExact(inv: Inventory, snap: Snapshot, kind: string, x: string)
    requires snap.fullSync && kind in SyncKinds(snap, snap.resources)
    requires TrimmedRows(inv) && NulFreeRows(inv)
    requires forall it :: it in snap.resources ==> NulFree(it.kind, it.namespace, it.name)
    ensures StoredHas(Synced(inv, snap), TrimSpace(snap.clusterID), kind, x) <==> SnapshotHas(snap.resources, kind, x)
  {
    var cluster, items, after := TrimSpace(snap.clusterID), snap.resources, Synced(inv, snap);
    if SnapshotHas(items, kind, x) {
      var it :| it in items && Listed(it) && Normalize(it.kind) == Lower(kind) && ItemIdentity(it) == x;
      var i :| 0 <= i < |items| && items[i] == it;
      assert Names(cluster, items[i], RowId(cluster, it));
      SyncedRow(inv, snap, RowId(cluster, it));
      TrimmedIdentity(it);
    }
    if StoredHas(after, cluster, kind, x) {
      var id :| id in after && id.cluster == cluster && Lower(id.kind) == Lower(kind) && RowIdentity(id) == x;
      SyncedRow(inv, snap, id);
      var n := LastNaming(cluster, items, id);
      if n >= 0 {
        TrimmedIdentity(items[n]);
      } else {
        assert OfKinds(id.kind, SyncKinds(snap, items));
        var it :| it in items && Listed(it) && ItemIdentity(it) == RowIdentity(id);
        IdentityInjective(it.kind, it.namespace, it.name, id.kind, id.namespace, id.name);
        TrimSpaceFixedPoints(id.kind);
      }
    }
  }

  // ----- Full snapshots that name no kinds -----

  /** No row of a kind that occurs in the snapshot is left over. */
  ghost predicate NothingLeftOver(inv: Inventory, snap: Snapshot) {
    forall id, it :: id in Synced(inv, snap) && id.cluster == TrimSpace(snap.clusterID)
                     && it in snap.resources && Listed(it) && Lower(id.kind) == Normalize(it.kind)
                     ==> RowIdentity(id) in Present(snap.resources)
  }

  ghost predicate OneKind(items: seq<Item>) {
    forall a, b :: a in items && b in items && Listed(a) && Listed(b) ==> Normalize(a.kind) == Normalize(b.kind)
  }

  lemma {:induction false} FirstKindFound(items: seq<Item>)
    ensures FirstKind(items) == {} <==> forall it :: it in items ==> !Listed(it)
    ensures FirstKind(items) != {} ==> exists it ::
      it in items && Listed(it) && FirstKind(items) == {TrimSpace(it.kind)}
    decreases |items|
  {
    if items != [] {
      var front, last := items[..|items| - 1], items[|items| - 1];
      FirstKindFound(front);
      assert items == front + [last];
      assert forall it :: it in items <==> it in front || it == last;
    }
  }

  /** The resource at `i` is the first that is listed. */
  ghost predicate FirstListed(items: seq<Item>, i: nat) {
    && i < |items| && !Blank(items[i].kind) && !Blank(items[i].name)
    && forall j :: 0 <= j < i ==> Blank(items[j].kind) || Blank(items[j].name)
  }

  /** The kinds a snapshot synchronises: those it names, trimmed; a full one that names none takes the kind of its
      first listed resource, and any other takes none. */
  lemma {:induction false} FirstKindExact(items: seq<Item>)
    ensures forall i: nat :: FirstListed(items, i) ==> FirstKind(items) == {TrimSpace(items[i].kind)}
    decreases |items|
  {
    if items != [] {
      var n := |items| - 1;
      var front := items[..n];
      FirstKindExact(front);
      FirstKindFound(front);
      forall i: nat | FirstListed(items, i) ensures FirstKind(items) == {TrimSpace(items[i].kind)} {
        assert forall j :: 0 <= j < n ==> front[j] == items[j];
        if i < n { assert FirstListed(front, i); }
      }
    }
  }

  lemma SyncKindsExact(snap: Snapshot)
    ensures var kinds, named := SyncKinds(snap, snap.resources), NormalizeKinds(snap.fullSyncKinds);
      && (forall k :: k in named <==> exists i :: 0 <= i < |snap.fullSyncKinds| && !Blank(snap.fullSyncKinds[i])
                                                  && k == TrimSpace(snap.fullSyncKinds[i]))
      && (named != {} || !snap.fullSync ==> kinds == named)
      && (named == {} && snap.fullSync ==>
            forall i: nat :: FirstListed(snap.resources, i) ==> kinds == {TrimSpace(snap.resources[i].kind)})
  {
    var vs := snap.fullSyncKinds;
    FirstKindExact(snap.resources);
    forall k
      ensures k in NormalizeKinds(vs) <==> exists i :: 0 <= i < |vs| && !Blank(vs[i]) && k == TrimSpace(vs[i])
    {
      if k in NormalizeKinds(vs) {
        var v :| v in vs && !Blank(v) && k == TrimSpace(v);
        var i :| 0 <= i < |vs| && vs[i] == v;
      }
    }
  }

  /** A name longer than any of the given identities. */
  lemma {:induction false} UnusedName(xs: set<string>) returns (name: string)
    ensures Trimmed(name) && name != ""
    ensures forall x :: x in xs ==> |x| < |name|
    decreases xs
  {
    if xs == {} {
      name := "n";
    } else {
      var x :| x in xs;
      var shorter := UnusedName(xs - {x});
      name := seq(|x| + |shorter| + 1, _ => 'n');
    }
  }

  /** A stored row that a kindless full sync overlooks. */
  lemma LeftOverRow(snap: Snapshot, it: Item, first: string)
    requires snap.fullSync && SyncKinds(snap, snap.resources) == {first}
    requires it in snap.resources && Listed(it) && Normalize(it.kind) != Lower(first)
    ensures exists inv: Inventory :: !NothingLeftOver(inv, snap)
  {
    var cluster, items := TrimSpace(snap.clusterID), snap.resources;
    var name := UnusedName(Present(items));
    var id := Collector.InventoryId(cluster, TrimSpace(it.kind), "", name);
    TrimSpaceFixedPoints(name);
    var parts := [Normalize(id.kind), TrimSpace(id.namespace), name];
    assert parts[1..] == [parts[1], name] && parts[1..][1..] == [name];
    assert Join(parts[1..], '\0') == parts[1] + ['\0'] + name;
    assert Join(parts, '\0') == parts[0] + ['\0'] + Join(parts[1..], '\0');
    assert RowIdentity(id) == Join(parts, '\0');
    var inv: Inventory := map[id := it];
    SyncedRow(inv, snap, id);
    var n := LastNaming(cluster, items, id);
    if n >= 0 { TrimmedIdentity(items[n]); }
    assert !OfKinds(id.kind, {first});
    assert !NothingLeftOver(inv, snap);
  }

  /** Without named kinds only the first resource's kind is pruned: whatever was stored, nothing of the
      snapshot's kinds is left over exactly when all its resources are of one kind. */
  lemma KindlessSync(snap: Snapshot)
    requires snap.fullSync && NormalizeKinds(snap.fullSyncKinds) == {}
    ensures (forall inv: Inventory :: NothingLeftOver(inv, snap)) <==> OneKind(snap.resources)
  {
    var cluster, items := TrimSpace(snap.clusterID), snap.resources;
    FirstKindFound(items);
    if OneKind(items) {
      forall inv: Inventory ensures NothingLeftOver(inv, snap) {
        forall id, it | id in Synced(inv, snap) && id.cluster == cluster && it in items && Listed(it)
          && Lower(id.kind) == Normalize(it.kind)
          ensures RowIdentity(id) in Present(items)
        {
          assert OfKinds(id.kind, SyncKinds(snap, items));
        }
      }
    } else {
      var a, b :| a in items && b in items && Listed(a) && Listed(b) && Normalize(a.kind) != Normalize(b.kind);
      var first :| first in items && Listed(first) && FirstKind(items) == {TrimSpace(first.kind)};
      LeftOverRow(snap, if Normalize(a.kind) == Normalize(first.kind) then b else a, TrimSpace(first.kind));
    }
  }

  lemma PresentSnoc(items: seq<Item>, it: Item)
    ensures Present(items + [it]) == Present(items) + if Listed(it) then {ItemIdentity(it)} else {}
  {
    var all := items + [it];
    assert all[|items|] == it;
    forall x | x in Present(items) ensures x in Present(all) {
      var i :| 0 <= i < |items| && Listed(items[i]) && x == ItemIdentity(items[i]);
      assert all[i] == items[i];
    }
  }

  /** The rows `seen` were looked at, and the stale ones among them removed. */
  ghost predicate Pruning(inv: Inventory, inv': Inventory, present: set<string>, seen: seq<InventoryId>) {
    && (forall id :: id in inv' ==> id in inv && inv'[id] == inv[id])
    && (forall id :: id in inv && id !in inv' ==> id in seen && RowIdentity(id) !in present)
    && (forall id :: id in seen && id in inv' ==> RowIdentity(id) in present)
  }

  lemma PruningSnoc(inv: Inventory, inv': Inventory, present: set<string>, seen: seq<InventoryId>, id: InventoryId)
    requires id in inv && id !in seen && Pruning(inv, inv', present, seen)
    ensures id in inv'
    ensures Pruning(inv, if RowIdentity(id) !in present then inv' - {id} else inv', present, seen + [id])
  {
  }

  lemma RemovedOne(inv: Inventory, id: InventoryId)
    requires id in inv
    ensures |inv - {id}| == |inv| - 1
  {
    assert (inv - {id}).Keys == inv.Keys - {id};
  }

  /** The next listed row is still there; it goes when it is stale. */
  lemma PruningStep(inv: Inventory, inv': Inventory, present: set<string>, existing: seq<InventoryId>, i: nat)
    requires i < |existing| && existing[i] in inv && Pruning(inv, inv', present, existing[..i])
    requires forall m, n :: 0 <= m < n < |existing| ==> existing[m] != existing[n]
    ensures existing[i] in inv' && |inv' - {existing[i]}| == |inv'| - 1
    ensures Pruning(inv, if RowIdentity(existing[i]) !in present then inv' - {existing[i]} else inv', present,
                    existing[..i + 1])
  {
    assert existing[..i + 1] == existing[..i] + [existing[i]];
    assert existing[i] !in existing[..i];
    PruningSnoc(inv, inv', present, existing[..i], existing[i]);
    RemovedOne(inv', existing[i]);
  }

  /** After a prefix of the listed rows of one kind was looked at. */
  lemma PrunedPrefix(inv: Inventory, inv': Inventory, cluster: string, kind: string, present: set<string>,
                     existing: seq<InventoryId>, i: nat)
    requires forall id :: id in existing <==> id in inv && id.cluster == cluster && Lower(id.kind) == Lower(kind)
    requires i <= |existing| && Pruning(inv, inv', present, existing[..i])
    ensures OnlyStaleRemoved(inv, inv', cluster, {kind}, present)
    ensures i == |existing| ==> forall id :: id in inv' ==> !Stale(id, cluster, {kind}, present)
  {
    forall id | id in inv && id !in inv' ensures Stale(id, cluster, {kind}, present) {
      assert id in existing;
      assert OfKinds(id.kind, {kind});
    }
    if i == |existing| {
      assert existing[..i] == existing;
    }
  }

  ghost predicate PrunedSoFar(inv: Inventory, inv': Inventory, cluster: string, kinds: set<string>, rest: set<string>,
                              present: set<string>) {
    && OnlyStaleRemoved(inv, inv', cluster, kinds, present)
    && forall id :: id in inv' ==> !Stale(id, cluster, kinds - rest, present)
  }

  lemma PruneStep(inv: Inventory, before: Inventory, inv': Inventory, cluster: string, kinds: set<string>,
                  rest: set<string>, kind: string, present: set<string>, done: bool)
    requires rest <= kinds && kind in rest
    requires PrunedSoFar(inv, before, cluster, kinds, rest, present)
    requires OnlyStaleRemoved(before, inv', cluster, {kind}, present)
    requires done ==> forall id :: id in inv' ==> !Stale(id, cluster, {kind}, present)
    ensures PrunedSoFar(inv, inv', cluster, kinds, rest, present)
    ensures done ==> PrunedSoFar(inv, inv', cluster, kinds, rest - {kind}, present)
  {
    forall id | id in inv && id !in inv' ensures Stale(id, cluster, kinds, present) {
      if id in before { assert Stale(id, cluster, {kind}, present); }
    }
    if done {
      forall id | id in inv' ensures !Stale(id, cluster, kinds - (rest - {kind}), present) {
        assert !Stale(id, cluster, {kind}, present) && !Stale(id, cluster, kinds - rest, present);
        if k :| k in kinds - (rest - {kind}) && Lower(k) == Lower(id.kind) {
          assert k == kind || k in kinds - rest;
          if k == kind { assert OfKinds(id.kind, {kind}); }
        }
      }
    }
  }

  // ----- The store -----

  datatype Outcome = NoCluster | Failed | Done(resources: nat, staleDeleted: nat)

  /** Where the upsert loop stands after the first `i` resources. */
  ghost predicate Loaded(cluster: string, snap: Snapshot, inv: Inventory, i: nat,
                         kinds: set<string>, present: set<string>, inv': Inventory, resources: nat)
    requires i <= |snap.resources|
  {
    var done := snap.resources[..i];
    && kinds == SyncKinds(snap, done) && present == Present(done)
    && inv' == Upserted(cluster, snap.observedAt, inv, done) && resources == Sorting.CountIf(Listed, done)
  }

  lemma ListedNext(items: seq<Item>, i: nat)
    requires i < |items|
    ensures Sorting.CountIf(Listed, items[..i + 1])
         == Sorting.CountIf(Listed, items[..i]) + if Listed(items[i]) then 1 else 0
  {
    assert items[..i + 1] == items[..i] + [items[i]];
    Sorting.CountSnoc(Listed, items[..i], items[i]);
  }

  lemma PresentNext(items: seq<Item>, i: nat)
    requires i < |items|
    ensures Present(items[..i + 1]) == Present(items[..i]) + if Listed(items[i]) then {ItemIdentity(items[i])} else {}
  {
    assert items[..i + 1] == items[..i] + [items[i]];
    PresentSnoc(items[..i], items[i]);
  }

  lemma SyncKindsNext(snap: Snapshot, i: nat)
    requires i < |snap.resources|
    ensures var it, kinds := snap.resources[i], SyncKinds(snap, snap.resources[..i]);
      SyncKinds(snap, snap.resources[..i + 1])
      == if Listed(it) && snap.fullSync && kinds == {} then {TrimSpace(it.kind)} else kinds
  {
    assert snap.resources[..i + 1][..i] == snap.resources[..i];
  }

  lemma UpsertedNext(cluster: string, observedAt: string, inv: Inventory, items: seq<Item>, i: nat)
    requires i < |items|
    ensures var before := Upserted(cluster, observedAt, inv, items[..i]);
      Upserted(cluster, observedAt, inv, items[..i + 1])
      == if Listed(items[i]) then before[RowId(cluster, items[i]) := Row(observedAt, items[i])] else before
  {
    assert items[..i + 1][..i] == items[..i];
  }

  lemma LoadStep(cluster: string, snap: Snapshot, inv: Inventory, i: nat,
                 kinds: set<string>, present: set<string>, inv': Inventory, resources: nat)
    requires i < |snap.resources|
    requires Loaded(cluster, snap, inv, i, kinds, present, inv', resources)
    ensures var it := snap.resources[i];
      if !Listed(it) then Loaded(cluster, snap, inv, i + 1, kinds, present, inv', resources)
      else Loaded(cluster, snap, inv, i + 1,
                  if snap.fullSync && kinds == {} then {TrimSpace(it.kind)} else kinds,
                  present + {ItemIdentity(it)}, inv'[RowId(cluster, it) := Row(snap.observedAt, it)], resources + 1)
  {
    PresentNext(snap.resources, i);
    SyncKindsNext(snap, i);
    UpsertedNext(cluster, snap.observedAt, inv, snap.resources, i);
    ListedNext(snap.resources, i);
  }

  /** What the loop returns when it is through, or stops after the call that wrote its last row. */
  lemma LoadedAll(cluster: string, snap: Snapshot, inv: Inventory, i: nat, kinds: set<string>, present: set<string>,
                  inv': Inventory, resources: nat)
    requires i <= |snap.resources| && Loaded(cluster, snap, inv, i, kinds, present, inv', resources)
    ensures inv' == Upserted(cluster, snap.observedAt, inv, snap.resources[..i])
    ensures i == |snap.resources| ==>
      resources == Sorting.CountIf(Listed, snap.resources) && kinds == SyncKinds(snap, snap.resources)
      && present == Present(snap.resources)
  {
    if i == |snap.resources| { assert snap.resources[..i] == snap.resources; }
  }

  lemma TrimmedUpsert(cluster: string, it: Item, inv: Inventory, observedAt: string)
    requires TrimmedRows(inv)
    ensures TrimmedRows(inv[RowId(cluster, it) := Row(observedAt, it)])
  {
    TrimmedIdentity(it);
  }

  /** Database calls that are always enough for a snapshot. */
  ghost function Budget(snap: Snapshot, inv: Inventory): nat {
    2 * |snap.resources| + |SyncKinds(snap, snap.resources)|
    + |Upserted(TrimSpace(snap.clusterID), snap.observedAt, inv, snap.resources)|
  }

  class Store {
    var inventory: Inventory

    ghost predicate Valid()
      reads this
    {
      TrimmedRows(inventory)
    }

    constructor ()
      ensures inventory == map[] && Valid()
    {
      inventory := map[];
    }

    /** The rows of one cluster whose kind matches, letter case apart; in any order. */
    method ListIdentities(cluster: string, kind: string) returns (ids: seq<InventoryId>)
      ensures forall id :: id in ids <==> id in inventory && id.cluster == cluster && Lower(id.kind) == Lower(kind)
      ensures forall i, j :: 0 <= i < j < |ids| ==> ids[i] != ids[j]
    {
      ids := [];
      var rest := inventory.Keys;
      while rest != {}
        invariant rest <= inventory.Keys
        invariant forall id :: id in ids <==>
          id in inventory.Keys - rest && id.cluster == cluster && Lower(id.kind) == Lower(kind)
        invariant forall i, j :: 0 <= i < j < |ids| ==> ids[i] != ids[j]
        decreases |rest|
      {
        var id :| id in rest;
        if id.cluster == cluster && Lower(id.kind) == Lower(kind) { ids := ids + [id]; }
        rest := rest - {id};
      }
    }

    /** Removes the stale rows of one kind, when `calls` database calls succeed before one fails. */
    method PruneKind(cluster: string, kind: string, present: set<string>, calls: nat)
      returns (ok: bool, deleted: nat, left: nat)
      modifies this
      ensures ok ==> forall id :: id in inventory ==> !Stale(id, cluster, {kind}, present)
      ensures OnlyStaleRemoved(old(inventory), inventory, cluster, {kind}, present)
      ensures deleted + |inventory| == |old(inventory)|
      ensures ok ==> left == calls - 1 - deleted
      ensures calls >= 1 + |old(inventory)| ==> ok
    {
      ok, deleted, left := false, 0, calls;
      if left == 0 { return; }
      var existing := ListIdentities(cluster, kind);
      left := left - 1;
      var i := 0;
      while i < |existing|
        invariant 0 <= i <= |existing|
        invariant calls == left + 1 + deleted && deleted + |inventory| == |old(inventory)|
        invariant Pruning(old(inventory), inventory, present, existing[..i])
      {
        var id := existing[i];
        PruningStep(old(inventory), inventory, present, existing, i);
        if RowIdentity(id) !in present {
          if left == 0 {
            PrunedPrefix(old(inventory), inventory, cluster, kind, present, existing, i);
            return;
          }
          inventory := inventory - {id};
          left := left - 1;
          deleted := deleted + 1;
        }
        i := i + 1;
      }
      PrunedPrefix(old(inventory), inventory, cluster, kind, present, existing, i);
      ok := true;
    }

    /** Removes the stale rows kind by kind, in any order of the kinds. */
    method PruneMissing(cluster: string, kinds: set<string>, present: set<string>, calls: nat)
      returns (ok: bool, deleted: nat)
      requires Valid()
      modifies this
      ensures Valid()
      ensures ok ==> inventory == Pruned(old(inventory), cluster, kinds, present)
      ensures OnlyStaleRemoved(old(inventory), inventory, cluster, kinds, present)
      ensures deleted + |inventory| == |old(inventory)|
      ensures calls >= |kinds| + |old(inventory)| ==> ok
    {
      ok, deleted := false, 0;
      var rest, left: nat := kinds, calls;
      while rest != {}
        invariant rest <= kinds && calls + |rest| == left + |kinds| + deleted
        invariant deleted + |inventory| == |old(inventory)|
        invariant PrunedSoFar(old(inventory), inventory, cluster, kinds, rest, present)
        decreases |rest|
      {
        var kind :| kind in rest;
        ghost var before := inventory;
        var done, n;
        done, n, left := PruneKind(cluster, kind, present, left);
        deleted := deleted + n;
        PruneStep(old(inventory), before, inventory, cluster, kinds, rest, kind, present, done);
        if !done { return; }
        rest := rest - {kind};
      }
      ok := true;
      assert kinds - rest == kinds;
    }

    /** The two database calls of one resource; the row is written when the first succeeds. */
    method UpsertRow(cluster: string, it: Item, observedAt: string, calls: nat)
      returns (ok: bool, wrote: bool, left: nat)
      requires Valid()
      modifies this
      ensures Valid()
      ensures wrote == (calls >= 1) && ok == (calls >= 2) && (ok ==> left == calls - 2)
      ensures inventory == if wrote then old(inventory)[RowId(cluster, it) := Row(observedAt, it)] else old(inventory)
    {
      ok, wrote, left := false, false, calls;
      if left == 0 { return; }
      TrimmedUpsert(cluster, it, inventory, observedAt);
      inventory := inventory[RowId(cluster, it) := Row(observedAt, it)];
      wrote := true;
      if left == 1 { return; }
      ok, left := true, left - 2;
    }

    /** The upsert loop: rows, kinds to synchronise and identities present. */
    method UpsertResources(cluster: string, snap: Snapshot, calls: nat)
      returns (ok: bool, kinds: set<string>, present: set<string>, resources: nat, left: nat, ghost reached: nat)
      requires Valid()
      modifies this
      ensures Valid()
      ensures reached <= |snap.resources|
      ensures inventory == Upserted(cluster, snap.observedAt, old(inventory), snap.resources[..reached])
      ensures ok ==>
        && reached == |snap.resources| && resources == Sorting.CountIf(Listed, snap.resources)
        && kinds == SyncKinds(snap, snap.resources) && present == Present(snap.resources)
      ensures !ok ==> calls < 2 * |snap.resources|
      ensures ok ==> left + 2 * |snap.resources| >= calls
    {
      kinds, present, resources, left := NormalizeKinds(snap.fullSyncKinds), {}, 0, calls;
      var i := 0;
      reached, ok := 0, false;
      while i < |snap.resources|
        invariant 0 <= i <= |snap.resources| && reached == i
        invariant Loaded(cluster, snap, old(inventory), i, kinds, present, inventory, resources) && Valid()
        invariant left + 2 * i >= calls
      {
        var it := snap.resources[i];
        LoadStep(cluster, snap, old(inventory), i, kinds, present, inventory, resources);
        if Listed(it) {
          TrimmedIdentity(it);
          present := present + {Identity(TrimSpace(it.kind), it.namespace, TrimSpace(it.name))};
          if snap.fullSync && kinds == {} { kinds := kinds + {TrimSpace(it.kind)}; }
          var done, wrote;
          done, wrote, left := UpsertRow(cluster, it, snap.observedAt, left);
          if wrote { reached := i + 1; }
          if !done { return; }
          resources := resources + 1;
        }
        reached := i + 1;
        i := i + 1;
      }
      LoadedAll(cluster, snap, old(inventory), i, kinds, present, inventory, resources);
      ok := true;
    }

    /** One snapshot, with a database that answers `calls` calls before it fails. A failed upsert leaves the
        resources before it upserted and nothing removed; `reached` says how far the upserts came. */
    method ApplySnapshot(snap: Snapshot, calls: nat) returns (r: Outcome, ghost reached: nat)
      requires Valid()
      modifies this
      ensures Valid()
      ensures r.NoCluster? <==> Blank(snap.clusterID)
      ensures r.NoCluster? ==> inventory == old(inventory)
      ensures reached <= |snap.resources|
      ensures var cluster := TrimSpace(snap.clusterID);
        var up := Upserted(cluster, snap.observedAt, old(inventory), snap.resources[..reached]);
        match r
        case NoCluster => true
        case Failed => if reached < |snap.resources| || !snap.fullSync then inventory == up
                       else OnlyStaleRemoved(up, inventory, cluster, SyncKinds(snap, snap.resources),
                         Present(snap.resources))
        case Done(resources, deleted) =>
          && reached == |snap.resources| && resources == Sorting.CountIf(Listed, snap.resources)
          && inventory == Synced(old(inventory), snap) && deleted + |inventory| == |up|
      ensures (!Blank(snap.clusterID) && calls >= Budget(snap, old(inventory))) ==> r.Done?
    {
      reached := 0;
      var cluster := TrimSpace(snap.clusterID);
      if cluster == "" { return NoCluster, 0; }
      var ok, kinds, present, resources, left;
      ok, kinds, present, resources, left, reached := UpsertResources(cluster, snap, calls);
      if !ok { return Failed, reached; }
      assert snap.resources[..reached] == snap.resources;
      var deleted := 0;
      if snap.fullSync {
        ok, deleted := PruneMissing(cluster, kinds, present, left);
        if !ok { return Failed, reached; }
      }
      r := Done(resources, deleted);
    }
  }
}
