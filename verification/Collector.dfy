/** The server side of realtime collection: one agent batch applied event by event, with one
    database call at a time and a failure possible at every call. */
module Collector {
  import opened Text
  import Sorting

  datatype Verb = Added | Modified | Deleted

  datatype Item = Item(kind: string, namespace: string, name: string, uid: string, observedAt: string, spec: string)

  datatype AgentEvent = AgentEvent(typ: string, resourceVersion: string, resource: Item)

  datatype K8sEvent = K8sEvent(reason: string, message: string, firstSeen: string, lastSeen: string)

  datatype Batch = Batch(clusterID: string, agentID: string, resourceVersion: string, observedAt: string,
                         events: seq<AgentEvent>, k8sEvents: seq<K8sEvent>)

  datatype InventoryId = InventoryId(cluster: string, kind: string, namespace: string, name: string)

  type Inventory = map<InventoryId, Item>

  /** What the duplicate filter and the inventory table hold. */
  datatype Db = Db(seen: set<string>, inventory: Inventory)

  /** An accepted watch event: its idempotency key and the row it upserts or deletes. */
  datatype Write = Write(key: string, verb: Verb, id: InventoryId, item: Item)

  const BATCH_KIND := "__batch__"

  // ----- Reading one event -----

  function ParseVerb(typ: string): Option<Verb> {
    var t := Upper(TrimSpace(typ));
    if t == "" || t == "MODIFIED" then Some(Modified)
    else if t == "ADDED" then Some(Added)
    else if t == "DELETED" then Some(Deleted)
    else None
  }

  function VerbName(v: Verb): string {
    match v
    case Added => "ADDED"
    case Modified => "MODIFIED"
    case Deleted => "DELETED"
  }

  predicate ValidBatch(b: Batch) {
    !Blank(b.clusterID) && !Blank(b.agentID)
  }

  function KeyFields(b: Batch, ev: AgentEvent, verb: Verb): seq<string> {
    var rv := First([ev.resourceVersion, b.resourceVersion]);
    [ TrimSpace(b.clusterID), b.agentID,
      First([rv, ev.resource.uid, ev.resource.observedAt, b.observedAt]),
      VerbName(verb), TrimSpace(ev.resource.kind), ev.resource.namespace, TrimSpace(ev.resource.name) ]
  }

  /** The idempotency key of a watch event. */
  function WatchEventKey(b: Batch, ev: AgentEvent, verb: Verb): string {
    Join(KeyFields(b, ev, verb), '|')
  }

  /** What an event asks of the store; `None` when it is skipped. */
  function Classify(b: Batch, ev: AgentEvent): Option<Write> {
    var kind, name := TrimSpace(ev.resource.kind), TrimSpace(ev.resource.name);
    if kind == "" || name == "" then None
    else match ParseVerb(ev.typ)
      case None => None
      case Some(verb) =>
        var item := ev.resource.(kind := kind, name := name,
                               observedAt := First([ev.resource.observedAt, b.observedAt]));
        Some(Write(WatchEventKey(b, ev, verb), verb,
                   InventoryId(TrimSpace(b.clusterID), kind, ev.resource.namespace, name), item))
  }

  function WritesOf(b: Batch, events: seq<AgentEvent>): seq<Write> {
    if events == [] then []
    else match Classify(b, events[0])
      case None => WritesOf(b, events[1..])
      case Some(w) => [w] + WritesOf(b, events[1..])
  }

  function Writes(b: Batch): seq<Write> {
    WritesOf(b, b.events)
  }

  function Effect(inv: Inventory, w: Write): Inventory {
    if w.verb == Deleted then inv - {w.id} else inv[w.id := w.item]
  }

  /** Fields without the separator: two events share a key only when all seven key fields agree. */
  lemma WatchEventKeyInjective(b: Batch, ev: AgentEvent, v: Verb, b': Batch, ev': AgentEvent, v': Verb)
    requires forall f :: f in KeyFields(b, ev, v) ==> '|' !in f
    requires forall f :: f in KeyFields(b', ev', v') ==> '|' !in f
    requires WatchEventKey(b, ev, v) == WatchEventKey(b', ev', v')
    ensures KeyFields(b, ev, v) == KeyFields(b', ev', v')
  {
    JoinInjective(KeyFields(b, ev, v), KeyFields(b', ev', v'), '|');
  }

  // ----- What an event means, read off its own fields -----

  /** The type of an event, case and blanks apart; none given means modified. */
  function TypeOf(ev: AgentEvent): string {
    var t := Upper(TrimSpace(ev.typ));
    if t == "" then "MODIFIED" else t
  }

  /** The letter case of a type and the blanks around it do not matter. */
  lemma TypeInAnyCase(ev: AgentEvent, lead: string, s: string, word: string, trail: string)
    requires ev.typ == lead + s + trail && AllSpace(lead) && AllSpace(trail) && Trimmed(s)
    requires word != "" && SpellsUpper(s, word)
    ensures TypeOf(ev) == word
  {
    UpperOf(lead, s, word, trail);
  }

  /** A known type, a kind and a name. */
  predicate Applies(ev: AgentEvent) {
    TypeOf(ev) in {"ADDED", "MODIFIED", "DELETED"} && !Blank(ev.resource.kind) && !Blank(ev.resource.name)
  }

  /** What tells one observation of a resource from another. */
  function VersionStamp(b: Batch, ev: AgentEvent): string {
    if !Blank(ev.resourceVersion) then ev.resourceVersion
    else if !Blank(b.resourceVersion) then b.resourceVersion
    else if !Blank(ev.resource.uid) then ev.resource.uid
    else if !Blank(ev.resource.observedAt) then ev.resource.observedAt
    else if !Blank(b.observedAt) then b.observedAt
    else ""
  }

  ghost predicate SameObservation(b: Batch, ev: AgentEvent, b': Batch, ev': AgentEvent) {
    && TrimSpace(b.clusterID) == TrimSpace(b'.clusterID) && b.agentID == b'.agentID
    && VersionStamp(b, ev) == VersionStamp(b', ev') && TypeOf(ev) == TypeOf(ev')
    && TrimSpace(ev.resource.kind) == TrimSpace(ev'.resource.kind)
    && ev.resource.namespace == ev'.resource.namespace
    && TrimSpace(ev.resource.name) == TrimSpace(ev'.resource.name)
  }

  ghost predicate SeparatorFree(b: Batch, ev: AgentEvent) {
    forall f :: f in [b.clusterID, b.agentID, ev.resourceVersion, b.resourceVersion, ev.resource.uid,
                      ev.resource.observedAt, b.observedAt, ev.resource.kind, ev.resource.namespace, ev.resource.name]
                ==> '|' !in f
  }

  /** The row an event is about. */
  function RowId(b: Batch, ev: AgentEvent): InventoryId {
    InventoryId(TrimSpace(b.clusterID), TrimSpace(ev.resource.kind), ev.resource.namespace, TrimSpace(ev.resource.name))
  }

  /** The resource as an event stores it: kind and name trimmed, and the time of the batch if it has none. */
  function StoredItem(b: Batch, ev: AgentEvent): Item {
    ev.resource.(kind := TrimSpace(ev.resource.kind), name := TrimSpace(ev.resource.name),
                 observedAt := if !Blank(ev.resource.observedAt) then ev.resource.observedAt
                               else if !Blank(b.observedAt) then b.observedAt else "")
  }

  /** The seven fields that identify an observation. */
  function SourceFields(b: Batch, ev: AgentEvent): seq<string> {
    [TrimSpace(b.clusterID), b.agentID, VersionStamp(b, ev), TypeOf(ev),
     TrimSpace(ev.resource.kind), ev.resource.namespace, TrimSpace(ev.resource.name)]
  }

  function SourceKey(b: Batch, ev: AgentEvent): string {
    Join(SourceFields(b, ev), '|')
  }

  lemma StampIsFirst(b: Batch, ev: AgentEvent)
    ensures var rv := First([ev.resourceVersion, b.resourceVersion]);
      First([rv, ev.resource.uid, ev.resource.observedAt, b.observedAt]) == VersionStamp(b, ev)
  {
    FirstOfTwo(ev.resourceVersion, b.resourceVersion);
    var rv := First([ev.resourceVersion, b.resourceVersion]);
    var all := [rv, ev.resource.uid, ev.resource.observedAt, b.observedAt];
    assert all[1..] == [ev.resource.uid, ev.resource.observedAt, b.observedAt];
    assert all[1..][1..] == [ev.resource.observedAt, b.observedAt];
    FirstOfTwo(ev.resource.observedAt, b.observedAt);
    TrimSpaceFixedPoints("");
  }

  /** Reading an event: it is skipped exactly when it does not apply; else its write names the trimmed row,
      carries the resource with trimmed kind and name and a time, and deletes or sets by its type. */
  lemma Reading(b: Batch, ev: AgentEvent)
    ensures Classify(b, ev).Some? <==> Applies(ev)
    ensures Applies(ev) ==>
      var w := Classify(b, ev).value;
      && w.id == RowId(b, ev) && (w.verb == Deleted <==> TypeOf(ev) == "DELETED")
      && VerbName(w.verb) == TypeOf(ev)
      && w.item == StoredItem(b, ev)
  {
    FirstOfTwo(ev.resource.observedAt, b.observedAt);
  }

  /** The key of a write, by the fields of its event. */
  lemma KeyOfWrite(b: Batch, ev: AgentEvent)
    requires Applies(ev)
    ensures Classify(b, ev).Some?
    ensures Classify(b, ev).value.key == SourceKey(b, ev)
  {
    Reading(b, ev);
    StampIsFirst(b, ev);
  }

  lemma TypeHasNoSeparator(ev: AgentEvent)
    requires Applies(ev)
    ensures '|' !in TypeOf(ev)
  {
  }

  lemma TrimmedHas(s: string, c: char)
    requires c !in s
    ensures c !in TrimSpace(s)
  {
    TrimChars(s, c);
  }

  lemma KeyFieldsFree(b: Batch, ev: AgentEvent)
    requires Applies(ev) && SeparatorFree(b, ev)
    ensures forall f :: f in SourceFields(b, ev) ==> '|' !in f
  {
    TypeHasNoSeparator(ev);
    TrimmedHas(b.clusterID, '|');
    TrimmedHas(ev.resource.kind, '|');
    TrimmedHas(ev.resource.name, '|');
  }

  /** Separator-free fields: two events give writes of one key exactly when all seven source fields agree. */
  lemma WriteKeyExact(b: Batch, ev: AgentEvent, b': Batch, ev': AgentEvent)
    requires Applies(ev) && Applies(ev') && SeparatorFree(b, ev) && SeparatorFree(b', ev')
    ensures Classify(b, ev).Some? && Classify(b', ev').Some?
    ensures Classify(b, ev).value.key == Classify(b', ev').value.key <==> SameObservation(b, ev, b', ev')
  {
    KeyOfWrite(b, ev);
    KeyOfWrite(b', ev');
    KeyFieldsFree(b, ev);
    KeyFieldsFree(b', ev');
    var fs, fs' := SourceFields(b, ev), SourceFields(b', ev');
    if Join(fs, '|') == Join(fs', '|') {
      JoinInjective(fs, fs', '|');
      assert forall i :: 0 <= i < 7 ==> fs[i] == fs'[i];
    }
  }

  // ----- Applying events under a limited number of successful database calls -----

  /** Counters of one call, split by kind as the offset table wants them. */
  datatype Counts = Counts(upserted: nat, deleted: nat, watchEvents: nat, duplicateEvents: nat,
                           seen: map<string, nat>, duplicates: map<string, nat>)

  const NO_COUNTS := Counts(0, 0, 0, 0, map[], map[])

  function CountOf(m: map<string, nat>, k: string): nat {
    if k in m then m[k] else 0
  }

  function Bump(m: map<string, nat>, k: string): map<string, nat> {
    m[k := CountOf(m, k) + 1]
  }

  function CountDuplicate(c: Counts, kind: string): Counts {
    c.(duplicateEvents := c.duplicateEvents + 1, duplicates := Bump(c.duplicates, kind))
  }

  function CountNew(c: Counts, kind: string): Counts {
    c.(watchEvents := c.watchEvents + 1, seen := Bump(c.seen, kind))
  }

  /** One event either leaves the loop running or stops it at a failed call; `torn` holds the key
      recorded as seen whose inventory write then failed. */
  datatype OneResult = Go(db: Db, counts: Counts, calls: nat) | Stop(db: Db, counts: Counts, torn: set<string>)

  /** Insert-or-skip, then the inventory row, then (for an upsert) the revision row, when exactly
      `calls` database calls succeed before the first failure. */
  function ApplyOne(db: Db, w: Write, counts: Counts, calls: nat): OneResult {
    if calls == 0 then Stop(db, counts, {})
    else if w.key in db.seen then Go(db, CountDuplicate(counts, w.id.kind), calls - 1)
    else
      var marked := db.seen + {w.key};
      var c := CountNew(counts, w.id.kind);
      if calls == 1 then Stop(Db(marked, db.inventory), c, {w.key})
      else
        var db' := Db(marked, Effect(db.inventory, w));
        if w.verb == Deleted then Go(db', c.(deleted := c.deleted + 1), calls - 2)
        else if calls == 2 then Stop(db', c.(upserted := c.upserted + 1), {})
        else Go(db', c.(upserted := c.upserted + 1), calls - 3)
  }

  datatype Applied = Applied(db: Db, counts: Counts, torn: set<string>, left: nat, ok: bool)

  /** The events in order. */
  function ApplyWrites(db: Db, ws: seq<Write>, counts: Counts, calls: nat): Applied
    decreases |ws|
  {
    if ws == [] then Applied(db, counts, {}, calls, true)
    else match ApplyOne(db, ws[0], counts, calls)
      case Stop(db', c', torn) => Applied(db', c', torn, 0, false)
      case Go(db', c', calls') => ApplyWrites(db', ws[1..], c', calls')
  }

  predicate RecordableK8sEvent(e: K8sEvent) {
    !(Blank(e.reason) && Blank(e.message))
  }

  /** An event as recorded: without times of its own it takes those of the batch. */
  function Dated(e: K8sEvent, observedAt: string): K8sEvent {
    var last := First([e.lastSeen, observedAt]);
    e.(lastSeen := last, firstSeen := First([e.firstSeen, last]))
  }

  function Recordable(es: seq<K8sEvent>, observedAt: string): seq<K8sEvent> {
    if es == [] then []
    else (if RecordableK8sEvent(es[0]) then [Dated(es[0], observedAt)] else []) + Recordable(es[1..], observedAt)
  }

  predicate HasContent(e: K8sEvent) {
    !Blank(e.reason) || !Blank(e.message)
  }

  /** How an event is recorded: as sent, and a time that is missing is the batch's, or the other one. */
  function RecordedAs(observedAt: string): (K8sEvent, K8sEvent) -> bool {
    (e: K8sEvent, r: K8sEvent) =>
      && r.reason == e.reason && r.message == e.message
      && r.lastSeen == (if !Blank(e.lastSeen) then e.lastSeen else if !Blank(observedAt) then observedAt else "")
      && r.firstSeen == if !Blank(e.firstSeen) then e.firstSeen else r.lastSeen
  }

  lemma DatedAs(e: K8sEvent, observedAt: string)
    ensures RecordedAs(observedAt)(e, Dated(e, observedAt))
  {
    FirstOfTwo(e.lastSeen, observedAt);
    FirstOfTwo(e.firstSeen, First([e.lastSeen, observedAt]));
    TrimSpaceFixedPoints("");
  }

  /** The events with a reason or a message are recorded, in order, each with its times. */
  lemma {:induction false} RecordedExact(es: seq<K8sEvent>, observedAt: string)
    ensures Sorting.Picks(HasContent, RecordedAs(observedAt), es, Recordable(es, observedAt))
    decreases |es|
  {
    if es != [] {
      var head, rest := es[0], es[1..];
      RecordedExact(rest, observedAt);
      DatedAs(head, observedAt);
      var own := if RecordableK8sEvent(head) then [Dated(head, observedAt)] else [];
      Sorting.PicksCons(HasContent, RecordedAs(observedAt), head, own, rest, Recordable(rest, observedAt));
      assert [head] + rest == es;
    }
  }

  lemma {:induction false} RecordedCount(es: seq<K8sEvent>, observedAt: string)
    ensures |Recordable(es, observedAt)| == Sorting.CountIf(HasContent, es)
    decreases |es|
  {
    if es != [] { RecordedCount(es[1..], observedAt); }
  }

  /** `n` of the recordable events are among the first `i`. */
  ghost predicate RecordedSoFar(es: seq<K8sEvent>, observedAt: string, i: nat, n: nat) {
    i <= |es| && n <= |Recordable(es, observedAt)| && Recordable(es[i..], observedAt) == Recordable(es, observedAt)[n..]
  }

  lemma RecordStep(es: seq<K8sEvent>, observedAt: string, i: nat, n: nat)
    requires i < |es| && RecordedSoFar(es, observedAt, i, n)
    ensures var all, dated := Recordable(es, observedAt), Dated(es[i], observedAt);
      if RecordableK8sEvent(es[i])
        then n < |all| && all[..n + 1] == all[..n] + [dated] && RecordedSoFar(es, observedAt, i + 1, n + 1)
      else RecordedSoFar(es, observedAt, i + 1, n)
  {
    var all := Recordable(es, observedAt);
    assert es[i..][0] == es[i] && es[i..][1..] == es[i + 1..];
    if RecordableK8sEvent(es[i]) {
      assert all[n..][0] == Dated(es[i], observedAt) && all[n..][1..] == all[n + 1..];
    }
  }

  lemma RecordedMore(before: seq<K8sEvent>, now: seq<K8sEvent>, all: seq<K8sEvent>, n: nat, e: K8sEvent)
    requires n < |all| && now == before + all[..n] && all[..n + 1] == all[..n] + [e]
    ensures now + [e] == before + all[..n + 1]
  {
  }

  lemma RecordedAll(es: seq<K8sEvent>, observedAt: string, n: nat)
    requires RecordedSoFar(es, observedAt, |es|, n)
    ensures n == |Recordable(es, observedAt)| && Recordable(es, observedAt)[..n] == Recordable(es, observedAt)
  {
  }

  /** Calls after the watch events: k8s events, findings (only when something was upserted), the
      heartbeat, the batch offset row and one offset row per touched kind. */
  function TailCalls(b: Batch, c: Counts, findings: nat): nat {
    |Recordable(b.k8sEvents, b.observedAt)| + (if c.upserted > 0 then findings else 0) + 2
    + |c.seen.Keys + c.duplicates.Keys|
  }

  /** Whether the whole batch is acknowledged. */
  predicate Accepted(db: Db, b: Batch, calls: nat, findings: nat) {
    ValidBatch(b) &&
    var a := ApplyWrites(db, Writes(b), NO_COUNTS, calls);
    a.ok && a.left >= TailCalls(b, a.counts, findings)
  }

  // ----- Counting -----

  /** The sum of a counter map. */
  ghost function Total(m: map<string, nat>): nat {
    if m == map[] then 0 else
      var k :| k in m;
      m[k] + Total(m - {k})
  }

  lemma {:induction false} TotalSplit(m: map<string, nat>, k: string)
    requires k in m
    ensures Total(m) == m[k] + Total(m - {k})
    decreases |m|
  {
    var j :| j in m && Total(m) == m[j] + Total(m - {j});
    if j != k {
      TotalSplit(m - {j}, k);
      assert k in m - {j} && j in m - {k};
      TotalSplit(m - {k}, j);
      assert (m - {j}) - {k} == (m - {k}) - {j};
    }
  }

  lemma TotalBump(m: map<string, nat>, k: string)
    ensures Total(Bump(m, k)) == Total(m) + 1
  {
    TotalSplit(Bump(m, k), k);
    if k in m {
      TotalSplit(m, k);
      assert Bump(m, k) - {k} == m - {k};
    } else {
      assert Bump(m, k) - {k} == m;
    }
  }

  /** The per-kind counters and the verb counters agree with the batch counters. */
  ghost predicate Balanced(c: Counts) {
    && c.watchEvents == c.upserted + c.deleted
    && Total(c.seen) == c.watchEvents
    && Total(c.duplicates) == c.duplicateEvents
  }

  /** `n` writes moved the counters from `c` to `c'` and the number of seen keys by as many new ones. */
  ghost predicate Accounted(seen: nat, c: Counts, seen': nat, c': Counts, n: nat) {
    && Balanced(c')
    && c'.watchEvents + c'.duplicateEvents == c.watchEvents + c.duplicateEvents + n
    && seen' == seen + c'.watchEvents - c.watchEvents
  }

  /** Accounting of one write: a duplicate, a deletion or an upsert. */
  lemma OneAccounts(db: Db, w: Write, c: Counts, calls: nat)
    requires Balanced(c)
    ensures var r := ApplyOne(db, w, c, calls);
            r.Go? ==> Accounted(|db.seen|, c, |r.db.seen|, r.counts, 1)
  {
    if calls > 0 && w.key in db.seen { TotalBump(c.duplicates, w.id.kind); }
    else if calls > 0 { TotalBump(c.seen, w.id.kind); }
  }

  /** Accounting of a run of events: each write is counted once, as an upsert, a deletion or a duplicate. */
  lemma {:induction false} ApplyWritesAccounts(db: Db, ws: seq<Write>, c: Counts, calls: nat)
    requires Balanced(c)
    requires ApplyWrites(db, ws, c, calls).ok
    ensures var a := ApplyWrites(db, ws, c, calls);
            Accounted(|db.seen|, c, |a.db.seen|, a.counts, |ws|) && a.torn == {}
    decreases |ws|
  {
    if ws != [] {
      OneAccounts(db, ws[0], c, calls);
      var r := ApplyOne(db, ws[0], c, calls);
      ApplyWritesAccounts(r.db, ws[1..], r.counts, r.calls);
    }
  }

  /** Three calls per event are always enough for the event loop. */
  lemma {:induction false} EnoughCalls(db: Db, ws: seq<Write>, c: Counts, calls: nat)
    requires calls >= 3 * |ws|
    ensures ApplyWrites(db, ws, c, calls).ok
    ensures ApplyWrites(db, ws, c, calls).left >= calls - 3 * |ws|
    decreases |ws|
  {
    if ws != [] {
      var r := ApplyOne(db, ws[0], c, calls);
      EnoughCalls(r.db, ws[1..], r.counts, r.calls);
    }
  }

  ghost function KindsIn(ws: seq<Write>): set<string> {
    if ws == [] then {} else {ws[0].id.kind} + KindsIn(ws[1..])
  }

  lemma {:induction false} KindsInBound(ws: seq<Write>)
    ensures |KindsIn(ws)| <= |ws|
    decreases |ws|
  {
    if ws != [] { KindsInBound(ws[1..]); }
  }

  lemma SubsetBound(a: set<string>, b: set<string>)
    requires a <= b
    ensures |a| <= |b|
  {
    assert b == a + (b - a);
  }

  /** Only the kinds of the writes get counters. */
  lemma {:induction false} TouchedKinds(db: Db, ws: seq<Write>, c: Counts, calls: nat, kinds: set<string>)
    requires c.seen.Keys <= kinds && c.duplicates.Keys <= kinds && KindsIn(ws) <= kinds
    ensures var c' := ApplyWrites(db, ws, c, calls).counts;
            c'.seen.Keys <= kinds && c'.duplicates.Keys <= kinds
    decreases |ws|
  {
    if ws != [] {
      var r := ApplyOne(db, ws[0], c, calls);
      assert r.counts.seen.Keys <= kinds && r.counts.duplicates.Keys <= kinds;
      if r.Go? { TouchedKinds(r.db, ws[1..], r.counts, r.calls, kinds); }
    }
  }

  lemma {:induction false} RecordableBound(es: seq<K8sEvent>, observedAt: string)
    ensures |Recordable(es, observedAt)| <= |es|
    decreases |es|
  {
    if es != [] { RecordableBound(es[1..], observedAt); }
  }

  /** A store that keeps answering accepts every valid batch. */
  lemma HealthyStoreAccepts(db: Db, b: Batch, calls: nat, findings: nat)
    requires ValidBatch(b)
    requires calls >= 4 * |Writes(b)| + |b.k8sEvents| + findings + 2
    ensures Accepted(db, b, calls, findings)
  {
    EnoughCalls(db, Writes(b), NO_COUNTS, calls);
    TouchedKinds(db, Writes(b), NO_COUNTS, calls, KindsIn(Writes(b)));
    KindsInBound(Writes(b));
    var c := ApplyWrites(db, Writes(b), NO_COUNTS, calls).counts;
    SubsetBound(c.seen.Keys + c.duplicates.Keys, KindsIn(Writes(b)));
    RecordableBound(b.k8sEvents, b.observedAt);
  }

  // ----- The offset rows -----

  datatype OffsetRow = OffsetRow(cluster: string, agent: string, kind: string, resourceVersion: string,
                                 seen: nat, duplicates: nat)

  function RvStep(b: Batch, ev: AgentEvent, m: map<string, string>): map<string, string> {
    match Classify(b, ev)
    case None => m
    case Some(w) =>
      var rv := First([ev.resourceVersion, b.resourceVersion]);
      if rv != "" then m[w.id.kind := rv] else m
  }

  /** The last non-empty resource version of each kind, skipped events excepted. */
  function RvByKind(b: Batch, events: seq<AgentEvent>, m: map<string, string>): map<string, string>
    decreases |events|
  {
    if events == [] then m else RvByKind(b, events[1..], RvStep(b, events[0], m))
  }

  /** The event at `i` says at which version its kind is: its own, or the batch's. */
  ghost predicate NamesVersion(b: Batch, events: seq<AgentEvent>, i: nat, kind: string) {
    && i < |events| && Applies(events[i]) && TrimSpace(events[i].resource.kind) == kind
    && !(Blank(events[i].resourceVersion) && Blank(b.resourceVersion))
  }

  function VersionSaid(b: Batch, ev: AgentEvent): string {
    if !Blank(ev.resourceVersion) then ev.resourceVersion else b.resourceVersion
  }

  lemma VersionStep(b: Batch, ev: AgentEvent, m: map<string, string>)
    ensures RvStep(b, ev, m) ==
      if Applies(ev) && !(Blank(ev.resourceVersion) && Blank(b.resourceVersion))
      then m[TrimSpace(ev.resource.kind) := VersionSaid(b, ev)] else m
  {
    Reading(b, ev);
    FirstOfTwo(ev.resourceVersion, b.resourceVersion);
    TrimSpaceFixedPoints("");
  }

  /** The kinds no event names a version of keep what they had. */
  lemma {:induction false} VersionKept(b: Batch, events: seq<AgentEvent>, m: map<string, string>, kind: string)
    requires forall i: nat :: !NamesVersion(b, events, i, kind)
    ensures var after := RvByKind(b, events, m);
      (kind in after <==> kind in m) && (kind in after ==> after[kind] == m[kind])
    decreases |events|
  {
    if events != [] {
      var ev, rest := events[0], events[1..];
      VersionStep(b, ev, m);
      assert !NamesVersion(b, events, 0, kind);
      forall i: nat ensures !NamesVersion(b, rest, i, kind) { assert !NamesVersion(b, events, i + 1, kind); }
      VersionKept(b, rest, RvStep(b, ev, m), kind);
    }
  }

  /** The last event of a kind that names a version gives the version of that kind. */
  lemma {:induction false} LastVersionWins(b: Batch, events: seq<AgentEvent>, m: map<string, string>, kind: string,
                                           i: nat)
    requires NamesVersion(b, events, i, kind) && forall j: nat :: i < j ==> !NamesVersion(b, events, j, kind)
    ensures var after := RvByKind(b, events, m);
      kind in after && after[kind] == VersionSaid(b, events[i])
    decreases |events|
  {
    var ev, rest := events[0], events[1..];
    VersionStep(b, ev, m);
    forall j: nat | i <= j ensures !NamesVersion(b, rest, j, kind) { assert !NamesVersion(b, events, j + 1, kind); }
    if i == 0 {
      VersionKept(b, rest, RvStep(b, ev, m), kind);
    } else {
      assert NamesVersion(b, rest, i - 1, kind);
      LastVersionWins(b, rest, RvStep(b, ev, m), kind, i - 1);
    }
  }

  /** The counters of one kind, as one offset row carries them. */
  datatype KindCount = KindCount(kind: string, seen: nat, duplicates: nat)

  function KindRow(c: Counts, kind: string): KindCount {
    KindCount(kind, CountOf(c.seen, kind), CountOf(c.duplicates, kind))
  }

  function OffsetRowOf(b: Batch, rvs: map<string, string>, k: KindCount): OffsetRow {
    OffsetRow(TrimSpace(b.clusterID), b.agentID, k.kind,
              First([if k.kind in rvs then rvs[k.kind] else "", b.resourceVersion]), k.seen, k.duplicates)
  }

  function OffsetRows(b: Batch, rvs: map<string, string>, ks: seq<KindCount>): seq<OffsetRow> {
    seq(|ks|, i requires 0 <= i < |ks| => OffsetRowOf(b, rvs, ks[i]))
  }

  /** One row for each of the given kinds, and only one. */
  ghost predicate KindRows(c: Counts, rows: seq<KindCount>, kinds: set<string>) {
    if rows == [] then kinds == {}
    else
      var last := rows[|rows| - 1];
      last.kind in kinds && last == KindRow(c, last.kind)
      && KindRows(c, rows[..|rows| - 1], kinds - {last.kind})
  }

  /** As many rows as kinds. */
  lemma {:induction false} KindRowsCount(c: Counts, rows: seq<KindCount>, kinds: set<string>)
    requires KindRows(c, rows, kinds)
    ensures |rows| == |kinds|
    decreases |rows|
  {
    if rows != [] {
      KindRowsCount(c, rows[..|rows| - 1], kinds - {rows[|rows| - 1].kind});
    }
  }

  lemma AddKind(c: Counts, rows: seq<KindCount>, kinds: set<string>, kind: string)
    requires KindRows(c, rows, kinds) && kind !in kinds
    ensures KindRows(c, rows + [KindRow(c, kind)], kinds + {kind})
  {
    assert (rows + [KindRow(c, kind)])[..|rows|] == rows;
    assert kinds + {kind} - {kind} == kinds;
  }

  ghost function SumSeen(rows: seq<KindCount>): nat {
    if rows == [] then 0 else rows[|rows| - 1].seen + SumSeen(rows[..|rows| - 1])
  }

  ghost function SumDuplicates(rows: seq<KindCount>): nat {
    if rows == [] then 0 else rows[|rows| - 1].duplicates + SumDuplicates(rows[..|rows| - 1])
  }

  lemma TotalRemove(m: map<string, nat>, k: string)
    ensures Total(m) == CountOf(m, k) + Total(m - {k})
  {
    if k in m { TotalSplit(m, k); } else { assert m - {k} == m; }
  }

  /** Rows of fewer kinds do not depend on the counters of the others. */
  lemma {:induction false} KindRowsWithout(c: Counts, rows: seq<KindCount>, kinds: set<string>, k: string)
    requires KindRows(c, rows, kinds) && k !in kinds
    ensures KindRows(c.(seen := c.seen - {k}, duplicates := c.duplicates - {k}), rows, kinds)
    decreases |rows|
  {
    if rows != [] {
      KindRowsWithout(c, rows[..|rows| - 1], kinds - {rows[|rows| - 1].kind}, k);
    }
  }

  /** The per-kind rows add up to the batch row, whatever order the maps were walked in. */
  lemma {:induction false} OffsetRowsAddUp(c: Counts, rows: seq<KindCount>, kinds: set<string>)
    requires KindRows(c, rows, kinds) && c.seen.Keys + c.duplicates.Keys <= kinds
    ensures SumSeen(rows) == Total(c.seen)
    ensures SumDuplicates(rows) == Total(c.duplicates)
    decreases |rows|
  {
    if rows == [] {
      assert c.seen == map[] && c.duplicates == map[];
    } else {
      var k := rows[|rows| - 1].kind;
      TotalRemove(c.seen, k);
      TotalRemove(c.duplicates, k);
      KindRowsWithout(c, rows[..|rows| - 1], kinds - {k}, k);
      OffsetRowsAddUp(c.(seen := c.seen - {k}, duplicates := c.duplicates - {k}), rows[..|rows| - 1], kinds - {k});
    }
  }

  /** The duplicate counters of the kinds not yet written. */
  ghost predicate Leftover(c: Counts, dups: map<string, nat>, written: set<string>) {
    dups == c.duplicates - written
  }

  /** What is left for the second loop: the kinds without a new event, each with its final row. */
  ghost predicate DuplicatesOnly(c: Counts, dups: map<string, nat>) {
    && c.seen.Keys !! dups.Keys
    && c.seen.Keys + dups.Keys == c.seen.Keys + c.duplicates.Keys
    && forall k :: k in dups ==> KindCount(k, 0, dups[k]) == KindRow(c, k)
  }

  lemma LeftoverIsDuplicatesOnly(c: Counts, dups: map<string, nat>)
    requires Leftover(c, dups, c.seen.Keys)
    ensures DuplicatesOnly(c, dups)
  {
  }

  /** Between iterations of the first loop. */
  ghost predicate SeenWritten(c: Counts, dups: map<string, nat>, rows: seq<KindCount>, todo: set<string>) {
    && todo <= c.seen.Keys
    && Leftover(c, dups, c.seen.Keys - todo)
    && KindRows(c, rows, c.seen.Keys - todo)
  }

  lemma WriteSeen(c: Counts, dups: map<string, nat>, rows: seq<KindCount>, todo: set<string>, kind: string)
    requires SeenWritten(c, dups, rows, todo) && kind in todo
    ensures SeenWritten(c, dups - {kind}, rows + [KindCount(kind, c.seen[kind], CountOf(dups, kind))], todo - {kind})
  {
    var written := c.seen.Keys - todo;
    AddKind(c, rows, written, kind);
    assert written + {kind} == c.seen.Keys - (todo - {kind});
    assert CountOf(dups, kind) == CountOf(c.duplicates, kind);
  }

  method SeenKindRows(c: Counts) returns (rows: seq<KindCount>, dups: map<string, nat>)
    ensures SeenWritten(c, dups, rows, {})
  {
    rows, dups := [], c.duplicates;
    var todo := c.seen.Keys;
    while todo != {}
      invariant SeenWritten(c, dups, rows, todo)
      decreases |todo|
    {
      var kind :| kind in todo;
      WriteSeen(c, dups, rows, todo, kind);
      rows := rows + [KindCount(kind, c.seen[kind], CountOf(dups, kind))];
      dups := dups - {kind};
      todo := todo - {kind};
    }
  }

  /** Between iterations of the second loop. */
  ghost predicate DuplicatesWritten(c: Counts, dups: map<string, nat>, rows: seq<KindCount>, todo: set<string>) {
    todo <= dups.Keys && KindRows(c, rows, c.seen.Keys + (dups.Keys - todo))
  }

  lemma WriteDuplicate(c: Counts, dups: map<string, nat>, rows: seq<KindCount>, todo: set<string>, kind: string)
    requires DuplicatesOnly(c, dups) && DuplicatesWritten(c, dups, rows, todo) && kind in todo
    ensures DuplicatesWritten(c, dups, rows + [KindCount(kind, 0, dups[kind])], todo - {kind})
  {
    var written := c.seen.Keys + (dups.Keys - todo);
    AddKind(c, rows, written, kind);
    assert written + {kind} == c.seen.Keys + (dups.Keys - (todo - {kind}));
  }

  method DuplicateKindRows(c: Counts, dups: map<string, nat>, before: seq<KindCount>) returns (rows: seq<KindCount>)
    requires KindRows(c, before, c.seen.Keys)
    requires DuplicatesOnly(c, dups)
    ensures DuplicatesWritten(c, dups, rows, {})
  {
    rows := before;
    var todo := dups.Keys;
    assert c.seen.Keys + (dups.Keys - todo) == c.seen.Keys;
    while todo != {}
      invariant DuplicatesWritten(c, dups, rows, todo)
      decreases |todo|
    {
      var kind :| kind in todo;
      WriteDuplicate(c, dups, rows, todo, kind);
      rows := rows + [KindCount(kind, 0, dups[kind])];
      todo := todo - {kind};
    }
  }

  /** The two offset loops: kinds with new events first, then kinds with duplicates only. */
  method KindOffsetRows(c: Counts) returns (rows: seq<KindCount>)
    ensures KindRows(c, rows, c.seen.Keys + c.duplicates.Keys)
    ensures |rows| == |c.seen.Keys + c.duplicates.Keys|
  {
    var dups;
    rows, dups := SeenKindRows(c);
    assert c.seen.Keys - {} == c.seen.Keys;
    LeftoverIsDuplicatesOnly(c, dups);
    rows := DuplicateKindRows(c, dups, rows);
    assert c.seen.Keys + (dups.Keys - {}) == c.seen.Keys + c.duplicates.Keys;
    KindRowsCount(c, rows, c.seen.Keys + c.duplicates.Keys);
  }

  datatype ApplyResult = ApplyResult(skipped: nat, duplicates: nat, watchEvents: nat, upserted: nat,
                                     deleted: nat, events: nat)

  /** What a successful call reports: every event is counted once, and the counters match the store. */
  ghost predicate Reported(before: Db, b: Batch, calls: nat, r: ApplyResult) {
    var a := ApplyWrites(before, Writes(b), NO_COUNTS, calls);
    && |b.events| == r.skipped + r.duplicates + r.watchEvents
    && r.skipped == |b.events| - |Writes(b)|
    && r.watchEvents == r.upserted + r.deleted
    && r.watchEvents == |a.db.seen| - |before.seen|
    && r.upserted == a.counts.upserted
    && r.watchEvents == Total(a.counts.seen) && r.duplicates == Total(a.counts.duplicates)
    && r.events == |Recordable(b.k8sEvents, b.observedAt)|
  }

  /** The result put together from the counters of an applied batch. */
  function ResultOf(b: Batch, skipped: nat, c: Counts): ApplyResult {
    ApplyResult(skipped, c.duplicateEvents, c.watchEvents, c.upserted, c.deleted,
                |Recordable(b.k8sEvents, b.observedAt)|)
  }

  lemma NothingBalanced()
    ensures Balanced(NO_COUNTS)
  {
  }

  lemma BatchAccounted(before: Db, b: Batch, calls: nat)
    requires ApplyWrites(before, Writes(b), NO_COUNTS, calls).ok
    ensures var a := ApplyWrites(before, Writes(b), NO_COUNTS, calls);
      Accounted(|before.seen|, NO_COUNTS, |a.db.seen|, a.counts, |Writes(b)|)
  {
    NothingBalanced();
    ApplyWritesAccounts(before, Writes(b), NO_COUNTS, calls);
  }

  lemma ReportedFrom(before: Db, b: Batch, calls: nat, skipped: nat)
    requires ApplyWrites(before, Writes(b), NO_COUNTS, calls).ok && skipped + |Writes(b)| == |b.events|
    ensures Reported(before, b, calls, ResultOf(b, skipped, ApplyWrites(before, Writes(b), NO_COUNTS, calls).counts))
  {
    BatchAccounted(before, b, calls);
  }

  lemma RowsSum(c: Counts, rows: seq<KindCount>)
    requires Balanced(c) && KindRows(c, rows, c.seen.Keys + c.duplicates.Keys)
    ensures SumSeen(rows) == c.watchEvents && SumDuplicates(rows) == c.duplicateEvents
  {
    OffsetRowsAddUp(c, rows, c.seen.Keys + c.duplicates.Keys);
  }

  function BatchRow(b: Batch, r: ApplyResult): OffsetRow {
    OffsetRow(TrimSpace(b.clusterID), b.agentID, BATCH_KIND, b.resourceVersion, r.watchEvents, r.duplicates)
  }

  // ----- The offset table: counters accumulate per cluster, agent and kind -----

  type OffsetKey = (string, string, string)

  datatype OffsetCell = OffsetCell(resourceVersion: string, seen: nat, duplicates: nat)

  type OffsetTable = map<OffsetKey, OffsetCell>

  const NO_CELL := OffsetCell("", 0, 0)

  function CellAt(t: OffsetTable, key: OffsetKey): OffsetCell {
    if key in t then t[key] else NO_CELL
  }

  function KeyOf(row: OffsetRow): OffsetKey {
    (row.cluster, row.agent, row.kind)
  }

  function PutOffset(t: OffsetTable, row: OffsetRow): OffsetTable {
    var old_ := CellAt(t, KeyOf(row));
    t[KeyOf(row) := OffsetCell(row.resourceVersion, old_.seen + row.seen, old_.duplicates + row.duplicates)]
  }

  lemma PutOffsetCell(t: OffsetTable, row: OffsetRow, key: OffsetKey)
    ensures var was, now := CellAt(t, key), CellAt(PutOffset(t, row), key);
      if key == KeyOf(row) then
        now.seen == was.seen + row.seen && now.duplicates == was.duplicates + row.duplicates
        && now.resourceVersion == row.resourceVersion
      else now == was
  {
  }

  function PutOffsets(t: OffsetTable, rows: seq<OffsetRow>): OffsetTable {
    if rows == [] then t else PutOffset(PutOffsets(t, rows[..|rows| - 1]), rows[|rows| - 1])
  }

  lemma PutOffsetsStep(t: OffsetTable, b: Batch, rvs: map<string, string>, ks: seq<KindCount>, i: nat)
    requires i < |ks|
    ensures PutOffsets(t, OffsetRows(b, rvs, ks[..i + 1]))
      == PutOffset(PutOffsets(t, OffsetRows(b, rvs, ks[..i])), OffsetRowOf(b, rvs, ks[i]))
  {
    var rows := OffsetRows(b, rvs, ks[..i + 1]);
    assert |rows| == i + 1 && rows[i] == OffsetRowOf(b, rvs, ks[i]);
    assert rows[..i] == OffsetRows(b, rvs, ks[..i]);
  }

  /** The version of a kind after a batch: the one its events named, else the batch's. */
  function KindVersion(b: Batch, rvs: map<string, string>, kind: string): string {
    if kind in rvs && !Blank(rvs[kind]) then rvs[kind]
    else if !Blank(b.resourceVersion) then b.resourceVersion
    else ""
  }

  lemma KindVersionIs(b: Batch, rvs: map<string, string>, kind: string)
    ensures First([if kind in rvs then rvs[kind] else "", b.resourceVersion]) == KindVersion(b, rvs, kind)
  {
    FirstOfTwo(if kind in rvs then rvs[kind] else "", b.resourceVersion);
    TrimSpaceFixedPoints("");
  }

  /** The key of a kind's cell for the agent of a batch. */
  function AgentKey(b: Batch, kind: string): OffsetKey {
    (TrimSpace(b.clusterID), b.agentID, kind)
  }

  lemma KindRowCell(t: OffsetTable, b: Batch, rvs: map<string, string>, k: KindCount, key: OffsetKey)
    ensures var was, now := CellAt(t, key), CellAt(PutOffset(t, OffsetRowOf(b, rvs, k)), key);
      if key == AgentKey(b, k.kind)
      then now == OffsetCell(KindVersion(b, rvs, k.kind), was.seen + k.seen, was.duplicates + k.duplicates)
      else now == was
  {
    KindVersionIs(b, rvs, k.kind);
    PutOffsetCell(t, OffsetRowOf(b, rvs, k), key);
  }

  /** Each kind's counters are added to that kind's cell, once; every other cell stays. */
  lemma {:induction false} KindCellGrowth(t: OffsetTable, b: Batch, rvs: map<string, string>, c: Counts,
                                          rows: seq<KindCount>, kinds: set<string>, key: OffsetKey)
    requires KindRows(c, rows, kinds)
    ensures var after := PutOffsets(t, OffsetRows(b, rvs, rows));
      if key.2 in kinds && key == AgentKey(b, key.2)
      then CellAt(after, key).seen == CellAt(t, key).seen + CountOf(c.seen, key.2)
           && CellAt(after, key).duplicates == CellAt(t, key).duplicates + CountOf(c.duplicates, key.2)
           && CellAt(after, key).resourceVersion == KindVersion(b, rvs, key.2)
      else CellAt(after, key) == CellAt(t, key)
    decreases |rows|
  {
    if rows != [] {
      var front, last := rows[..|rows| - 1], rows[|rows| - 1];
      KindCellGrowth(t, b, rvs, c, front, kinds - {last.kind}, key);
      assert rows[..|front| + 1] == rows;
      PutOffsetsStep(t, b, rvs, rows, |front|);
      KindRowCell(PutOffsets(t, OffsetRows(b, rvs, front)), b, rvs, last, key);
    }
  }

  /** The offset table after a whole batch. */
  function OffsetsAfter(t: OffsetTable, b: Batch, r: ApplyResult, rvs: map<string, string>,
                        rows: seq<KindCount>): OffsetTable {
    PutOffsets(PutOffset(t, BatchRow(b, r)), OffsetRows(b, rvs, rows))
  }

  ghost function OfKind(ws: seq<Write>, kind: string): nat {
    if ws == [] then 0 else (if ws[0].id.kind == kind then 1 else 0) + OfKind(ws[1..], kind)
  }

  function Tally(c: Counts, kind: string): nat {
    CountOf(c.seen, kind) + CountOf(c.duplicates, kind)
  }

  lemma OneTallied(db: Db, w: Write, c: Counts, calls: nat, kind: string)
    ensures var r := ApplyOne(db, w, c, calls);
      r.Go? ==> Tally(r.counts, kind) == Tally(c, kind) + if w.id.kind == kind then 1 else 0
  {
  }

  /** Every write of a kind is counted once under that kind, as new or as a duplicate. */
  lemma {:induction false} KindCounted(db: Db, ws: seq<Write>, c: Counts, calls: nat, kind: string)
    requires ApplyWrites(db, ws, c, calls).ok
    ensures Tally(ApplyWrites(db, ws, c, calls).counts, kind) == Tally(c, kind) + OfKind(ws, kind)
    decreases |ws|
  {
    if ws != [] {
      OneTallied(db, ws[0], c, calls, kind);
      var r := ApplyOne(db, ws[0], c, calls);
      KindCounted(r.db, ws[1..], r.counts, r.calls, kind);
    }
  }

  /** Some event, not skipped, is of the kind. */
  ghost predicate Mentions(b: Batch, events: seq<AgentEvent>, kind: string) {
    exists i :: 0 <= i < |events| && Classify(b, events[i]).Some? && TrimSpace(events[i].resource.kind) == kind
  }

  lemma {:induction false} MentionsCounted(b: Batch, events: seq<AgentEvent>, kind: string)
    ensures Mentions(b, events, kind) <==> OfKind(WritesOf(b, events), kind) > 0
    decreases |events|
  {
    if events != [] {
      var rest := events[1..];
      MentionsCounted(b, rest, kind);
      if Mentions(b, rest, kind) {
        var i :| 0 <= i < |rest| && Classify(b, rest[i]).Some? && TrimSpace(rest[i].resource.kind) == kind;
        assert events[i + 1] == rest[i];
      }
      if Mentions(b, events, kind) {
        var i :| 0 <= i < |events| && Classify(b, events[i]).Some? && TrimSpace(events[i].resource.kind) == kind;
        if i > 0 { assert rest[i - 1] == events[i]; }
      }
      if Classify(b, events[0]).Some? {
        var w := Classify(b, events[0]).value;
        assert ([w] + WritesOf(b, rest))[1..] == WritesOf(b, rest);
      }
    }
  }

  /** What the rows of a batch add to the cell of a kind; its totals go to the batch cell on top. */
  lemma CellGrowth(t: OffsetTable, b: Batch, r: ApplyResult, rvs: map<string, string>, c: Counts, rows: seq<KindCount>,
                   kind: string)
    requires KindRows(c, rows, c.seen.Keys + c.duplicates.Keys)
    ensures var was, now := CellAt(t, AgentKey(b, kind)), CellAt(OffsetsAfter(t, b, r, rvs, rows), AgentKey(b, kind));
      && now.seen == was.seen + CountOf(c.seen, kind) + (if kind == BATCH_KIND then r.watchEvents else 0)
      && now.duplicates == was.duplicates + CountOf(c.duplicates, kind) + if kind == BATCH_KIND then r.duplicates else 0
  {
    var t1 := PutOffset(t, BatchRow(b, r));
    PutOffsetCell(t, BatchRow(b, r), AgentKey(b, kind));
    KindCellGrowth(t1, b, rvs, c, rows, c.seen.Keys + c.duplicates.Keys, AgentKey(b, kind));
  }

  /** The offset of a kind ends at the version that the last of its events to name one named. */
  lemma StoredVersion(t: OffsetTable, b: Batch, r: ApplyResult, c: Counts, rows: seq<KindCount>, kind: string, i: nat)
    requires KindRows(c, rows, c.seen.Keys + c.duplicates.Keys) && kind in c.seen.Keys + c.duplicates.Keys
    requires NamesVersion(b, b.events, i, kind) && forall j: nat :: i < j ==> !NamesVersion(b, b.events, j, kind)
    ensures var after := OffsetsAfter(t, b, r, RvByKind(b, b.events, map[]), rows);
      CellAt(after, AgentKey(b, kind)).resourceVersion == VersionSaid(b, b.events[i])
  {
    LastVersionWins(b, b.events, map[], kind, i);
    var rvs := RvByKind(b, b.events, map[]);
    KindCellGrowth(PutOffset(t, BatchRow(b, r)), b, rvs, c, rows, c.seen.Keys + c.duplicates.Keys, AgentKey(b, kind));
  }

  /** The growth of one cell by an applied batch. */
  lemma AppliedCell(t: OffsetTable, db: Db, b: Batch, calls: nat, r: ApplyResult, rvs: map<string, string>,
                    rows: seq<KindCount>, kind: string)
    requires ApplyWrites(db, Writes(b), NO_COUNTS, calls).ok
    requires var c := ApplyWrites(db, Writes(b), NO_COUNTS, calls).counts;
      KindRows(c, rows, c.seen.Keys + c.duplicates.Keys)
    ensures var was, now := CellAt(t, AgentKey(b, kind)), CellAt(OffsetsAfter(t, b, r, rvs, rows), AgentKey(b, kind));
      var seen := if kind == BATCH_KIND then r.watchEvents else 0;
      var duplicates := if kind == BATCH_KIND then r.duplicates else 0;
      && now.seen + now.duplicates == was.seen + was.duplicates + seen + duplicates + OfKind(Writes(b), kind)
      && now.seen >= was.seen + seen && now.duplicates >= was.duplicates + duplicates
  {
    var c := ApplyWrites(db, Writes(b), NO_COUNTS, calls).counts;
    CellGrowth(t, b, r, rvs, c, rows, kind);
    KindCounted(db, Writes(b), NO_COUNTS, calls, kind);
    assert Tally(NO_COUNTS, kind) == 0;
  }

  /** An applied batch adds to the cell of each kind as many events as it has of that kind, and its totals to
      the batch cell; that cell grows by exactly the totals if and only if no event is of the reserved kind. */
  lemma BatchCellGrowth(t: OffsetTable, db: Db, b: Batch, calls: nat, r: ApplyResult, rvs: map<string, string>,
                        rows: seq<KindCount>)
    requires ApplyWrites(db, Writes(b), NO_COUNTS, calls).ok
    requires var c := ApplyWrites(db, Writes(b), NO_COUNTS, calls).counts;
      KindRows(c, rows, c.seen.Keys + c.duplicates.Keys)
    ensures forall kind :: kind != BATCH_KIND ==>
      var was, now := CellAt(t, AgentKey(b, kind)), CellAt(OffsetsAfter(t, b, r, rvs, rows), AgentKey(b, kind));
      now.seen + now.duplicates == was.seen + was.duplicates + OfKind(Writes(b), kind)
    ensures var key := AgentKey(b, BATCH_KIND);
      var was, now := CellAt(t, key), CellAt(OffsetsAfter(t, b, r, rvs, rows), key);
      now.seen == was.seen + r.watchEvents && now.duplicates == was.duplicates + r.duplicates
      <==> !Mentions(b, b.events, BATCH_KIND)
  {
    forall kind
      ensures kind != BATCH_KIND ==>
        var was, now := CellAt(t, AgentKey(b, kind)), CellAt(OffsetsAfter(t, b, r, rvs, rows), AgentKey(b, kind));
        now.seen + now.duplicates == was.seen + was.duplicates + OfKind(Writes(b), kind)
    {
      AppliedCell(t, db, b, calls, r, rvs, rows, kind);
    }
    AppliedCell(t, db, b, calls, r, rvs, rows, BATCH_KIND);
    MentionsCounted(b, b.events, BATCH_KIND);
  }

  // A batch whose one event is of the reserved kind.
  const RESERVED_EVENT := AgentEvent("ADDED", "1", Item(BATCH_KIND, "ns", "web", "u", "t", "spec"))

  const RESERVED_BATCH := Batch("c", "a", "1", "t", [RESERVED_EVENT], [])

  lemma ReservedRead() returns (w: Write)
    ensures ValidBatch(RESERVED_BATCH) && Writes(RESERVED_BATCH) == [w] && w.verb == Added && w.id.kind == BATCH_KIND
  {
    TrimSpaceFixedPoints("c");
    TrimSpaceFixedPoints("a");
    TrimSpaceFixedPoints(BATCH_KIND);
    TrimSpaceFixedPoints("web");
    TrimSpaceFixedPoints("ADDED");
    assert Trimmed("c") && Trimmed("a") && Trimmed(BATCH_KIND) && Trimmed("web") && Trimmed("ADDED");
    assert Upper("ADDED") == "ADDED";
    assert ParseVerb("ADDED") == Some(Added);
    var events := RESERVED_BATCH.events;
    w := Classify(RESERVED_BATCH, events[0]).value;
    assert events[1..] == [];
    assert WritesOf(RESERVED_BATCH, events) == [w] + WritesOf(RESERVED_BATCH, events[1..]);
  }

  lemma OneNewUpsert(w: Write, left: nat)
    requires w.verb != Deleted
    ensures ApplyWrites(Db({}, map[]), [w], NO_COUNTS, 3 + left)
         == Applied(Db({w.key}, map[w.id := w.item]), Counts(1, 0, 1, 0, map[w.id.kind := 1], map[]), {}, left, true)
  {
    var c := Counts(1, 0, 1, 0, map[w.id.kind := 1], map[]);
    assert ApplyOne(Db({}, map[]), w, NO_COUNTS, 3 + left) == Go(Db({w.key}, map[w.id := w.item]), c, left);
    assert [w][1..] == [];
  }

  lemma OneCount(kind: string)
    ensures Total(map[kind := 1]) == 1 && Total(map[]) == 0
    ensures var c := Counts(1, 0, 1, 0, map[kind := 1], map[]);
      KindRows(c, [KindCount(kind, 1, 0)], c.seen.Keys + c.duplicates.Keys)
  {
    var m: map<string, nat> := map[kind := 1];
    TotalSplit(m, kind);
    assert m - {kind} == map[];
    var c, rows := Counts(1, 0, 1, 0, m, map[]), [KindCount(kind, 1, 0)];
    assert rows[..0] == [] && c.seen.Keys + c.duplicates.Keys == {kind} && {kind} - {kind} == {};
  }

  /** One new event on an empty store. */
  lemma OneAccepted(b: Batch, w: Write)
    requires ValidBatch(b) && b.k8sEvents == [] && Writes(b) == [w] && w.verb != Deleted
    ensures Accepted(Db({}, map[]), b, 6, 0)
  {
    OneNewUpsert(w, 3);
    var c := Counts(1, 0, 1, 0, map[w.id.kind := 1], map[]);
    assert c.seen.Keys + c.duplicates.Keys == {w.id.kind};
    assert TailCalls(b, c, 0) == 3;
  }

  lemma OneReported(b: Batch, w: Write)
    requires |b.events| == 1 && b.k8sEvents == [] && Writes(b) == [w] && w.verb != Deleted
    ensures Reported(Db({}, map[]), b, 6, ApplyResult(0, 0, 1, 1, 0, 0))
  {
    OneNewUpsert(w, 3);
    OneCount(w.id.kind);
  }

  lemma OneReservedCell(b: Batch, rvs: map<string, string>)
    ensures var r, rows := ApplyResult(0, 0, 1, 1, 0, 0), [KindCount(BATCH_KIND, 1, 0)];
      CellAt(OffsetsAfter(map[], b, r, rvs, rows), AgentKey(b, BATCH_KIND)).seen == 2
  {
    OneCount(BATCH_KIND);
    var c, r := Counts(1, 0, 1, 0, map[BATCH_KIND := 1], map[]), ApplyResult(0, 0, 1, 1, 0, 0);
    CellGrowth(map[], b, r, rvs, c, [KindCount(BATCH_KIND, 1, 0)], BATCH_KIND);
  }

  /** A concrete call on an empty store: the batch is accepted with one new event, and its cell says two. */
  lemma ReservedKindCountsTwice(rvs: map<string, string>)
    ensures Accepted(Db({}, map[]), RESERVED_BATCH, 6, 0)
    ensures var r, rows := ApplyResult(0, 0, 1, 1, 0, 0), [KindCount(BATCH_KIND, 1, 0)];
      && Reported(Db({}, map[]), RESERVED_BATCH, 6, r)
      && CellAt(OffsetsAfter(map[], RESERVED_BATCH, r, rvs, rows), AgentKey(RESERVED_BATCH, BATCH_KIND)).seen == 2
  {
    var w := ReservedRead();
    OneAccepted(RESERVED_BATCH, w);
    OneReported(RESERVED_BATCH, w);
    OneReservedCell(RESERVED_BATCH, rvs);
  }

  // ----- What a batch does to the store, event by event -----

  /** What an event says: nothing, or that a row is gone or is now `item`. */
  datatype Deed = Skip | Do(key: string, id: InventoryId, gone: bool, item: Item)

  function DeedOf(b: Batch, ev: AgentEvent): Deed {
    if Applies(ev) then Do(SourceKey(b, ev), RowId(b, ev), TypeOf(ev) == "DELETED", StoredItem(b, ev)) else Skip
  }

  function Deeds(b: Batch, events: seq<AgentEvent>): seq<Deed> {
    seq(|events|, i requires 0 <= i < |events| => DeedOf(b, events[i]))
  }

  /** One deed on the store: skipped, seen before, or applied to its row. */
  ghost function OnDeed(db: Db, d: Deed): Db {
    if d.Skip? || d.key in db.seen then db
    else Db(db.seen + {d.key}, if d.gone then db.inventory - {d.id} else db.inventory[d.id := d.item])
  }

  ghost function OnDeeds(db: Db, ds: seq<Deed>): Db {
    if ds == [] then db else OnDeed(OnDeeds(db, ds[..|ds| - 1]), ds[|ds| - 1])
  }

  lemma {:induction false} OnDeedsCons(db: Db, d: Deed, ds: seq<Deed>)
    ensures OnDeeds(db, [d] + ds) == OnDeeds(OnDeed(db, d), ds)
    decreases |ds|
  {
    var all := [d] + ds;
    if ds == [] {
      assert all[..0] == [];
    } else {
      var n := |ds| - 1;
      assert all[..n + 1] == [d] + ds[..n] && all[n + 1] == ds[n];
      OnDeedsCons(db, d, ds[..n]);
    }
  }

  lemma OneDeed(db: Db, b: Batch, ev: AgentEvent, c: Counts, calls: nat)
    requires Applies(ev)
    ensures Classify(b, ev).Some?
    ensures var r := ApplyOne(db, Classify(b, ev).value, c, calls);
      r.Go? ==> r.db == OnDeed(db, DeedOf(b, ev))
  {
    Reading(b, ev);
    KeyOfWrite(b, ev);
  }

  lemma DeedsCons(b: Batch, events: seq<AgentEvent>)
    requires events != []
    ensures Deeds(b, events) == [DeedOf(b, events[0])] + Deeds(b, events[1..])
  {
  }

  /** What the loop leaves behind once it got through. */
  lemma {:induction false} WritesAreDeeds(db: Db, b: Batch, events: seq<AgentEvent>, c: Counts, calls: nat)
    requires ApplyWrites(db, WritesOf(b, events), c, calls).ok
    ensures ApplyWrites(db, WritesOf(b, events), c, calls).db == OnDeeds(db, Deeds(b, events))
    decreases |events|
  {
    if events != [] {
      var ev, rest := events[0], events[1..];
      DeedsCons(b, events);
      OnDeedsCons(db, DeedOf(b, ev), Deeds(b, rest));
      Reading(b, ev);
      if Applies(ev) {
        var w := Classify(b, ev).value;
        assert ([w] + WritesOf(b, rest))[1..] == WritesOf(b, rest);
        OneDeed(db, b, ev, c, calls);
        var r := ApplyOne(db, w, c, calls);
        WritesAreDeeds(r.db, b, rest, r.counts, r.calls);
      } else {
        WritesAreDeeds(db, b, rest, c, calls);
      }
    }
  }

  /** The deed at `i` has a key that is new to the store and to the list. */
  ghost predicate Fresh(seen: set<string>, ds: seq<Deed>, i: nat) {
    && i < |ds| && ds[i].Do? && ds[i].key !in seen
    && forall j :: 0 <= j < i && ds[j].Do? ==> ds[j].key != ds[i].key
  }

  ghost predicate Names(ds: seq<Deed>, key: string) {
    exists i :: 0 <= i < |ds| && ds[i].Do? && ds[i].key == key
  }

  lemma {:induction false} DeedKeys(db: Db, ds: seq<Deed>, key: string)
    ensures key in OnDeeds(db, ds).seen <==> key in db.seen || Names(ds, key)
    decreases |ds|
  {
    if ds != [] {
      var n := |ds| - 1;
      var front := ds[..n];
      DeedKeys(db, front, key);
      if Names(front, key) {
        var i :| 0 <= i < |front| && front[i].Do? && front[i].key == key;
        assert ds[i] == front[i];
      }
      if Names(ds, key) {
        var i :| 0 <= i < |ds| && ds[i].Do? && ds[i].key == key;
        assert i < n ==> front[i] == ds[i];
      }
    }
  }

  /** The last deed is applied exactly when it is fresh. */
  lemma FreshLast(db: Db, ds: seq<Deed>)
    requires ds != []
    ensures var n := |ds| - 1;
      Fresh(db.seen, ds, n) <==> ds[n].Do? && ds[n].key !in OnDeeds(db, ds[..n]).seen
  {
    var n := |ds| - 1;
    if ds[n].Do? {
      DeedKeys(db, ds[..n], ds[n].key);
      if Names(ds[..n], ds[n].key) {
        var j :| 0 <= j < n && ds[..n][j].Do? && ds[..n][j].key == ds[n].key;
        assert ds[j] == ds[..n][j];
      } else {
        forall j | 0 <= j < n && ds[j].Do? ensures ds[j].key != ds[n].key { assert ds[..n][j] == ds[j]; }
      }
    }
  }

  lemma FreshFront(seen: set<string>, ds: seq<Deed>, i: nat)
    requires i < |ds| - 1
    ensures Fresh(seen, ds[..|ds| - 1], i) <==> Fresh(seen, ds, i)
  {
  }

  /** A batch in one look: a row is what the last fresh deed about it says. */
  lemma {:induction false} LastFreshWins(db: Db, ds: seq<Deed>, i: nat)
    requires Fresh(db.seen, ds, i)
    requires forall j: nat :: i < j && Fresh(db.seen, ds, j) ==> ds[j].id != ds[i].id
    ensures var inv := OnDeeds(db, ds).inventory;
      if ds[i].gone then ds[i].id !in inv else ds[i].id in inv && inv[ds[i].id] == ds[i].item
    decreases |ds|
  {
    var n := |ds| - 1;
    FreshLast(db, ds);
    if i < n {
      FreshFront(db.seen, ds, i);
      forall j: nat | i < j && Fresh(db.seen, ds[..n], j) ensures ds[..n][j].id != ds[..n][i].id {
        FreshFront(db.seen, ds, j);
      }
      LastFreshWins(db, ds[..n], i);
    }
  }

  /** And a row no fresh deed is about stays as it was. */
  lemma {:induction false} OtherRowsKept(db: Db, ds: seq<Deed>, id: InventoryId)
    requires forall i: nat :: Fresh(db.seen, ds, i) ==> ds[i].id != id
    ensures var inv := OnDeeds(db, ds).inventory;
      (id in inv <==> id in db.inventory) && (id in inv ==> inv[id] == db.inventory[id])
    decreases |ds|
  {
    if ds != [] {
      var n := |ds| - 1;
      FreshLast(db, ds);
      forall i: nat | Fresh(db.seen, ds[..n], i) ensures ds[..n][i].id != id {
        FreshFront(db.seen, ds, i);
      }
      OtherRowsKept(db, ds[..n], id);
    }
  }

  /** The outcome of one event whose observation is new, spelt out. */
  ghost predicate Outcome(before: Db, after: Db, b: Batch, ev: AgentEvent) {
    var typ, kind, name := Upper(TrimSpace(ev.typ)), TrimSpace(ev.resource.kind), TrimSpace(ev.resource.name);
    var id := InventoryId(TrimSpace(b.clusterID), kind, ev.resource.namespace, name);
    var time := if !Blank(ev.resource.observedAt) then ev.resource.observedAt
                else if !Blank(b.observedAt) then b.observedAt
                else "";
    if kind == "" || name == "" then after == before
    else if typ == "DELETED" then after.inventory == before.inventory - {id}
    else if typ == "ADDED" || typ == "MODIFIED" || typ == "" then
      after.inventory
      == before.inventory[id := Item(kind, ev.resource.namespace, name, ev.resource.uid, time, ev.resource.spec)]
    else after == before
  }

  lemma OneEvent(before: Db, b: Batch, ev: AgentEvent)
    requires SourceKey(b, ev) !in before.seen
    ensures Outcome(before, OnDeeds(before, Deeds(b, [ev])), b, ev)
  {
    var ds := Deeds(b, [ev]);
    assert ds == [DeedOf(b, ev)] && ds[..0] == [];
    assert OnDeeds(before, ds) == OnDeed(before, DeedOf(b, ev));
  }

  /** A batch on the store: its deeds in order; spelt out when it is a single new event. */
  ghost predicate DoneTo(before: Db, after: Db, b: Batch) {
    && after == OnDeeds(before, Deeds(b, b.events))
    && (|b.events| == 1 && SourceKey(b, b.events[0]) !in before.seen ==> Outcome(before, after, b, b.events[0]))
  }

  lemma BatchDone(before: Db, b: Batch, calls: nat)
    requires ApplyWrites(before, Writes(b), NO_COUNTS, calls).ok
    ensures DoneTo(before, ApplyWrites(before, Writes(b), NO_COUNTS, calls).db, b)
  {
    WritesAreDeeds(before, b, b.events, NO_COUNTS, calls);
    if |b.events| == 1 && SourceKey(b, b.events[0]) !in before.seen {
      assert b.events == [b.events[0]];
      OneEvent(before, b, b.events[0]);
    }
  }

  // ----- What a batch costs -----

  /** The calls of the event loop: one for a repeated event, two for a deletion, three for an upsert. */
  ghost function LoopCost(c: Counts): nat {
    c.duplicateEvents + 2 * c.deleted + 3 * c.upserted
  }

  lemma {:induction false} LoopSpends(db: Db, ws: seq<Write>, c: Counts, calls: nat)
    requires ApplyWrites(db, ws, c, calls).ok
    ensures var a := ApplyWrites(db, ws, c, calls);
      calls - a.left == LoopCost(a.counts) - LoopCost(c)
    decreases |ws|
  {
    if ws != [] {
      var r := ApplyOne(db, ws[0], c, calls);
      assert calls - r.calls == LoopCost(r.counts) - LoopCost(c);
      LoopSpends(r.db, ws[1..], r.counts, r.calls);
    }
  }

  /** The calls after the loop: every recorded Kubernetes event, the findings of its resources if the batch set any
      row, the heartbeat, and the offset rows of the batch and of each kind. */
  ghost function TailCost(recorded: nat, upserted: nat, findings: nat, kinds: set<string>): nat {
    recorded + (if upserted > 0 then findings else 0) + 1 + 1 + |kinds|
  }

  lemma TailCostIs(b: Batch, c: Counts, findings: nat)
    ensures TailCalls(b, c, findings)
         == TailCost(Sorting.CountIf(HasContent, b.k8sEvents), c.upserted, findings, c.seen.Keys + c.duplicates.Keys)
  {
    RecordedCount(b.k8sEvents, b.observedAt);
  }

  lemma NothingCosts()
    ensures LoopCost(NO_COUNTS) == 0
  {
  }

  ghost predicate Pays(b: Batch, c: Counts, calls: nat, findings: nat) {
    calls >= LoopCost(c) + TailCost(Sorting.CountIf(HasContent, b.k8sEvents), c.upserted, findings,
                                    c.seen.Keys + c.duplicates.Keys)
  }

  lemma PaidFor(b: Batch, c: Counts, left: nat, calls: nat, findings: nat)
    requires calls - left == LoopCost(c) && left >= TailCalls(b, c, findings)
    ensures Pays(b, c, calls, findings)
  {
    TailCostIs(b, c, findings);
  }

  lemma LoopPaid(db: Db, ws: seq<Write>, c: Counts, calls: nat, a: Applied)
    requires a == ApplyWrites(db, ws, c, calls) && a.ok && LoopCost(c) == 0
    ensures calls - a.left == LoopCost(a.counts)
  {
    LoopSpends(db, ws, c, calls);
  }

  ghost predicate LoopThrough(db: Db, b: Batch, c: Counts, calls: nat, a: Applied) {
    a == ApplyWrites(db, Writes(b), c, calls) && a.ok
  }

  ghost predicate TailAfforded(b: Batch, a: Applied, findings: nat) {
    a.left >= TailCalls(b, a.counts, findings)
  }

  lemma PartsPay(db: Db, b: Batch, c: Counts, calls: nat, findings: nat, a: Applied)
    requires LoopCost(c) == 0 && LoopThrough(db, b, c, calls, a) && TailAfforded(b, a, findings)
    ensures Pays(b, a.counts, calls, findings)
  {
    LoopPaid(db, Writes(b), c, calls, a);
    PaidFor(b, a.counts, a.left, calls, findings);
  }

  lemma AcceptedParts(db: Db, b: Batch, c: Counts, calls: nat, findings: nat, a: Applied)
    requires c == NO_COUNTS && a == ApplyWrites(db, Writes(b), c, calls) && Accepted(db, b, calls, findings)
    ensures LoopCost(c) == 0 && LoopThrough(db, b, c, calls, a) && TailAfforded(b, a, findings)
  {
    NothingCosts();
  }

  /** An accepted batch has paid for its events and for all that follows them. */
  lemma AcceptedPays(db: Db, b: Batch, c: Counts, calls: nat, findings: nat, a: Applied)
    requires c == NO_COUNTS && a == ApplyWrites(db, Writes(b), c, calls) && Accepted(db, b, calls, findings)
    ensures Pays(b, a.counts, calls, findings)
  {
    AcceptedParts(db, b, c, calls, findings, a);
    PartsPay(db, b, c, calls, findings, a);
  }

  // ----- What a batch counts -----

  predicate Sets(d: Deed) {
    d.Do? && !d.gone
  }

  predicate Deletes(d: Deed) {
    d.Do? && d.gone
  }

  function About(kind: string): Deed -> bool {
    (d: Deed) => d.Do? && d.id.kind == kind
  }

  /** How many of the deeds come with a key that was seen before, in the store or earlier in the list, or how many
      come with a new one. */
  ghost function Tallied(seen: set<string>, ds: seq<Deed>, p: Deed -> bool, again: bool): nat
    decreases |ds|
  {
    if ds == [] then 0
    else if ds[0].Skip? then Tallied(seen, ds[1..], p, again)
    else (if (ds[0].key in seen) == again && p(ds[0]) then 1 else 0)
         + Tallied(seen + {ds[0].key}, ds[1..], p, again)
  }

  /** The counters moved from `c` to `c'` by the deeds, those of one kind and the totals. */
  ghost predicate CountedOn(c: Counts, c': Counts, seen: set<string>, ds: seq<Deed>, kind: string) {
    && c'.upserted == c.upserted + Tallied(seen, ds, Sets, false)
    && c'.deleted == c.deleted + Tallied(seen, ds, Deletes, false)
    && CountOf(c'.seen, kind) == CountOf(c.seen, kind) + Tallied(seen, ds, About(kind), false)
    && CountOf(c'.duplicates, kind) == CountOf(c.duplicates, kind) + Tallied(seen, ds, About(kind), true)
  }

  lemma SeenAgain(seen: set<string>, d: Deed, rest: seq<Deed>, p: Deed -> bool, again: bool)
    ensures Tallied(seen, [d] + rest, p, again)
         == (if d.Do? && (d.key in seen) == again && p(d) then 1 else 0)
            + Tallied(if d.Do? then seen + {d.key} else seen, rest, p, again)
  {
    assert ([d] + rest)[1..] == rest;
  }

  lemma TalliedOne(seen: set<string>, d: Deed, p: Deed -> bool, again: bool)
    ensures Tallied(seen, [d], p, again) == if d.Do? && (d.key in seen) == again && p(d) then 1 else 0
  {
    assert [d] + [] == [d];
    SeenAgain(seen, d, [], p, again);
  }

  lemma CountedStep(c: Counts, c1: Counts, c2: Counts, seen: set<string>, d: Deed, rest: seq<Deed>, kind: string)
    requires d.Do? && CountedOn(c, c1, seen, [d], kind) && CountedOn(c1, c2, seen + {d.key}, rest, kind)
    ensures CountedOn(c, c2, seen, [d] + rest, kind)
  {
    SeenAgain(seen, d, rest, Sets, false);
    SeenAgain(seen, d, rest, Deletes, false);
    SeenAgain(seen, d, rest, About(kind), false);
    SeenAgain(seen, d, rest, About(kind), true);
    TalliedOne(seen, d, Sets, false);
    TalliedOne(seen, d, Deletes, false);
    TalliedOne(seen, d, About(kind), false);
    TalliedOne(seen, d, About(kind), true);
  }

  lemma CountedSkip(c: Counts, c': Counts, seen: set<string>, rest: seq<Deed>, kind: string)
    requires CountedOn(c, c', seen, rest, kind)
    ensures CountedOn(c, c', seen, [Skip] + rest, kind)
  {
    SeenAgain(seen, Skip, rest, Sets, false);
    SeenAgain(seen, Skip, rest, Deletes, false);
    SeenAgain(seen, Skip, rest, About(kind), false);
    SeenAgain(seen, Skip, rest, About(kind), true);
  }

  /** The counters after one write that went through. */
  lemma OneWriteCounts(db: Db, w: Write, c: Counts, calls: nat, kind: string)
    ensures var r, again := ApplyOne(db, w, c, calls), w.key in db.seen;
      r.Go? ==>
        && r.counts.upserted == c.upserted + (if !again && w.verb != Deleted then 1 else 0)
        && r.counts.deleted == c.deleted + (if !again && w.verb == Deleted then 1 else 0)
        && CountOf(r.counts.seen, kind) == CountOf(c.seen, kind) + (if !again && w.id.kind == kind then 1 else 0)
        && CountOf(r.counts.duplicates, kind)
           == CountOf(c.duplicates, kind) + if again && w.id.kind == kind then 1 else 0
  {
  }

  lemma OneCounted(db: Db, b: Batch, ev: AgentEvent, c: Counts, calls: nat, kind: string)
    requires Applies(ev)
    ensures Classify(b, ev).Some?
    ensures var r := ApplyOne(db, Classify(b, ev).value, c, calls);
      r.Go? ==> CountedOn(c, r.counts, db.seen, [DeedOf(b, ev)], kind)
  {
    Reading(b, ev);
    KeyOfWrite(b, ev);
    OneWriteCounts(db, Classify(b, ev).value, c, calls, kind);
    var d := DeedOf(b, ev);
    TalliedOne(db.seen, d, Sets, false);
    TalliedOne(db.seen, d, Deletes, false);
    TalliedOne(db.seen, d, About(kind), false);
    TalliedOne(db.seen, d, About(kind), true);
  }

  /** The counters of a whole list: its new deeds by what they do and by kind, and the repeated ones by kind. */
  lemma {:induction false} CountsAreDeeds(db: Db, b: Batch, events: seq<AgentEvent>, c: Counts, calls: nat,
                                          kind: string)
    requires ApplyWrites(db, WritesOf(b, events), c, calls).ok
    ensures CountedOn(c, ApplyWrites(db, WritesOf(b, events), c, calls).counts, db.seen, Deeds(b, events), kind)
    decreases |events|
  {
    if events != [] {
      var ev, rest := events[0], events[1..];
      DeedsCons(b, events);
      Reading(b, ev);
      if Applies(ev) {
        var w := Classify(b, ev).value;
        assert ([w] + WritesOf(b, rest))[1..] == WritesOf(b, rest);
        OneDeed(db, b, ev, c, calls);
        OneCounted(db, b, ev, c, calls, kind);
        var r := ApplyOne(db, w, c, calls);
        CountsAreDeeds(r.db, b, rest, r.counts, r.calls, kind);
        assert r.db.seen == db.seen + {DeedOf(b, ev).key};
        CountedStep(c, r.counts, ApplyWrites(r.db, WritesOf(b, rest), r.counts, r.calls).counts, db.seen,
                    DeedOf(b, ev), Deeds(b, rest), kind);
      } else {
        CountsAreDeeds(db, b, rest, c, calls, kind);
        CountedSkip(c, ApplyWrites(db, WritesOf(b, rest), c, calls).counts, db.seen, Deeds(b, rest), kind);
      }
    }
  }

  /** What a call reports, and what it adds to the offset row of each kind. */
  ghost predicate Counted(seen: set<string>, b: Batch, r: ApplyResult, rows: seq<KindCount>) {
    var ds := Deeds(b, b.events);
    && r.upserted == Tallied(seen, ds, Sets, false) && r.deleted == Tallied(seen, ds, Deletes, false)
    && forall row :: row in rows ==>
         && row.seen == Tallied(seen, ds, About(row.kind), false)
         && row.duplicates == Tallied(seen, ds, About(row.kind), true)
  }

  lemma {:induction false} RowsAreKinds(c: Counts, rows: seq<KindCount>, kinds: set<string>)
    requires KindRows(c, rows, kinds)
    ensures forall row :: row in rows ==> row == KindRow(c, row.kind)
    decreases |rows|
  {
    if rows != [] {
      var n := |rows| - 1;
      RowsAreKinds(c, rows[..n], kinds - {rows[n].kind});
      assert rows == rows[..n] + [rows[n]];
    }
  }

  lemma BatchCounted(before: Db, b: Batch, calls: nat, r: ApplyResult, rows: seq<KindCount>)
    requires ApplyWrites(before, Writes(b), NO_COUNTS, calls).ok
    requires var c := ApplyWrites(before, Writes(b), NO_COUNTS, calls).counts;
      KindRows(c, rows, c.seen.Keys + c.duplicates.Keys) && r.upserted == c.upserted && r.deleted == c.deleted
    ensures Counted(before.seen, b, r, rows)
  {
    var c := ApplyWrites(before, Writes(b), NO_COUNTS, calls).counts;
    CountsAreDeeds(before, b, b.events, NO_COUNTS, calls, "");
    RowsAreKinds(c, rows, c.seen.Keys + c.duplicates.Keys);
    forall row | row in rows
      ensures row.seen == Tallied(before.seen, Deeds(b, b.events), About(row.kind), false)
      ensures row.duplicates == Tallied(before.seen, Deeds(b, b.events), About(row.kind), true)
    {
      CountsAreDeeds(before, b, b.events, NO_COUNTS, calls, row.kind);
    }
  }

  // ----- The store and the batch loop -----

  /** The tables a batch touches. `calls` is how many further calls succeed before one fails. */
  class Database {
    var seen: set<string>
    var inventory: Inventory
    var k8sEvents: seq<K8sEvent>
    var heartbeats: seq<Batch>
    var offsets: OffsetTable
    var calls: nat

    ghost function View(): Db
      reads this
    {
      Db(seen, inventory)
    }

    constructor ()
      ensures View() == Db({}, map[]) && k8sEvents == [] && heartbeats == [] && offsets == map[] && calls == 0
    {
      seen, inventory, k8sEvents, heartbeats, offsets, calls := {}, map[], [], [], map[], 0;
    }

    method Spend() returns (ok: bool)
      modifies this`calls
      ensures ok == (old(calls) > 0)
      ensures calls == if ok then old(calls) - 1 else old(calls)
    {
      ok := calls > 0;
      if ok { calls := calls - 1; }
    }

    /** Insert-or-skip on the idempotency key. */
    method InsertWatchEvent(key: string) returns (inserted: bool, ok: bool)
      modifies this`seen, this`calls
      ensures ok == (old(calls) > 0) && calls == if ok then old(calls) - 1 else old(calls)
      ensures inserted == (ok && key !in old(seen))
      ensures seen == if inserted then old(seen) + {key} else old(seen)
    {
      ok := Spend();
      inserted := ok && key !in seen;
      if inserted { seen := seen + {key}; }
    }

    method DeleteInventoryItem(id: InventoryId) returns (ok: bool)
      modifies this`inventory, this`calls
      ensures ok == (old(calls) > 0) && calls == if ok then old(calls) - 1 else old(calls)
      ensures inventory == if ok then old(inventory) - {id} else old(inventory)
    {
      ok := Spend();
      if ok { inventory := inventory - {id}; }
    }

    method UpsertInventory(id: InventoryId, item: Item) returns (ok: bool)
      modifies this`inventory, this`calls
      ensures ok == (old(calls) > 0) && calls == if ok then old(calls) - 1 else old(calls)
      ensures inventory == if ok then old(inventory)[id := item] else old(inventory)
    {
      ok := Spend();
      if ok { inventory := inventory[id := item]; }
    }

    /** One event of the loop. */
    method ApplyWrite(w: Write, counts: Counts) returns (counts': Counts, ok: bool)
      modifies this`seen, this`inventory, this`calls
      ensures ApplyOne(old(View()), w, counts, old(calls)) ==
              if ok then Go(View(), counts', calls)
              else Stop(View(), counts',
                        if View().seen != old(seen) && inventory == old(inventory) && old(calls) == 1
                        then {w.key} else {})
    {
      counts' := counts;
      var inserted;
      inserted, ok := InsertWatchEvent(w.key);
      if !ok { return; }
      if !inserted {
        counts' := CountDuplicate(counts, w.id.kind);
        return;
      }
      counts' := CountNew(counts, w.id.kind);
      if w.verb == Deleted {
        ok := DeleteInventoryItem(w.id);
        if !ok { return; }
        counts' := counts'.(deleted := counts.deleted + 1);
      } else {
        ok := UpsertInventory(w.id, w.item);
        if !ok { return; }
        counts' := counts'.(upserted := counts.upserted + 1);
        ok := Spend();
      }
    }

    /** The event loop: duplicates are skipped, the other events change the inventory. */
    method ApplyEvents(b: Batch) returns (counts: Counts, rvByKind: map<string, string>, skipped: nat, ok: bool)
      modifies this`seen, this`inventory, this`calls
      ensures var a := ApplyWrites(old(View()), Writes(b), NO_COUNTS, old(calls));
        && View() == a.db && ok == a.ok
        && (ok ==> counts == a.counts && calls == a.left)
      ensures ok ==> rvByKind == RvByKind(b, b.events, map[]) && skipped == |b.events| - |Writes(b)|
    {
      counts, rvByKind, skipped, ok := NO_COUNTS, map[], 0, true;
      var i := 0;
      while i < |b.events|
        invariant 0 <= i <= |b.events| && ok
        invariant ApplyWrites(old(View()), Writes(b), NO_COUNTS, old(calls))
          == ApplyWrites(View(), WritesOf(b, b.events[i..]), counts, calls)
        invariant RvByKind(b, b.events, map[]) == RvByKind(b, b.events[i..], rvByKind)
        invariant skipped + |Writes(b)| == i + |WritesOf(b, b.events[i..])|
      {
        var ev := b.events[i];
        assert b.events[i..][0] == ev && b.events[i..][1..] == b.events[i + 1..];
        i := i + 1;
        var c := Classify(b, ev);
        if c.None? {
          skipped := skipped + 1;
          continue;
        }
        var w := c.value;
        var rv := First([ev.resourceVersion, b.resourceVersion]);
        if rv != "" { rvByKind := rvByKind[w.id.kind := rv]; }
        assert WritesOf(b, b.events[i - 1..]) == [w] + WritesOf(b, b.events[i..]);
        counts, ok := ApplyWrite(w, counts);
        if !ok { return; }
      }
      assert b.events[i..] == [];
    }

    method RecordFindings(findings: nat) returns (ok: bool)
      modifies this`calls
      ensures ok == (old(calls) >= findings)
      ensures ok ==> calls == old(calls) - findings
    {
      ok := true;
      var left := findings;
      while left > 0
        invariant ok && 0 <= left <= findings && calls + findings == old(calls) + left
      {
        ok := Spend();
        if !ok { return; }
        left := left - 1;
      }
    }

    method InsertK8sEvent(e: K8sEvent) returns (ok: bool)
      modifies this`k8sEvents, this`calls
      ensures ok == (old(calls) > 0) && calls == if ok then old(calls) - 1 else old(calls)
      ensures k8sEvents == if ok then old(k8sEvents) + [e] else old(k8sEvents)
    {
      ok := Spend();
      if ok { k8sEvents := k8sEvents + [e]; }
    }

    method RecordK8sEvents(b: Batch, r: ApplyResult) returns (ok: bool, result: ApplyResult)
      requires r.events == 0
      modifies this`k8sEvents, this`calls
      ensures ok == (old(calls) >= |Recordable(b.k8sEvents, b.observedAt)|)
      ensures ok ==> calls == old(calls) - |Recordable(b.k8sEvents, b.observedAt)|
      ensures var recorded := if ok then Recordable(b.k8sEvents, b.observedAt)
        else Recordable(b.k8sEvents, b.observedAt)[..old(calls)];
        k8sEvents == old(k8sEvents) + recorded && result == r.(events := |recorded|)
    {
      var i := 0;
      result, ok := r, true;
      ghost var all, n := Recordable(b.k8sEvents, b.observedAt), 0;
      assert b.k8sEvents[0..] == b.k8sEvents;
      while i < |b.k8sEvents|
        invariant 0 <= i <= |b.k8sEvents| && ok && RecordedSoFar(b.k8sEvents, b.observedAt, i, n)
        invariant calls + n == old(calls) && k8sEvents == old(k8sEvents) + all[..n] && result == r.(events := n)
      {
        var e := b.k8sEvents[i];
        RecordStep(b.k8sEvents, b.observedAt, i, n);
        if RecordableK8sEvent(e) {
          RecordedMore(old(k8sEvents), k8sEvents, all, n, Dated(e, b.observedAt));
          ok := InsertK8sEvent(Dated(e, b.observedAt));
          if !ok { return; }
          result := result.(events := result.events + 1);
          n := n + 1;
        }
        i := i + 1;
      }
      RecordedAll(b.k8sEvents, b.observedAt, n);
    }

    /** Writes the rows one call at a time; the rows before a failure stay. */
    method UpsertOffsets(b: Batch, rvByKind: map<string, string>, kinds: seq<KindCount>) returns (ok: bool)
      modifies this`offsets, this`calls
      ensures ok == (old(calls) >= |kinds|)
      ensures offsets == PutOffsets(old(offsets), OffsetRows(b, rvByKind, if ok then kinds else kinds[..old(calls)]))
    {
      ok := true;
      var i := 0;
      while i < |kinds|
        invariant ok && 0 <= i <= |kinds| && calls + i == old(calls)
        invariant offsets == PutOffsets(old(offsets), OffsetRows(b, rvByKind, kinds[..i]))
      {
        ok := Spend();
        if !ok { return; }
        PutOffsetsStep(old(offsets), b, rvByKind, kinds, i);
        offsets := PutOffset(offsets, OffsetRowOf(b, rvByKind, kinds[i]));
        i := i + 1;
      }
      assert kinds[..i] == kinds;
    }

    /** Everything after the event loop. */
    method WriteTail(b: Batch, c: Counts, rvByKind: map<string, string>, findings: nat, r: ApplyResult)
      returns (ok: bool, result: ApplyResult, kinds: seq<KindCount>)
      requires r.events == 0
      modifies this`k8sEvents, this`heartbeats, this`offsets, this`calls
      ensures ok == (old(calls) >= TailCalls(b, c, findings))
      ensures ok ==> result == r.(events := |Recordable(b.k8sEvents, b.observedAt)|)
      ensures ok ==>
        k8sEvents == old(k8sEvents) + Recordable(b.k8sEvents, b.observedAt) && heartbeats == old(heartbeats) + [b]
      ensures ok ==> KindRows(c, kinds, c.seen.Keys + c.duplicates.Keys)
      ensures ok ==> offsets == OffsetsAfter(old(offsets), b, r, rvByKind, kinds)
    {
      kinds := [];
      ok, result := RecordK8sEvents(b, r);
      if !ok { return; }
      ok := RecordFindings(if c.upserted > 0 then findings else 0);
      if !ok { return; }
      ok := Spend();
      if !ok { return; }
      heartbeats := heartbeats + [b];
      ok := Spend();
      if !ok { return; }
      offsets := PutOffset(offsets, BatchRow(b, result));
      kinds := KindOffsetRows(c);
      ok := UpsertOffsets(b, rvByKind, kinds);
    }

    /** Applies one batch; `findings` is how many security findings its resources give. */
    method ApplyAgentBatch(b: Batch, findings: nat) returns (result: ApplyResult, ghost kinds: seq<KindCount>, ok: bool)
      modifies this
      ensures View() == if ValidBatch(b) then ApplyWrites(old(View()), Writes(b), NO_COUNTS, old(calls)).db
        else old(View())
      ensures ok == Accepted(old(View()), b, old(calls), findings)
      ensures Blank(b.clusterID) || Blank(b.agentID) ==> !ok && View() == old(View())
      ensures ok ==> Reported(old(View()), b, old(calls), result)
      ensures ok ==> k8sEvents == old(k8sEvents) + Recordable(b.k8sEvents, b.observedAt)
      ensures ok ==> heartbeats == old(heartbeats) + [b]
      ensures ok ==>
        var c := ApplyWrites(old(View()), Writes(b), NO_COUNTS, old(calls)).counts;
        && KindRows(c, kinds, c.seen.Keys + c.duplicates.Keys)
        && offsets == OffsetsAfter(old(offsets), b, result, RvByKind(b, b.events, map[]), kinds)
      ensures ok ==> SumSeen(kinds) == result.watchEvents && SumDuplicates(kinds) == result.duplicates
      ensures ok ==> DoneTo(old(View()), View(), b) && Counted(old(seen), b, result, kinds)
    {
      if !ValidBatch(b) { return ApplyResult(0, 0, 0, 0, 0, 0), [], false; }
      var counts, rvByKind, skipped;
      counts, rvByKind, skipped, ok := ApplyEvents(b);
      result := ApplyResult(skipped, counts.duplicateEvents, counts.watchEvents, counts.upserted, counts.deleted, 0);
      kinds := [];
      if !ok { return; }
      ok, result, kinds := WriteTail(b, counts, rvByKind, findings, result);
      if ok {
        ReportedFrom(old(View()), b, old(calls), skipped);
        BatchAccounted(old(View()), b, old(calls));
        RowsSum(counts, kinds);
        BatchDone(old(View()), b, old(calls));
        BatchCounted(old(View()), b, old(calls), result, kinds);
      }
    }
  }
}
