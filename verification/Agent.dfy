/** The in-cluster agent: watch goroutines feed a bounded channel, and one flush loop batches its events
    and delivers them through the offline queue. */
module Agent {
  import opened Text
  import opened Collector
  import Delivery
  import Sorting

  /** A watch event as enqueued, with the object already converted to its inventory or event shape. */
  datatype QueuedEvent = QueuedEvent(k8sTarget: bool, watchType: string, resourceVersion: string,
                                     objectVersion: string, item: Item, k8s: K8sEvent)

  // ----- Building a batch -----

  function VersionOf(ev: QueuedEvent): string {
    FirstNonEmpty([ev.resourceVersion, ev.objectVersion])
  }

  /** The K8s events of a flush: deletions and events without reason and message are left out. */
  predicate KeepsK8s(ev: QueuedEvent) {
    ev.k8sTarget && ev.watchType != "DELETED" && RecordableK8sEvent(ev.k8s)
  }

  predicate KeepsItem(ev: QueuedEvent) {
    !ev.k8sTarget && ev.item.name != ""
  }

  /** An event without times of its own takes those of the batch. */
  function Stamped(e: K8sEvent, now: string): K8sEvent {
    var last := FirstNonEmpty([e.lastSeen, now]);
    e.(lastSeen := last, firstSeen := FirstNonEmpty([e.firstSeen, last]))
  }

  function K8sPart(evs: seq<QueuedEvent>, now: string): seq<K8sEvent> {
    if evs == [] then []
    else K8sPart(evs[..|evs| - 1], now) + if KeepsK8s(evs[|evs| - 1]) then [Stamped(evs[|evs| - 1].k8s, now)] else []
  }

  function ItemPart(evs: seq<QueuedEvent>, now: string): seq<AgentEvent> {
    if evs == [] then []
    else
      var ev := evs[|evs| - 1];
      ItemPart(evs[..|evs| - 1], now) +
      if KeepsItem(ev) then [AgentEvent(ev.watchType, VersionOf(ev), ev.item.(observedAt := now))] else []
  }

  /** The version a batch reports: the last one its events carry, else the last one seen before. */
  function LastVersion(evs: seq<QueuedEvent>, before: string): string {
    if evs == [] then before
    else if VersionOf(evs[|evs| - 1]) != "" then VersionOf(evs[|evs| - 1])
    else LastVersion(evs[..|evs| - 1], before)
  }

  function BatchOf(cluster: string, agent: string, evs: seq<QueuedEvent>, before: string, now: string): Batch {
    Batch(cluster, agent, LastVersion(evs, before), now, ItemPart(evs, now), K8sPart(evs, now))
  }

  ghost predicate BuiltFrom(b: Batch, evs: seq<QueuedEvent>) {
    b.events == ItemPart(evs, b.observedAt) && b.k8sEvents == K8sPart(evs, b.observedAt)
  }

  // ----- What a batch carries, entry by entry -----

  /** The version a watch event names: its own, else its object's. */
  function VersionNamed(ev: QueuedEvent): string {
    TrimSpace(if !Blank(ev.resourceVersion) then ev.resourceVersion else ev.objectVersion)
  }

  /** The entry of a watch event: its type, its version, its object with another time. */
  ghost predicate ShippedAs(ev: QueuedEvent, e: AgentEvent) {
    && e.typ == ev.watchType && e.resourceVersion == VersionNamed(ev)
    && e.resource == ev.item.(observedAt := e.resource.observedAt)
  }

  ghost predicate SameReport(ev: QueuedEvent, e: K8sEvent) {
    e.reason == ev.k8s.reason && e.message == ev.k8s.message
  }

  /** The entry of a Kubernetes event: its own times if it has any, else that of the batch. */
  ghost function ReportedAt(now: string): (QueuedEvent, K8sEvent) -> bool {
    (ev: QueuedEvent, e: K8sEvent) =>
      && SameReport(ev, e)
      && e.lastSeen == TrimSpace(if !Blank(ev.k8s.lastSeen) then ev.k8s.lastSeen else now)
      && e.firstSeen == if !Blank(ev.k8s.firstSeen) then TrimSpace(ev.k8s.firstSeen) else e.lastSeen
  }

  /** An object with a name. */
  ghost predicate Named(ev: QueuedEvent) {
    !ev.k8sTarget && ev.item.name != ""
  }

  /** A Kubernetes event that still exists and has something to say. */
  ghost predicate Tells(ev: QueuedEvent) {
    ev.k8sTarget && ev.watchType != "DELETED" && (!Blank(ev.k8s.reason) || !Blank(ev.k8s.message))
  }

  /** A batch carries the events of a flush: an entry for each kept one, in order, with the batch time. */
  ghost predicate Carries(b: Batch, evs: seq<QueuedEvent>) {
    && Sorting.Picks(Named, ShippedAs, evs, b.events)
    && (forall e :: e in b.events ==> e.resource.observedAt == b.observedAt)
    && Sorting.Picks(Tells, ReportedAt(b.observedAt), evs, b.k8sEvents)
  }

  ghost predicate NoneNamed(evs: seq<QueuedEvent>, from: nat) {
    forall i :: from <= i < |evs| ==> VersionNamed(evs[i]) == ""
  }

  /** The version to report: the last one the events name, else the one before. */
  ghost predicate ReportsVersion(version: string, evs: seq<QueuedEvent>, before: string) {
    && (forall i :: 0 <= i < |evs| && VersionNamed(evs[i]) != "" && NoneNamed(evs, i + 1) ==>
          version == VersionNamed(evs[i]))
    && (NoneNamed(evs, 0) ==> version == before)
  }

  lemma VersionIsNamed(ev: QueuedEvent)
    ensures VersionOf(ev) == VersionNamed(ev)
  {
    FirstOfTwo(ev.resourceVersion, ev.objectVersion);
    TrimSpaceFixedPoints("");
  }

  lemma StampedReports(ev: QueuedEvent, now: string)
    ensures ReportedAt(now)(ev, Stamped(ev.k8s, now))
  {
    var last := FirstNonEmpty([ev.k8s.lastSeen, now]);
    FirstOfTwo(ev.k8s.lastSeen, now);
    FirstOfTwo(ev.k8s.firstSeen, last);
    TrimSpaceFixedPoints("");
    TrimSpaceFixedPoints(First([ev.k8s.lastSeen, now]));
  }

  lemma {:induction false} ItemsCarried(evs: seq<QueuedEvent>, now: string)
    ensures Sorting.Picks(Named, ShippedAs, evs, ItemPart(evs, now))
    ensures forall e :: e in ItemPart(evs, now) ==> e.resource.observedAt == now
    decreases |evs|
  {
    if evs != [] {
      var front, ev := evs[..|evs| - 1], evs[|evs| - 1];
      ItemsCarried(front, now);
      VersionIsNamed(ev);
      var ys := if KeepsItem(ev) then [AgentEvent(ev.watchType, VersionOf(ev), ev.item.(observedAt := now))] else [];
      Sorting.PicksSnoc(Named, ShippedAs, front, ItemPart(front, now), ev, ys);
      assert front + [ev] == evs;
    }
  }

  lemma {:induction false} ReportsCarried(evs: seq<QueuedEvent>, now: string)
    ensures Sorting.Picks(Tells, ReportedAt(now), evs, K8sPart(evs, now))
    decreases |evs|
  {
    if evs != [] {
      var front, ev := evs[..|evs| - 1], evs[|evs| - 1];
      ReportsCarried(front, now);
      StampedReports(ev, now);
      var ys := if KeepsK8s(ev) then [Stamped(ev.k8s, now)] else [];
      Sorting.PicksSnoc(Tells, ReportedAt(now), front, K8sPart(front, now), ev, ys);
      assert front + [ev] == evs;
    }
  }

  lemma NoneNamedSnoc(front: seq<QueuedEvent>, ev: QueuedEvent, from: nat)
    requires from <= |front|
    ensures NoneNamed(front + [ev], from) <==> NoneNamed(front, from) && VersionNamed(ev) == ""
  {
    var evs := front + [ev];
    assert evs[|front|] == ev && forall j :: 0 <= j < |front| ==> evs[j] == front[j];
  }

  lemma ReportsSnoc(version: string, front: seq<QueuedEvent>, ev: QueuedEvent, before: string)
    requires ReportsVersion(version, front, before)
    ensures ReportsVersion(if VersionNamed(ev) != "" then VersionNamed(ev) else version, front + [ev], before)
  {
    var evs := front + [ev];
    assert evs[|front|] == ev;
    forall i | 0 <= i < |front| && VersionNamed(front[i]) != ""
      ensures NoneNamed(evs, i + 1) <==> NoneNamed(front, i + 1) && VersionNamed(ev) == ""
    {
      NoneNamedSnoc(front, ev, i + 1);
    }
    NoneNamedSnoc(front, ev, 0);
  }

  lemma {:induction false} LastVersionReported(evs: seq<QueuedEvent>, before: string)
    ensures ReportsVersion(LastVersion(evs, before), evs, before)
    decreases |evs|
  {
    if evs != [] {
      var front, ev := evs[..|evs| - 1], evs[|evs| - 1];
      VersionIsNamed(ev);
      LastVersionReported(front, before);
      ReportsSnoc(LastVersion(front, before), front, ev, before);
      assert front + [ev] == evs;
    }
  }

  lemma BatchCarries(cluster: string, agent: string, evs: seq<QueuedEvent>, before: string, now: string)
    ensures var b := BatchOf(cluster, agent, evs, before, now);
      Carries(b, evs) && ReportsVersion(b.resourceVersion, evs, before)
  {
    ItemsCarried(evs, now);
    ReportsCarried(evs, now);
    LastVersionReported(evs, before);
  }

  // ----- Flushed, pending, waiting -----

  ghost function Flatten(flushes: seq<seq<QueuedEvent>>): seq<QueuedEvent> {
    if flushes == [] then [] else Flatten(flushes[..|flushes| - 1]) + flushes[|flushes| - 1]
  }

  lemma FlattenSnoc(flushes: seq<seq<QueuedEvent>>, evs: seq<QueuedEvent>)
    ensures Flatten(flushes + [evs]) == Flatten(flushes) + evs
  {
    assert (flushes + [evs])[..|flushes|] == flushes;
  }

  /** Every accepted event is flushed, pending or waiting, once and in order; no flush is too large. */
  ghost predicate Conserved(accepted: seq<QueuedEvent>, flushes: seq<seq<QueuedEvent>>, pending: seq<QueuedEvent>,
                            channel: seq<QueuedEvent>, maxBatch: nat) {
    && accepted == Flatten(flushes) + pending + channel
    && forall i :: 0 <= i < |flushes| ==> |flushes[i]| <= maxBatch
  }

  lemma ConservedFlush(accepted: seq<QueuedEvent>, flushes: seq<seq<QueuedEvent>>, pending: seq<QueuedEvent>,
                       channel: seq<QueuedEvent>, maxBatch: nat)
    requires Conserved(accepted, flushes, pending, channel, maxBatch) && |pending| <= maxBatch
    ensures Conserved(accepted, flushes + [pending], [], channel, maxBatch)
  {
    FlattenSnoc(flushes, pending);
    assert Flatten(flushes + [pending]) + [] == Flatten(flushes + [pending]);
  }

  lemma NothingPending(accepted: seq<QueuedEvent>, flushes: seq<seq<QueuedEvent>>, channel: seq<QueuedEvent>,
                       maxBatch: nat)
    requires Conserved(accepted, flushes, [], channel, maxBatch)
    ensures accepted == Flatten(flushes) + channel
  {
    assert Flatten(flushes) + [] + channel == Flatten(flushes) + channel;
  }

  lemma ConservedReceive(accepted: seq<QueuedEvent>, flushes: seq<seq<QueuedEvent>>, pending: seq<QueuedEvent>,
                         channel: seq<QueuedEvent>, maxBatch: nat)
    requires Conserved(accepted, flushes, pending, channel, maxBatch) && channel != []
    ensures Conserved(accepted, flushes, pending + [channel[0]], channel[1..], maxBatch)
  {
    assert Flatten(flushes) + pending + channel == Flatten(flushes) + (pending + [channel[0]]) + channel[1..];
  }

  lemma ConservedOffer(accepted: seq<QueuedEvent>, flushes: seq<seq<QueuedEvent>>, pending: seq<QueuedEvent>,
                       channel: seq<QueuedEvent>, maxBatch: nat, ev: QueuedEvent)
    requires Conserved(accepted, flushes, pending, channel, maxBatch)
    ensures Conserved(accepted + [ev], flushes, pending, channel + [ev], maxBatch)
  {
    assert Flatten(flushes) + pending + channel + [ev] == Flatten(flushes) + pending + (channel + [ev]);
  }

  /** Every flush is one step of the delivery protocol, carrying exactly the events of that flush. */
  ghost predicate Tracks(d: Delivery.System, steps: seq<Delivery.Step>, flushes: seq<seq<QueuedEvent>>) {
    && d == Delivery.Reached(steps)
    && |steps| == |flushes|
    && forall i :: 0 <= i < |steps| ==> BuiltFrom(steps[i].batch, flushes[i])
  }

  lemma TracksSnoc(d: Delivery.System, steps: seq<Delivery.Step>, flushes: seq<seq<QueuedEvent>>, step: Delivery.Step,
                   evs: seq<QueuedEvent>)
    requires Tracks(d, steps, flushes) && BuiltFrom(step.batch, evs)
    ensures Tracks(Delivery.Flush(Delivery.COLLECTOR, d, step.batch, step.fate), steps + [step], flushes + [evs])
  {
    Delivery.ReachedSnoc(steps, step);
  }

  /** All watch events of a run's batches, in order. */
  ghost function PostedEvents(steps: seq<Delivery.Step>): seq<AgentEvent> {
    if steps == [] then [] else PostedEvents(steps[..|steps| - 1]) + steps[|steps| - 1].batch.events
  }

  ghost function PostedReports(steps: seq<Delivery.Step>): seq<K8sEvent> {
    if steps == [] then [] else PostedReports(steps[..|steps| - 1]) + steps[|steps| - 1].batch.k8sEvents
  }

  lemma ReportedWeaken(evs: seq<QueuedEvent>, now: string, es: seq<K8sEvent>)
    requires Sorting.Picks(Tells, ReportedAt(now), evs, es)
    ensures Sorting.Picks(Tells, SameReport, evs, es)
  {
    Sorting.PicksWeaken(Tells, ReportedAt(now), SameReport, evs, es);
  }

  /** The batches of a run carry exactly the kept events, in order. */
  ghost predicate Posted(steps: seq<Delivery.Step>, evs: seq<QueuedEvent>) {
    && Sorting.Picks(Named, ShippedAs, evs, PostedEvents(steps))
    && Sorting.Picks(Tells, SameReport, evs, PostedReports(steps))
  }

  lemma {:induction false} RunCarries(steps: seq<Delivery.Step>, flushes: seq<seq<QueuedEvent>>)
    requires |steps| == |flushes| && forall i :: 0 <= i < |steps| ==> BuiltFrom(steps[i].batch, flushes[i])
    ensures Posted(steps, Flatten(flushes))
    decreases |steps|
  {
    if steps != [] {
      var n := |steps| - 1;
      var b, evs := steps[n].batch, flushes[n];
      RunCarries(steps[..n], flushes[..n]);
      assert BuiltFrom(b, evs);
      ItemsCarried(evs, b.observedAt);
      ReportsCarried(evs, b.observedAt);
      ReportedWeaken(evs, b.observedAt, b.k8sEvents);
      Sorting.PicksConcat(Named, ShippedAs, Flatten(flushes[..n]), PostedEvents(steps[..n]), evs, b.events);
      Sorting.PicksConcat(Tells, SameReport, Flatten(flushes[..n]), PostedReports(steps[..n]), evs, b.k8sEvents);
    }
  }

  lemma TracksPosted(d: Delivery.System, steps: seq<Delivery.Step>, flushes: seq<seq<QueuedEvent>>)
    requires Tracks(d, steps, flushes)
    ensures Posted(steps, Flatten(flushes))
  {
    RunCarries(steps, flushes);
  }

  /** The laws of delivery for one run: the inventory once the queue is empty, and the order of the batches. */
  ghost predicate Delivers(d: Delivery.System, steps: seq<Delivery.Step>) {
    var first := Delivery.FirstOccurrences(Delivery.Stream(steps));
    && (d.queue == [] && d.torn == {} ==> d.db.inventory == Delivery.Replay(first))
    && (d.queue == [] ==> (d.db.inventory == Delivery.Replay(first) <==> Delivery.TearsUnnoticed(first, d.torn)))
    && (d.fileOk ==> d.acked + d.queue == Delivery.PayloadBatches(steps))
  }

  lemma TracksDelivers(d: Delivery.System, steps: seq<Delivery.Step>, flushes: seq<seq<QueuedEvent>>)
    requires Tracks(d, steps, flushes)
    ensures Delivers(d, steps)
  {
    if d.queue == [] { Delivery.DrainedExactly(steps); }
    if d.queue == [] && d.torn == {} { Delivery.DeliveredExactlyOnce(steps); }
    if d.fileOk { Delivery.NoLossNoReordering(steps); }
  }

  lemma HeadAndTail(lines: seq<Batch>, i: nat)
    requires i < |lines|
    ensures lines[i..] == [lines[i]] + lines[i + 1..]
  {
  }

  /** One turn of the agent: a watcher offers an event, or one of the loop's channels is ready. */
  datatype Turn =
    | Offer(ev: QueuedEvent)
    | Receive(now: string, fate: Delivery.Fate)
    | BatchTick(now: string, fate: Delivery.Fate)
    | HeartbeatTick(now: string, fate: Delivery.Fate)

  class Runner {
    const cluster: string
    const agent: string
    const maxBatch: nat
    const capacity: nat
    const server: Database
    var channel: seq<QueuedEvent>
    var pending: seq<QueuedEvent>
    var queue: seq<Batch>
    var lastVersion: string
    var eventsTotal: nat
    // History of the run.
    ghost var accepted: seq<QueuedEvent>
    ghost var flushes: seq<seq<QueuedEvent>>
    ghost var flushed: seq<Batch>
    ghost var acked: seq<Batch>
    ghost var torn: set<string>
    ghost var fileOk: bool
    ghost var steps: seq<Delivery.Step>

    /** Agent and server together, as the delivery protocol sees them. */
    ghost function Delivered(): Delivery.System
      reads this, server
    {
      Delivery.System(queue, server.View(), flushed, acked, torn, fileOk)
    }

    ghost predicate Valid()
      reads this, server
    {
      && maxBatch > 0
      && Conserved(accepted, flushes, pending, channel, maxBatch) && |pending| < maxBatch
      && |accepted| == eventsTotal && |channel| <= capacity
      && Tracks(Delivered(), steps, flushes)
    }

    /** `maxBatch` and `capacity` are positive once the configuration is normalized. */
    constructor (cluster: string, agent: string, maxBatch: nat, capacity: nat, server: Database)
      requires maxBatch > 0 && capacity > 0
      requires server.View() == Db({}, map[])
      ensures Valid() && steps == []
      ensures this.server == server && this.maxBatch == maxBatch && this.capacity == capacity
      ensures accepted == [] && flushes == [] && channel == [] && pending == []
    {
      this.cluster, this.agent, this.maxBatch, this.capacity, this.server := cluster, agent, maxBatch, capacity, server;
      channel, pending, queue, lastVersion, eventsTotal := [], [], [], "", 0;
      accepted, flushes, flushed, acked, torn, fileOk, steps := [], [], [], [], {}, true, [];
    }

    /** A watcher's send: it blocks on a full channel, and the event is then not accepted. */
    method Enqueue(ev: QueuedEvent) returns (sent: bool)
      requires Valid()
      modifies this`channel, this`eventsTotal, this`lastVersion, this`accepted
      ensures Valid()
      ensures sent == (|old(channel)| < capacity)
      ensures channel == if sent then old(channel) + [ev] else old(channel)
      ensures accepted == if sent then old(accepted) + [ev] else old(accepted)
      ensures lastVersion == if sent && ev.resourceVersion != "" then ev.resourceVersion else old(lastVersion)
    {
      sent := |channel| < capacity;
      if sent {
        ConservedOffer(accepted, flushes, pending, channel, maxBatch, ev);
        channel := channel + [ev];
        accepted := accepted + [ev];
        eventsTotal := eventsTotal + 1;
        if ev.resourceVersion != "" { lastVersion := ev.resourceVersion; }
        assert Delivered() == old(Delivered());
      }
    }

    method BuildBatch(evs: seq<QueuedEvent>, now: string) returns (b: Batch)
      ensures b == BatchOf(cluster, agent, evs, lastVersion, now)
      ensures b.clusterID == cluster && b.agentID == agent && b.observedAt == now
      ensures Carries(b, evs) && ReportsVersion(b.resourceVersion, evs, lastVersion)
    {
      b := Batch(cluster, agent, lastVersion, now, [], []);
      var i := 0;
      while i < |evs|
        invariant 0 <= i <= |evs|
        invariant b == BatchOf(cluster, agent, evs[..i], lastVersion, now)
      {
        var ev := evs[i];
        assert evs[..i + 1][..i] == evs[..i] && evs[..i + 1][i] == ev;
        i := i + 1;
        var rv := VersionOf(ev);
        if rv != "" { b := b.(resourceVersion := rv); }
        if ev.k8sTarget {
          if ev.watchType == "DELETED" || !RecordableK8sEvent(ev.k8s) { continue; }
          b := b.(k8sEvents := b.k8sEvents + [Stamped(ev.k8s, now)]);
          continue;
        }
        if ev.item.name == "" { continue; }
        b := b.(events := b.events + [AgentEvent(ev.watchType, rv, ev.item.(observedAt := now))]);
      }
      assert evs[..i] == evs;
      BatchCarries(cluster, agent, evs, lastVersion, now);
    }

    /** One POST. A request that does not arrive leaves the server alone. */
    method PostBatch(b: Batch, p: Delivery.Post) returns (err: bool)
      modifies this`acked, this`torn, server
      ensures Delivered() == Delivery.PostBatch(Delivery.COLLECTOR, old(Delivered()), b, p)
      ensures err == !Delivery.Acked(Delivery.COLLECTOR, old(server.View()), b, p)
    {
      ghost var a := Delivery.ServerApply(Delivery.COLLECTOR, server.View(), b, p);
      ghost var ackd := Delivery.Acked(Delivery.COLLECTOR, server.View(), b, p);
      err := true;
      if p.reaches {
        server.calls := p.calls;
        var result, ok;
        ghost var kinds;
        result, kinds, ok := server.ApplyAgentBatch(b, p.findings);
        err := !(ok && p.answered);
      }
      torn := torn + a.torn;
      if ackd && Delivery.HasPayload(b) { acked := acked + [b]; }
    }

    /** The replay loop between two lines: `rest` is still to be read, with `left` the fates to come. */
    ghost predicate Replaying(whole: (Delivery.System, seq<Batch>), rest: seq<Batch>, left: seq<Delivery.Post>,
                              remaining: seq<Batch>, failed: bool)
      reads this, server
    {
      if failed then whole == (Delivered(), remaining + rest)
      else remaining == [] && whole == Delivery.ReplayLines(Delivery.COLLECTOR, Delivered(), rest, left)
    }

    /** One queued line: posted and kept when the post fails; kept without a post after a failure. */
    method ReplayLine(line: Batch, left: seq<Delivery.Post>, kept: seq<Batch>, failed: bool,
                      ghost whole: (Delivery.System, seq<Batch>), ghost rest: seq<Batch>)
      returns (remaining: seq<Batch>, left': seq<Delivery.Post>, failed': bool)
      requires Replaying(whole, [line] + rest, left, kept, failed)
      modifies this`acked, this`torn, server
      ensures Replaying(whole, rest, left', remaining, failed')
    {
      remaining, left', failed' := kept, left, failed;
      if failed {
        assert kept + ([line] + rest) == (kept + [line]) + rest;
        remaining := kept + [line];
      } else {
        Delivery.ReplayLinesStep(Delivery.COLLECTOR, Delivered(), line, rest, left);
        failed' := PostBatch(line, Delivery.Next(left));
        left' := Delivery.Rest(left);
        if failed' { remaining := [line]; }
      }
    }

    lemma ReplayingDone(whole: (Delivery.System, seq<Batch>), left: seq<Delivery.Post>, remaining: seq<Batch>,
                        failed: bool)
      requires Replaying(whole, [], left, remaining, failed)
      ensures whole == (Delivered(), remaining)
    {
      assert remaining + [] == remaining;
    }

    /** The loop over the lines of the queue file. */
    method ReplayLoop(lines: seq<Batch>, posts: seq<Delivery.Post>, ghost whole: (Delivery.System, seq<Batch>))
      returns (remaining: seq<Batch>)
      requires Replaying(whole, lines, posts, [], false)
      modifies this`acked, this`torn, server
      ensures whole == (Delivered(), remaining)
    {
      remaining := [];
      var failed, left := false, posts;
      var i := 0;
      ghost var rest := lines;
      while i < |lines|
        invariant 0 <= i <= |lines| && rest == lines[i..]
        invariant Replaying(whole, rest, left, remaining, failed)
      {
        rest := lines[i + 1..];
        HeadAndTail(lines, i);
        remaining, left, failed := ReplayLine(lines[i], left, remaining, failed, whole, rest);
        i := i + 1;
      }
      assert rest == [];
      ReplayingDone(whole, left, remaining, failed);
    }

    method ReplayLines(lines: seq<Batch>, posts: seq<Delivery.Post>) returns (remaining: seq<Batch>)
      modifies this`acked, this`torn, server
      ensures (Delivered(), remaining) == Delivery.ReplayLines(Delivery.COLLECTOR, old(Delivered()), lines, posts)
    {
      remaining := ReplayLoop(lines, posts, Delivery.ReplayLines(Delivery.COLLECTOR, Delivered(), lines, posts));
    }

    /** Replays the queue file; an error means that a new batch must not be posted. */
    method ReplayQueued(posts: seq<Delivery.Post>, file: Delivery.FileOps) returns (err: bool)
      modifies this`queue, this`acked, this`torn, this`fileOk, server
      ensures (Delivered(), !err) == Delivery.ReplayQueued(Delivery.COLLECTOR, old(Delivered()), posts, file)
    {
      if !file.readable { fileOk := false; return true; }
      if queue == [] { return false; }
      var remaining := ReplayLines(queue, posts);
      if !file.rewritable { fileOk := false; return true; }
      queue := remaining;
      err := remaining != [];
    }

    /** Appends a batch that could not be delivered, unless it is a bare heartbeat. */
    method QueueBatch(b: Batch)
      modifies this`queue, this`flushed
      ensures Delivered() == Delivery.Enqueue(old(Delivered()), b)
    {
      if Delivery.HasPayload(b) {
        queue := queue + [b];
        flushed := flushed + [b];
      }
    }

    /** One flush: replay first, then the new batch; whatever is not acknowledged is queued. */
    method FlushEvents(evs: seq<QueuedEvent>, now: string, f: Delivery.Fate)
      modifies this`queue, this`flushed, this`acked, this`torn, this`fileOk, server
      ensures Delivered()
        == Delivery.Flush(Delivery.COLLECTOR, old(Delivered()), BatchOf(cluster, agent, evs, old(lastVersion), now), f)
    {
      var b := BuildBatch(evs, now);
      var err := ReplayQueued(f.posts, f.file);
      if err {
        QueueBatch(b);
        return;
      }
      ghost var db := server.View();
      err := PostBatch(b, f.direct);
      if err {
        QueueBatch(b);
        return;
      }
      if Delivery.HasPayload(b) { flushed := flushed + [b]; }
    }

    /** One flush of the pending events, entered in the history. */
    method FlushRecorded(now: string, f: Delivery.Fate)
      requires Tracks(Delivered(), steps, flushes)
      requires Conserved(accepted, flushes, pending, channel, maxBatch) && |pending| <= maxBatch
      modifies this`queue, this`flushes, this`flushed, this`acked, this`torn, this`fileOk, this`steps, server
      ensures Tracks(Delivered(), steps, flushes) && flushes == old(flushes) + [pending]
      ensures Conserved(accepted, flushes, [], channel, maxBatch)
      ensures steps == old(steps) + [Delivery.Step(BatchOf(cluster, agent, pending, lastVersion, now), f)]
    {
      ConservedFlush(accepted, flushes, pending, channel, maxBatch);
      ghost var b, before := BatchOf(cluster, agent, pending, lastVersion, now), Delivered();
      FlushEvents(pending, now, f);
      TracksSnoc(before, steps, flushes, Delivery.Step(b, f), pending);
      flushes, steps := flushes + [pending], steps + [Delivery.Step(b, f)];
    }

    /** Flushes the pending events and starts a new batch. */
    method FlushPending(now: string, f: Delivery.Fate)
      requires maxBatch > 0 && |pending| <= maxBatch && |accepted| == eventsTotal && |channel| <= capacity
      requires Conserved(accepted, flushes, pending, channel, maxBatch)
      requires Tracks(Delivered(), steps, flushes)
      modifies this`pending, this`queue, this`flushes, this`flushed, this`acked, this`torn, this`fileOk, this`steps,
        server
      ensures Valid() && pending == [] && flushes == old(flushes) + [old(pending)]
      ensures steps == old(steps) + [Delivery.Step(BatchOf(cluster, agent, old(pending), lastVersion, now), f)]
    {
      FlushRecorded(now, f);
      pending := [];
    }

    /** The state after receiving the first waiting event: pending grows, or a full batch is flushed. */
    ghost predicate Received(pending0: seq<QueuedEvent>, channel0: seq<QueuedEvent>, flushes0: seq<seq<QueuedEvent>>)
      requires channel0 != []
      reads this
    {
      var grown := pending0 + [channel0[0]];
      && channel == channel0[1..]
      && if |grown| < maxBatch then pending == grown && flushes == flushes0
         else pending == [] && flushes == flushes0 + [grown]
    }

    method Receive(now: string, f: Delivery.Fate)
      requires Valid() && channel != []
      modifies this, server
      ensures Valid() && Received(old(pending), old(channel), old(flushes))
    {
      ConservedReceive(accepted, flushes, pending, channel, maxBatch);
      pending, channel := pending + [channel[0]], channel[1..];
      assert Delivered() == old(Delivered());
      if |pending| >= maxBatch { FlushPending(now, f); }
    }

    /** One turn of the select loop. A receive from an empty channel and a send to a full one wait. */
    method TakeTurn(t: Turn)
      requires Valid()
      modifies this, server
      ensures Valid()
      ensures t.Offer? ==> flushes == old(flushes) && pending == old(pending) && steps == old(steps)
      ensures t.Receive? && old(channel) != [] ==> Received(old(pending), old(channel), old(flushes))
      ensures t.Receive? && old(channel) == [] ==> pending == old(pending) && channel == [] && flushes == old(flushes)
      ensures t.BatchTick? || t.HeartbeatTick? ==> pending == [] && channel == old(channel)
      ensures t.BatchTick? ==> flushes == if old(pending) == [] then old(flushes) else old(flushes) + [old(pending)]
      ensures t.HeartbeatTick? ==> flushes == old(flushes) + [old(pending)]
    {
      match t
      case Offer(ev) =>
        var _ := Enqueue(ev);
      case Receive(now, f) =>
        if channel != [] { Receive(now, f); }
      case BatchTick(now, f) =>
        if |pending| > 0 { FlushPending(now, f); }
      case HeartbeatTick(now, f) =>
        FlushPending(now, f);
    }

    method TakeTurns(turns: seq<Turn>)
      requires Valid()
      modifies this, server
      ensures Valid()
    {
      var i := 0;
      while i < |turns|
        invariant 0 <= i <= |turns|
        invariant Valid()
      {
        TakeTurn(turns[i]);
        i := i + 1;
      }
    }

    /** The flush loop up to shutdown, for any interleaving of watchers and timers; shutdown flushes what
        is pending. Events still in the channel are the only accepted ones that were never flushed. */
    method FlushLoop(turns: seq<Turn>, now: string, last: Delivery.Fate)
      requires Valid()
      modifies this, server
      ensures Valid() && pending == []
      ensures accepted == Flatten(flushes) + channel
      ensures Delivers(Delivered(), steps)
      ensures Posted(steps, Flatten(flushes))
    {
      TakeTurns(turns);
      if |pending| > 0 { FlushPending(now, last); }
      NothingPending(accepted, flushes, channel, maxBatch);
      TracksPosted(Delivered(), steps, flushes);
      TracksDelivers(Delivered(), steps, flushes);
    }
  }
}
