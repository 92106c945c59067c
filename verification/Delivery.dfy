/** At-least-once delivery from the agent to the server: an on-disk FIFO queue replayed before every
    post, a network that may lose a request or its answer, and a server that drops duplicates. */
module Delivery {
  import opened Collector
  import opened Text
  import Sorting

  /** What the protocol needs to know of the server: which batches it takes, how it reads one as a list
      of writes, and how many store calls follow the writes. The invariants hold for any such server;
      the laws at the end are stated for `COLLECTOR`. */
  datatype Server = Server(valid: Batch -> bool, read: Batch -> seq<Write>, tail: (Batch, Counts, nat) -> nat)

  const COLLECTOR := Server(ValidBatch, Writes, TailCalls)

  /** The fate of one POST: whether it reaches the server, how many store calls succeed there, how many
      findings are to be written, and whether the answer comes back. */
  datatype Post = Post(reaches: bool, calls: nat, findings: nat, answered: bool)

  const LOST := Post(false, 0, 0, false)

  /** The fate of the queue file during one replay. */
  datatype FileOps = FileOps(readable: bool, rewritable: bool)

  /** Everything one flush depends on: `posts` for the replayed batches, `direct` for the new one. */
  datatype Fate = Fate(posts: seq<Post>, direct: Post, file: FileOps)

  /** The agent's queue and the server's store, with the history of the run: the payload batches in
      flush order, the batches the agent saw acknowledged, the torn keys, and whether every queue-file
      operation has worked so far. */
  datatype System = System(queue: seq<Batch>, db: Db, flushed: seq<Batch>, acked: seq<Batch>,
                           torn: set<string>, fileOk: bool)

  const INITIAL := System([], Db({}, map[]), [], [], {}, true)

  predicate HasPayload(b: Batch) {
    |b.events| > 0 || |b.k8sEvents| > 0
  }

  // ----- The steps -----

  /** What the server's event loop does with a batch. */
  function ServerApply(srv: Server, db: Db, b: Batch, p: Post): Applied {
    if p.reaches && srv.valid(b) then ApplyWrites(db, srv.read(b), NO_COUNTS, p.calls)
    else Applied(db, NO_COUNTS, {}, 0, false)
  }

  /** The agent sees success only when every store call succeeded and the answer came back. */
  predicate Acked(srv: Server, db: Db, b: Batch, p: Post) {
    var a := ServerApply(srv, db, b, p);
    a.ok && a.left >= srv.tail(b, a.counts, p.findings) && p.answered
  }

  /** Success is a batch that arrived, was accepted whole, and whose answer came back. */
  lemma AckedExact(db: Db, b: Batch, p: Post)
    ensures Acked(COLLECTOR, db, b, p) <==> p.reaches && p.answered && Accepted(db, b, p.calls, p.findings)
    ensures !p.reaches ==> ServerApply(COLLECTOR, db, b, p).db == db
  {
  }

  /** One POST: the server's store and the torn keys move; the history records an acknowledgement. */
  function PostBatch(srv: Server, s: System, b: Batch, p: Post): System {
    var a := ServerApply(srv, s.db, b, p);
    s.(db := a.db, torn := s.torn + a.torn,
       acked := if Acked(srv, s.db, b, p) && HasPayload(b) then s.acked + [b] else s.acked)
  }

  function Next(posts: seq<Post>): Post {
    if posts == [] then LOST else posts[0]
  }

  function Rest(posts: seq<Post>): seq<Post> {
    if posts == [] then [] else posts[1..]
  }

  /** The replay loop: posts in order until the first failure; the failed line and all after it remain. */
  function ReplayLines(srv: Server, s: System, lines: seq<Batch>, posts: seq<Post>): (System, seq<Batch>)
    decreases |lines|
  {
    if lines == [] then (s, [])
    else
      var s' := PostBatch(srv, s, lines[0], Next(posts));
      if Acked(srv, s.db, lines[0], Next(posts)) then ReplayLines(srv, s', lines[1..], Rest(posts)) else (s', lines)
  }

  lemma ReplayLinesStep(srv: Server, s: System, line: Batch, rest: seq<Batch>, posts: seq<Post>)
    ensures var s' := PostBatch(srv, s, line, Next(posts));
      ReplayLines(srv, s, [line] + rest, posts) ==
      if Acked(srv, s.db, line, Next(posts)) then ReplayLines(srv, s', rest, Rest(posts)) else (s', [line] + rest)
  {
    assert ([line] + rest)[1..] == rest;
  }

  /** The whole replay; the flag says whether a new batch may be posted now. */
  function ReplayQueued(srv: Server, s: System, posts: seq<Post>, file: FileOps): (System, bool) {
    if !file.readable then (s.(fileOk := false), false)
    else if s.queue == [] then (s, true)
    else
      var (s', remaining) := ReplayLines(srv, s, s.queue, posts);
      if !file.rewritable then (s'.(fileOk := false), false)
      else (s'.(queue := remaining), remaining == [])
  }

  function Enqueue(s: System, b: Batch): System {
    if HasPayload(b) then s.(queue := s.queue + [b], flushed := s.flushed + [b]) else s
  }

  /** One flush of a new batch. */
  function Flush(srv: Server, s: System, b: Batch, f: Fate): System {
    var (s', clear) := ReplayQueued(srv, s, f.posts, f.file);
    if !clear then Enqueue(s', b)
    else
      var s'' := PostBatch(srv, s', b, f.direct);
      if !Acked(srv, s'.db, b, f.direct) then Enqueue(s'', b)
      else if HasPayload(b) then s''.(flushed := s''.flushed + [b])
      else s''
  }

  datatype Step = Step(batch: Batch, fate: Fate)

  function Run(srv: Server, s: System, steps: seq<Step>): System
    decreases |steps|
  {
    if steps == [] then s
    else Flush(srv, Run(srv, s, steps[..|steps| - 1]), steps[|steps| - 1].batch, steps[|steps| - 1].fate)
  }

  // ----- The reference: every flushed event once, in flush order -----

  ghost function AllWrites(srv: Server, bs: seq<Batch>): seq<Write> {
    if bs == [] then [] else AllWrites(srv, bs[..|bs| - 1]) + srv.read(bs[|bs| - 1])
  }

  ghost function Keys(ws: seq<Write>): set<string> {
    set i | 0 <= i < |ws| :: ws[i].key
  }

  /** The first event of each key, in order. */
  ghost function FirstOccurrences(ws: seq<Write>): seq<Write> {
    if ws == [] then []
    else
      var front, last := ws[..|ws| - 1], ws[|ws| - 1];
      FirstOccurrences(front) + if last.key in Keys(front) then [] else [last]
  }

  ghost function Without(ws: seq<Write>, torn: set<string>): seq<Write> {
    if ws == [] then []
    else Without(ws[..|ws| - 1], torn) + if ws[|ws| - 1].key in torn then [] else [ws[|ws| - 1]]
  }

  /** The inventory left by applying every event of a stream, one after the other. */
  ghost function Replay(ws: seq<Write>): Inventory {
    if ws == [] then map[] else Effect(Replay(ws[..|ws| - 1]), ws[|ws| - 1])
  }

  /** The store after the stream: all keys seen, and the first occurrences applied except the torn ones. */
  ghost function StoreAfter(ws: seq<Write>, torn: set<string>): Db {
    Db(Keys(ws), Replay(Without(FirstOccurrences(ws), torn)))
  }

  lemma KeysSnoc(ws: seq<Write>, w: Write)
    ensures Keys(ws + [w]) == Keys(ws) + {w.key}
  {
    var ws' := ws + [w];
    assert forall i :: 0 <= i < |ws| ==> ws'[i] == ws[i];
    assert ws'[|ws|].key in Keys(ws');
    forall k | k in Keys(ws) ensures k in Keys(ws') {
      var i :| 0 <= i < |ws| && ws[i].key == k;
      assert ws'[i].key == k;
    }
  }

  lemma StoreStep(ws: seq<Write>, w: Write, torn: set<string>)
    ensures StoreAfter(ws + [w], torn) ==
            if w.key in Keys(ws) then StoreAfter(ws, torn)
            else Db(Keys(ws) + {w.key}, if w.key in torn then StoreAfter(ws, torn).inventory
                                        else Effect(StoreAfter(ws, torn).inventory, w))
  {
    var ws' := ws + [w];
    assert ws'[..|ws|] == ws;
    KeysSnoc(ws, w);
    var f := FirstOccurrences(ws);
    if w.key in Keys(ws) {
      assert FirstOccurrences(ws') == f;
      assert Keys(ws') == Keys(ws);
    } else {
      assert FirstOccurrences(ws') == f + [w];
      assert (f + [w])[..|f|] == f;
      var g := Without(f, torn);
      if w.key !in torn {
        assert Without(f + [w], torn) == g + [w];
        assert (g + [w])[..|g|] == g;
      } else {
        assert Without(f + [w], torn) == g;
      }
    }
  }

  lemma {:induction false} FirstOccurrencesKeys(ws: seq<Write>)
    ensures Keys(FirstOccurrences(ws)) == Keys(ws)
    decreases |ws|
  {
    if ws != [] {
      var front, last := ws[..|ws| - 1], ws[|ws| - 1];
      assert ws == front + [last];
      FirstOccurrencesKeys(front);
      KeysSnoc(front, last);
      KeysSnoc(FirstOccurrences(front), last);
      assert FirstOccurrences(front) + [] == FirstOccurrences(front);
    }
  }

  lemma {:induction false} WithoutIrrelevant(ws: seq<Write>, torn: set<string>, k: string)
    requires k !in Keys(ws)
    ensures Without(ws, torn + {k}) == Without(ws, torn)
    decreases |ws|
  {
    if ws != [] {
      var front, last := ws[..|ws| - 1], ws[|ws| - 1];
      assert ws == front + [last];
      KeysSnoc(front, last);
      WithoutIrrelevant(front, torn, k);
    }
  }

  lemma TornLater(ws: seq<Write>, torn: set<string>, k: string)
    requires k !in Keys(ws)
    ensures StoreAfter(ws, torn + {k}) == StoreAfter(ws, torn)
  {
    FirstOccurrencesKeys(ws);
    WithoutIrrelevant(FirstOccurrences(ws), torn, k);
  }

  // ----- One POST moves the store along the stream -----

  /** The store reflects exactly the first `n` events of the stream. */
  ghost predicate Reflects(db: Db, torn: set<string>, all: seq<Write>, n: nat) {
    n <= |all| && db == StoreAfter(all[..n], torn) && torn <= db.seen
  }

  /** The next event of the stream extends the prefix by one: duplicate, applied or torn. */
  lemma ReflectsStep(db: Db, torn: set<string>, all: seq<Write>, n: nat)
    requires Reflects(db, torn, all, n) && n < |all|
    ensures all[n].key in db.seen ==> Reflects(db, torn, all, n + 1)
    ensures all[n].key !in db.seen ==>
      && Reflects(Db(db.seen + {all[n].key}, Effect(db.inventory, all[n])), torn, all, n + 1)
      && Reflects(Db(db.seen + {all[n].key}, db.inventory), torn + {all[n].key}, all, n + 1)
  {
    var w := all[n];
    assert all[..n + 1] == all[..n] + [w];
    StoreStep(all[..n], w, torn);
    if w.key !in db.seen {
      TornLater(all[..n], torn, w.key);
      StoreStep(all[..n], w, torn + {w.key});
    }
  }

  lemma ApplyNext(db: Db, torn: set<string>, all: seq<Write>, n: nat, c: Counts, calls: nat) returns (n': nat)
    requires Reflects(db, torn, all, n) && n < |all|
    ensures n <= n' <= n + 1
    ensures var r := ApplyOne(db, all[n], c, calls);
      if r.Go? then n' == n + 1 && Reflects(r.db, torn, all, n')
      else Reflects(r.db, torn + r.torn, all, n')
  {
    ReflectsStep(db, torn, all, n);
    assert torn + {} == torn;
    n' := if calls == 0 then n else n + 1;
  }

  /** An event of the reflected prefix is a duplicate. */
  lemma ReflectedIsSeen(db: Db, torn: set<string>, all: seq<Write>, n: nat, i: nat)
    requires Reflects(db, torn, all, n) && i < n
    ensures all[i].key in db.seen
  {
    assert all[..n][i] == all[i];
  }

  /** Applying any segment that starts inside the reflected prefix only extends that prefix. */
  lemma {:induction false} ApplySegment(db: Db, torn: set<string>, all: seq<Write>, n: nat, lo: nat, ws: seq<Write>,
                                        c: Counts, calls: nat)
    returns (n': nat)
    requires Reflects(db, torn, all, n)
    requires lo <= n && lo + |ws| <= |all| && all[lo..lo + |ws|] == ws
    ensures n <= n' && (n' <= n || n' <= lo + |ws|)
    ensures ApplyWrites(db, ws, c, calls).ok ==> n' >= lo + |ws|
    ensures Reflects(ApplyWrites(db, ws, c, calls).db, torn + ApplyWrites(db, ws, c, calls).torn, all, n')
    decreases |ws|
  {
    n' := n;
    assert torn + {} == torn;
    if ws != [] {
      assert ws[0] == all[lo] && ws[1..] == all[lo + 1..lo + |ws|];
      var r := ApplyOne(db, ws[0], c, calls);
      if lo < n {
        ReflectedIsSeen(db, torn, all, n, lo);
      } else {
        n' := ApplyNext(db, torn, all, n, c, calls);
      }
      if r.Go? { n' := ApplySegment(r.db, torn, all, n', lo + 1, ws[1..], r.counts, r.calls); }
    }
  }

  // ----- Where each batch lies in the stream -----

  ghost function Mark(srv: Server, bs: seq<Batch>, i: nat): nat
    requires i <= |bs|
  {
    |AllWrites(srv, bs[..i])|
  }

  lemma {:induction false} BatchSegment(srv: Server, bs: seq<Batch>, i: nat)
    requires i < |bs|
    ensures Mark(srv, bs, i) <= Mark(srv, bs, i + 1) <= |AllWrites(srv, bs)|
    ensures AllWrites(srv, bs)[Mark(srv, bs, i)..Mark(srv, bs, i + 1)] == srv.read(bs[i])
    decreases |bs|
  {
    var front := bs[..|bs| - 1];
    if i < |front| {
      BatchSegment(srv, front, i);
      assert bs[..i] == front[..i] && bs[..i + 1] == front[..i + 1];
      var all := AllWrites(srv, front);
      assert AllWrites(srv, bs)[Mark(srv, bs, i)..Mark(srv, bs, i + 1)] == all[Mark(srv, bs, i)..Mark(srv, bs, i + 1)];
    } else {
      assert bs[..i] == front && bs[..i + 1] == bs;
    }
  }

  lemma {:induction false} MarkMonotone(srv: Server, bs: seq<Batch>, i: nat, j: nat)
    requires i <= j <= |bs|
    ensures Mark(srv, bs, i) <= Mark(srv, bs, j) <= |AllWrites(srv, bs)|
    ensures Mark(srv, bs, |bs|) == |AllWrites(srv, bs)|
    decreases j - i
  {
    assert bs[..|bs|] == bs;
    if i < j {
      BatchSegment(srv, bs, i);
      MarkMonotone(srv, bs, i + 1, j);
    } else if i < |bs| {
      BatchSegment(srv, bs, i);
    }
  }

  // ----- The invariant -----

  /** `done` leading batches have been acknowledged at least once; the store reflects the first `n`
      events, which lie between the end of those batches and the end of the next one. */
  ghost predicate Progress(srv: Server, bs: seq<Batch>, db: Db, torn: set<string>, done: nat, n: nat) {
    && done <= |bs|
    && Mark(srv, bs, done) <= n
    && (done < |bs| ==> n <= Mark(srv, bs, done + 1))
    && Reflects(db, torn, AllWrites(srv, bs), n)
  }

  /** The queue file is a suffix of the flush order. */
  ghost predicate IsSuffix(queue: seq<Batch>, bs: seq<Batch>) {
    |queue| <= |bs| && queue == bs[|bs| - |queue|..]
  }

  /** The queue starts at or before the first batch not yet acknowledged. */
  ghost predicate InvAt(srv: Server, s: System, done: nat, n: nat) {
    && Progress(srv, s.flushed, s.db, s.torn, done, n)
    && IsSuffix(s.queue, s.flushed) && |s.flushed| - |s.queue| <= done
    && (forall i :: 0 <= i < |s.flushed| ==> HasPayload(s.flushed[i]))
    && (s.fileOk ==> s.acked + s.queue == s.flushed)
  }

  ghost predicate Inv(srv: Server, s: System) {
    exists done: nat, n: nat :: InvAt(srv, s, done, n)
  }

  /** A batch without events carries no write. */
  ghost predicate Faithful(srv: Server) {
    forall b: Batch :: !HasPayload(b) ==> srv.read(b) == []
  }

  lemma AllDone(srv: Server, bs: seq<Batch>, db: Db, torn: set<string>, n: nat)
    requires Progress(srv, bs, db, torn, |bs|, n)
    ensures n == |AllWrites(srv, bs)|
  {
    MarkMonotone(srv, bs, |bs|, |bs|);
  }

  /** Posting any batch up to the first unacknowledged one keeps the store on the stream. */
  lemma PostKeepsProgress(srv: Server, bs: seq<Batch>, db: Db, torn: set<string>, done: nat, n: nat, i: nat, p: Post)
    returns (done': nat, n': nat)
    requires Progress(srv, bs, db, torn, done, n) && i <= done && i < |bs|
    ensures var a := ServerApply(srv, db, bs[i], p);
            Progress(srv, bs, a.db, torn + a.torn, done', n')
    ensures done <= done' && (Acked(srv, db, bs[i], p) ==> i < done')
  {
    done', n' := done, n;
    assert torn + {} == torn;
    if p.reaches && srv.valid(bs[i]) {
      MarkMonotone(srv, bs, i, done);
      BatchSegment(srv, bs, i);
      n' := ApplySegment(db, torn, AllWrites(srv, bs), n, Mark(srv, bs, i), srv.read(bs[i]), NO_COUNTS, p.calls);
      if i < done {
        MarkMonotone(srv, bs, i + 1, done);
      } else if Acked(srv, db, bs[i], p) {
        done' := i + 1;
        if done' < |bs| { BatchSegment(srv, bs, done'); }
      }
    }
  }

  /** From `s` to `s'` only the store moved and the batches `i..j` were acknowledged, where the replay stopped. */
  ghost predicate Replayed(srv: Server, s: System, i: nat, r: (System, seq<Batch>), j: nat, done: nat, n: nat) {
    && i <= j <= done <= |s.flushed|
    && r.0 == s.(db := r.0.db, torn := r.0.torn, acked := s.acked + s.flushed[i..j])
    && r.1 == s.flushed[j..]
    && Progress(srv, s.flushed, r.0.db, r.0.torn, done, n)
  }

  lemma ReplayedStep(srv: Server, s: System, s1: System, i: nat, r: (System, seq<Batch>), j: nat, done: nat, n: nat)
    requires i < |s.flushed| && s1 == s.(db := s1.db, torn := s1.torn, acked := s.acked + [s.flushed[i]])
    requires Replayed(srv, s1, i + 1, r, j, done, n)
    ensures Replayed(srv, s, i, r, j, done, n)
  {
    assert s.flushed[i..j] == [s.flushed[i]] + s.flushed[i + 1..j];
    assert s1.acked + s.flushed[i + 1..j] == s.acked + s.flushed[i..j];
  }

  /** The replay loop stops at a batch no later than the first unacknowledged one. */
  lemma {:induction false} ReplayKeepsProgress(srv: Server, s: System, done: nat, n: nat, i: nat, lines: seq<Batch>,
                                               posts: seq<Post>)
    returns (done': nat, n': nat, j: nat)
    requires Progress(srv, s.flushed, s.db, s.torn, done, n) && i <= done && lines == s.flushed[i..]
    requires forall i :: 0 <= i < |s.flushed| ==> HasPayload(s.flushed[i])
    ensures Replayed(srv, s, i, ReplayLines(srv, s, lines, posts), j, done', n')
    decreases |lines|
  {
    done', n', j := done, n, i;
    assert s.acked + s.flushed[i..i] == s.acked;
    if lines != [] {
      assert lines[0] == s.flushed[i] && lines[1..] == s.flushed[i + 1..];
      var p := Next(posts);
      var s1 := PostBatch(srv, s, lines[0], p);
      done', n' := PostKeepsProgress(srv, s.flushed, s.db, s.torn, done, n, i, p);
      if Acked(srv, s.db, lines[0], p) {
        var r := ReplayLines(srv, s1, lines[1..], Rest(posts));
        done', n', j := ReplayKeepsProgress(srv, s1, done', n', i + 1, lines[1..], Rest(posts));
        ReplayedStep(srv, s, s1, i, r, j, done', n');
      }
    }
  }

  lemma AckedPrefix(acked: seq<Batch>, queue: seq<Batch>, bs: seq<Batch>, j: nat)
    requires acked + queue == bs && |bs| - |queue| <= j <= |bs|
    ensures acked + bs[|bs| - |queue|..j] + bs[j..] == bs
  {
    assert acked == bs[..|acked|];
  }

  /** The state after a replay, with the file rewritten or not. */
  lemma ReplayedKeeps(srv: Server, s: System, r: (System, seq<Batch>), j: nat, done: nat, n: nat, done': nat, n': nat)
    requires InvAt(srv, s, done, n) && Replayed(srv, s, |s.flushed| - |s.queue|, r, j, done', n')
    ensures InvAt(srv, r.0.(fileOk := false), done', n') && InvAt(srv, r.0.(queue := r.1), done', n')
    ensures r.0.flushed == s.flushed && (r.1 == [] ==> done' == |s.flushed|)
  {
    if s.fileOk { AckedPrefix(s.acked, s.queue, s.flushed, j); }
  }

  /** What a replay that ran to its last line, or to its first failure, leaves behind. */
  lemma ReplayQueuedKeeps(srv: Server, s: System, done: nat, n: nat, posts: seq<Post>, file: FileOps)
    returns (done': nat, n': nat)
    requires InvAt(srv, s, done, n)
    ensures var (s', clear) := ReplayQueued(srv, s, posts, file);
      && InvAt(srv, s', done', n') && s'.flushed == s.flushed
      && (clear ==> s'.queue == [] && done' == |s.flushed|)
  {
    done', n' := done, n;
    if file.readable && s.queue != [] {
      var r, j := ReplayLines(srv, s, s.queue, posts), 0;
      done', n', j := ReplayKeepsProgress(srv, s, done, n, |s.flushed| - |s.queue|, s.queue, posts);
      ReplayedKeeps(srv, s, r, j, done, n, done', n');
    }
  }

  /** A payload batch joins the history: the stream grows at its end. */
  lemma AppendBatch(srv: Server, bs: seq<Batch>, db: Db, torn: set<string>, done: nat, n: nat, b: Batch)
    requires Progress(srv, bs, db, torn, done, n)
    ensures Progress(srv, bs + [b], db, torn, done, n)
  {
    var bs' := bs + [b];
    assert bs'[..|bs|] == bs && bs'[..done] == bs[..done];
    var all, all' := AllWrites(srv, bs), AllWrites(srv, bs');
    assert all' == all + srv.read(b);
    assert all'[..n] == all[..n];
    if done < |bs| {
      assert bs'[..done + 1] == bs[..done + 1];
    } else {
      AllDone(srv, bs, db, torn, n);
      BatchSegment(srv, bs', done);
    }
  }

  lemma SuffixSnoc(queue: seq<Batch>, bs: seq<Batch>, b: Batch)
    requires IsSuffix(queue, bs)
    ensures IsSuffix(queue + [b], bs + [b])
  {
  }

  lemma EnqueueKeeps(srv: Server, s: System, done: nat, n: nat, b: Batch)
    requires InvAt(srv, s, done, n)
    ensures InvAt(srv, Enqueue(s, b), done, n)
  {
    if HasPayload(b) {
      AppendBatch(srv, s.flushed, s.db, s.torn, done, n, b);
      SuffixSnoc(s.queue, s.flushed, b);
      assert s.acked + (s.queue + [b]) == (s.acked + s.queue) + [b];
    }
  }

  lemma DirectAcked(srv: Server, s: System, s': System, b: Batch, done: nat, n: nat)
    requires s.queue == [] && IsSuffix(s.queue, s.flushed) && HasPayload(b)
    requires forall i :: 0 <= i < |s.flushed| ==> HasPayload(s.flushed[i])
    requires s.fileOk ==> s.acked + s.queue == s.flushed
    requires s' == s.(db := s'.db, torn := s'.torn, flushed := s.flushed + [b], acked := s.acked + [b])
    requires Progress(srv, s'.flushed, s'.db, s'.torn, done, n) && done == |s'.flushed|
    ensures InvAt(srv, s', done, n)
  {
    assert s.acked + [] == s.acked;
    assert s'.acked + [] == s'.acked;
  }

  lemma DirectQueued(srv: Server, s: System, s': System, b: Batch, done: nat, n: nat)
    requires s.queue == [] && IsSuffix(s.queue, s.flushed) && HasPayload(b)
    requires forall i :: 0 <= i < |s.flushed| ==> HasPayload(s.flushed[i])
    requires s.fileOk ==> s.acked + s.queue == s.flushed
    requires s' == s.(db := s'.db, torn := s'.torn, flushed := s.flushed + [b], queue := [b])
    requires Progress(srv, s'.flushed, s'.db, s'.torn, done, n) && |s.flushed| <= done
    ensures InvAt(srv, s', done, n)
  {
    assert s.acked + [] == s.acked;
  }

  /** The direct post of a new payload batch, with nothing queued before it. */
  lemma DirectPost(srv: Server, s: System, done: nat, n: nat, b: Batch, p: Post) returns (done': nat, n': nat)
    requires InvAt(srv, s, done, n) && s.queue == [] && done == |s.flushed| && HasPayload(b)
    ensures Acked(srv, s.db, b, p) ==> InvAt(srv, PostBatch(srv, s, b, p).(flushed := s.flushed + [b]), done', n')
    ensures !Acked(srv, s.db, b, p) ==> InvAt(srv, Enqueue(PostBatch(srv, s, b, p), b), done', n')
  {
    var bs := s.flushed + [b];
    AppendBatch(srv, s.flushed, s.db, s.torn, done, n, b);
    assert bs[done] == b;
    done', n' := PostKeepsProgress(srv, bs, s.db, s.torn, done, n, done, p);
    var s' := PostBatch(srv, s, b, p);
    if Acked(srv, s.db, b, p) {
      DirectAcked(srv, s, s'.(flushed := bs), b, done', n');
    } else {
      DirectQueued(srv, s, Enqueue(s', b), b, done', n');
    }
  }

  /** Every flush keeps the invariant, whatever the network, the store and the queue file do. */
  lemma FlushKeeps(srv: Server, s: System, b: Batch, f: Fate) returns (done': nat, n': nat)
    requires Inv(srv, s) && Faithful(srv)
    ensures InvAt(srv, Flush(srv, s, b, f), done', n')
  {
    var done: nat, n: nat :| InvAt(srv, s, done, n);
    done', n' := ReplayQueuedKeeps(srv, s, done, n, f.posts, f.file);
    var (s', clear) := ReplayQueued(srv, s, f.posts, f.file);
    if !clear {
      EnqueueKeeps(srv, s', done', n', b);
    } else if HasPayload(b) {
      done', n' := DirectPost(srv, s', done', n', b, f.direct);
    } else {
      assert s'.torn + {} == s'.torn;
    }
  }

  lemma NothingStored()
    ensures Keys([]) == {} && StoreAfter([], {}) == INITIAL.db
  {
  }

  lemma {:induction false} RunInvariant(srv: Server, steps: seq<Step>)
    requires Faithful(srv)
    ensures Inv(srv, Run(srv, INITIAL, steps))
    decreases |steps|
  {
    if steps == [] {
      NothingStored();
      assert AllWrites(srv, [])[..0] == [];
      assert InvAt(srv, INITIAL, 0, 0);
    } else {
      var front, last := steps[..|steps| - 1], steps[|steps| - 1];
      RunInvariant(srv, front);
      var done, n := FlushKeeps(srv, Run(srv, INITIAL, front), last.batch, last.fate);
    }
  }

  // ----- The laws -----

  /** The payload batches of a run, in flush order. */
  ghost function PayloadBatches(steps: seq<Step>): seq<Batch> {
    if steps == [] then []
    else PayloadBatches(steps[..|steps| - 1]) +
         if HasPayload(steps[|steps| - 1].batch) then [steps[|steps| - 1].batch] else []
  }

  predicate CarriesEvents(step: Step) {
    step.batch.events != [] || step.batch.k8sEvents != []
  }

  predicate BatchOfStep(step: Step, b: Batch) {
    b == step.batch
  }

  /** The payload batches are those with an event of either sort, in order; only bare heartbeats are left out. */
  lemma {:induction false} PayloadExact(steps: seq<Step>)
    ensures Sorting.Picks(CarriesEvents, BatchOfStep, steps, PayloadBatches(steps))
    decreases |steps|
  {
    if steps != [] {
      var front, last := steps[..|steps| - 1], steps[|steps| - 1];
      PayloadExact(front);
      Sorting.PicksSnoc(CarriesEvents, BatchOfStep, front, PayloadBatches(front), last,
        if CarriesEvents(last) then [last.batch] else []);
      assert front + [last] == steps;
    }
  }

  /** Posting never adds to the flush order. */
  lemma {:induction false} ReplayFlushes(srv: Server, s: System, lines: seq<Batch>, posts: seq<Post>)
    ensures ReplayLines(srv, s, lines, posts).0.flushed == s.flushed
    decreases |lines|
  {
    if lines != [] && Acked(srv, s.db, lines[0], Next(posts)) {
      ReplayFlushes(srv, PostBatch(srv, s, lines[0], Next(posts)), lines[1..], Rest(posts));
    }
  }

  lemma {:induction false} FlushedIsPayload(srv: Server, steps: seq<Step>)
    ensures Run(srv, INITIAL, steps).flushed == PayloadBatches(steps)
    decreases |steps|
  {
    if steps != [] {
      var front, last := steps[..|steps| - 1], steps[|steps| - 1];
      FlushedIsPayload(srv, front);
      ReplayFlushes(srv, Run(srv, INITIAL, front), Run(srv, INITIAL, front).queue, last.fate.posts);
    }
  }

  lemma CollectorIsFaithful()
    ensures Faithful(COLLECTOR)
  {
  }

  /** The event stream a run has flushed, as the server reads it. */
  ghost function Stream(steps: seq<Step>): seq<Write> {
    AllWrites(COLLECTOR, PayloadBatches(steps))
  }

  function Reached(steps: seq<Step>): System {
    Run(COLLECTOR, INITIAL, steps)
  }

  lemma ReachedSnoc(steps: seq<Step>, step: Step)
    ensures Reached(steps + [step]) == Flush(COLLECTOR, Reached(steps), step.batch, step.fate)
  {
    assert (steps + [step])[..|steps|] == steps;
  }

  /** The prefix a store has reached, the whole stream once the queue is empty. */
  lemma StorePrefix(srv: Server, s: System, done: nat, n: nat)
    requires InvAt(srv, s, done, n)
    ensures var all := AllWrites(srv, s.flushed);
      n <= |all| && s.db == StoreAfter(all[..n], s.torn) && (s.queue == [] ==> n == |all|)
  {
    if s.queue == [] { AllDone(srv, s.flushed, s.db, s.torn, n); }
  }

  lemma StoreFollowsFlushes(srv: Server, steps: seq<Step>) returns (n: nat)
    requires Faithful(srv)
    ensures var s, all := Run(srv, INITIAL, steps), AllWrites(srv, PayloadBatches(steps));
      n <= |all| && s.db == StoreAfter(all[..n], s.torn) && (s.queue == [] ==> n == |all|)
  {
    RunInvariant(srv, steps);
    FlushedIsPayload(srv, steps);
    var s := Run(srv, INITIAL, steps);
    var done: nat, m: nat :| InvAt(srv, s, done, m);
    n := m;
    StorePrefix(srv, s, done, n);
  }

  /** At every moment the server's store is that of some prefix of the flushed event stream, each key
      applied once and in order; once the queue is empty the prefix is the whole stream. */
  lemma StoreFollowsStream(steps: seq<Step>) returns (n: nat)
    ensures n <= |Stream(steps)| && Reached(steps).db == StoreAfter(Stream(steps)[..n], Reached(steps).torn)
    ensures Reached(steps).queue == [] ==> n == |Stream(steps)|
  {
    CollectorIsFaithful();
    n := StoreFollowsFlushes(COLLECTOR, steps);
  }

  lemma {:induction false} WithoutNothing(ws: seq<Write>)
    ensures Without(ws, {}) == ws
    decreases |ws|
  {
    if ws != [] {
      WithoutNothing(ws[..|ws| - 1]);
      assert ws == ws[..|ws| - 1] + [ws[|ws| - 1]];
    }
  }

  /** Exactly-once effect: with an empty queue and no torn write, the inventory is the fold of the
      flushed events in flush order, keeping only the first of each key. */
  lemma DeliveredExactlyOnce(steps: seq<Step>)
    requires Reached(steps).queue == [] && Reached(steps).torn == {}
    ensures Reached(steps).db.inventory == Replay(FirstOccurrences(Stream(steps)))
  {
    var n := StoreFollowsStream(steps);
    assert Stream(steps)[..n] == Stream(steps);
    WithoutNothing(FirstOccurrences(Stream(steps)));
  }

  /** While every queue-file operation works: what was acknowledged, then what is queued, is what was
      flushed. Nothing is lost, reordered, or posted ahead of an older batch. */
  lemma NoLossNoReordering(steps: seq<Step>)
    ensures Reached(steps).fileOk ==> Reached(steps).acked + Reached(steps).queue == PayloadBatches(steps)
  {
    CollectorIsFaithful();
    RunInvariant(COLLECTOR, steps);
    FlushedIsPayload(COLLECTOR, steps);
  }

  // ----- Torn writes: the one way a row can go wrong -----

  ghost function Row(inv: Inventory, id: InventoryId): Option<Item> {
    if id in inv then Some(inv[id]) else None
  }

  /** The last event of a stream that concerns a row. */
  ghost function LastOn(ws: seq<Write>, id: InventoryId): Option<Write> {
    if ws == [] then None
    else if ws[|ws| - 1].id == id then Some(ws[|ws| - 1])
    else LastOn(ws[..|ws| - 1], id)
  }

  ghost function RowAfter(w: Option<Write>): Option<Item> {
    if w.None? || w.value.verb == Deleted then None else Some(w.value.item)
  }

  lemma {:induction false} ReplayRow(ws: seq<Write>, id: InventoryId)
    ensures Row(Replay(ws), id) == RowAfter(LastOn(ws, id))
    decreases |ws|
  {
    if ws != [] { ReplayRow(ws[..|ws| - 1], id); }
  }

  lemma {:induction false} LastOnWithout(ws: seq<Write>, torn: set<string>, id: InventoryId)
    requires LastOn(ws, id).Some? ==> LastOn(ws, id).value.key !in torn
    ensures LastOn(Without(ws, torn), id) == LastOn(ws, id)
    decreases |ws|
  {
    if ws != [] {
      var front, last := ws[..|ws| - 1], ws[|ws| - 1];
      if last.id != id { LastOnWithout(front, torn, id); }
      var w := Without(front, torn);
      assert w + [] == w && (w + [last])[..|w|] == w;
    }
  }

  /** Whatever failed during the run: once the queue is empty, a row is what its last event says, unless
      that very event was torn; then it is what the last event that was not torn says. */
  lemma RowsAfterDrain(steps: seq<Step>, id: InventoryId)
    requires Reached(steps).queue == []
    ensures var first := FirstOccurrences(Stream(steps));
      var torn := Reached(steps).torn;
      var row := Row(Reached(steps).db.inventory, id);
      && row == RowAfter(LastOn(Without(first, torn), id))
      && ((LastOn(first, id).Some? && LastOn(first, id).value.key in torn) || row == RowAfter(LastOn(first, id)))
  {
    var n := StoreFollowsStream(steps);
    assert Stream(steps)[..n] == Stream(steps);
    var first := FirstOccurrences(Stream(steps));
    var torn := Reached(steps).torn;
    ReplayRow(Without(first, torn), id);
    if !(LastOn(first, id).Some? && LastOn(first, id).value.key in torn) { LastOnWithout(first, torn, id); }
  }

  lemma SameRows(a: Inventory, b: Inventory)
    requires forall id :: Row(a, id) == Row(b, id)
    ensures a == b
  {
    forall id ensures (id in a <==> id in b) && (id in a ==> a[id] == b[id]) { assert Row(a, id) == Row(b, id); }
  }

  /** Wherever the last event of a row was torn, the last one that was not torn leaves the row the same. */
  ghost predicate TearsUnnoticed(first: seq<Write>, torn: set<string>) {
    forall id :: LastOn(first, id).Some? && LastOn(first, id).value.key in torn ==>
      RowAfter(LastOn(Without(first, torn), id)) == RowAfter(LastOn(first, id))
  }

  /** Exactly when a drained run has the right inventory, torn writes included. */
  lemma DrainedExactly(steps: seq<Step>)
    requires Reached(steps).queue == []
    ensures var first := FirstOccurrences(Stream(steps));
      Reached(steps).db.inventory == Replay(first) <==> TearsUnnoticed(first, Reached(steps).torn)
  {
    var first, torn, inv := FirstOccurrences(Stream(steps)), Reached(steps).torn, Reached(steps).db.inventory;
    forall id
      ensures Row(inv, id) == RowAfter(LastOn(Without(first, torn), id))
      ensures (LastOn(first, id).Some? && LastOn(first, id).value.key in torn)
        || Row(inv, id) == RowAfter(LastOn(first, id))
      ensures Row(Replay(first), id) == RowAfter(LastOn(first, id))
    {
      RowsAfterDrain(steps, id);
      ReplayRow(first, id);
    }
    if TearsUnnoticed(first, torn) { SameRows(inv, Replay(first)); }
  }

  /** Enough store calls to record one key, and no more. */
  const ONE_CALL := Post(true, 1, 0, true)

  const FILE_OK := FileOps(true, true)

  /** The key is recorded, the inventory write fails, and the agent sees an error. */
  lemma FirstDelivery(srv: Server, db: Db, b: Batch, w: Write)
    requires srv.valid(b) && srv.read(b) == [w] && w.verb != Deleted && w.key !in db.seen
    ensures ServerApply(srv, db, b, ONE_CALL).db == Db(db.seen + {w.key}, db.inventory)
    ensures ServerApply(srv, db, b, ONE_CALL).torn == {w.key}
    ensures !Acked(srv, db, b, ONE_CALL)
  {
  }

  /** The redelivery finds the key, changes nothing and is acknowledged. */
  lemma SecondDelivery(srv: Server, db: Db, b: Batch, w: Write, p: Post)
    requires srv.valid(b) && srv.read(b) == [w] && w.key in db.seen
    requires p.reaches && p.answered && p.calls >= 1 + srv.tail(b, CountDuplicate(NO_COUNTS, w.id.kind), p.findings)
    ensures ServerApply(srv, db, b, p).db == db && ServerApply(srv, db, b, p).torn == {}
    ensures Acked(srv, db, b, p)
  {
    var r := ApplyOne(db, w, NO_COUNTS, p.calls);
    assert [w][1..] == [];
    assert ApplyWrites(db, [w], NO_COUNTS, p.calls) == ApplyWrites(r.db, [], r.counts, r.calls);
  }

  /** The first flush tears the write; the heartbeat flush redelivers the batch. */
  lemma TornRun(srv: Server, b: Batch, w: Write, heartbeat: Batch, p: Post)
    requires HasPayload(b) && srv.valid(b) && srv.read(b) == [w] && w.verb != Deleted && !HasPayload(heartbeat)
    requires p.reaches && p.answered && p.calls >= 1 + srv.tail(b, CountDuplicate(NO_COUNTS, w.id.kind), p.findings)
    ensures var s1 := Flush(srv, INITIAL, b, Fate([], ONE_CALL, FILE_OK));
      && s1 == System([b], Db({w.key}, map[]), [b], [], {w.key}, true)
      && Flush(srv, s1, heartbeat, Fate([p], LOST, FILE_OK)) == s1.(queue := [], acked := [b])
  {
    FirstDelivery(srv, INITIAL.db, b, w);
    var s1 := Flush(srv, INITIAL, b, Fate([], ONE_CALL, FILE_OK));
    assert {} + {w.key} == {w.key} && [] + [b] == [b];
    SecondDelivery(srv, s1.db, b, w, p);
    assert s1.torn + {} == s1.torn;
    var s2 := PostBatch(srv, s1, b, p);
    assert [b][1..] == [];
    assert ReplayLines(srv, s1, [b], [p]) == ReplayLines(srv, s2, [], Rest([p])) == (s2, []);
  }

  lemma SingleWrite(srv: Server, b: Batch, w: Write)
    requires srv.read(b) == [w]
    ensures AllWrites(srv, [b]) == [w]
    ensures w.verb != Deleted ==> w.id in Replay(FirstOccurrences([w]))
  {
    assert [b][..0] == [] && [w][..0] == [];
    assert AllWrites(srv, [b]) == [] + [w];
    assert FirstOccurrences([w]) == [] + [w];
  }

  lemma TwoSteps(srv: Server, st1: Step, st2: Step)
    ensures Run(srv, INITIAL, [st1, st2]) ==
            Flush(srv, Flush(srv, INITIAL, st1.batch, st1.fate), st2.batch, st2.fate)
  {
    assert [st1, st2][..1] == [st1] && [st1][..0] == [];
    assert Run(srv, INITIAL, [st1]) == Flush(srv, INITIAL, st1.batch, st1.fate);
  }

  lemma TwoFlushes(st1: Step, st2: Step)
    requires HasPayload(st1.batch) && !HasPayload(st2.batch)
    ensures PayloadBatches([st1, st2]) == [st1.batch]
  {
    assert [st1, st2][..1] == [st1] && [st1][..0] == [];
    assert PayloadBatches([st1]) == [] + [st1.batch];
  }

  /** A torn upsert is lost for good: the redelivered event is taken for a duplicate, the queue drains
      and the row is missing, for any server of this shape. */
  lemma TornUpsertIsLost(srv: Server, b: Batch, w: Write, heartbeat: Batch, p: Post)
    requires HasPayload(b) && srv.valid(b) && srv.read(b) == [w] && w.verb != Deleted && !HasPayload(heartbeat)
    requires p.reaches && p.answered && p.calls >= 1 + srv.tail(b, CountDuplicate(NO_COUNTS, w.id.kind), p.findings)
    ensures
      var steps := [Step(b, Fate([], ONE_CALL, FILE_OK)), Step(heartbeat, Fate([p], LOST, FILE_OK))];
      var s := Run(srv, INITIAL, steps);
      && s.queue == [] && s.acked == [b] == PayloadBatches(steps)
      && w.id !in s.db.inventory
      && w.id in Replay(FirstOccurrences(AllWrites(srv, PayloadBatches(steps))))
  {
    var st1, st2 := Step(b, Fate([], ONE_CALL, FILE_OK)), Step(heartbeat, Fate([p], LOST, FILE_OK));
    TornRun(srv, b, w, heartbeat, p);
    TwoSteps(srv, st1, st2);
    TwoFlushes(st1, st2);
    SingleWrite(srv, b, w);
  }

  // A batch with one event, and the heartbeat after it.
  const SAMPLE_EVENT := AgentEvent("ADDED", "1", Collector.Item("Pod", "ns", "web", "u", "t", "spec"))

  const SAMPLE_BATCH := Batch("c", "a", "1", "t", [SAMPLE_EVENT], [])
  const SAMPLE_HEARTBEAT := Batch("c", "a", "1", "t", [], [])
  const SAMPLE_ID := InventoryId("c", "Pod", "ns", "web")

  lemma SampleRead() returns (w: Write)
    ensures ValidBatch(SAMPLE_BATCH) && Writes(SAMPLE_BATCH) == [w] && w.verb == Added && w.id == SAMPLE_ID
  {
    TrimSpaceFixedPoints("c");
    TrimSpaceFixedPoints("a");
    TrimSpaceFixedPoints("Pod");
    TrimSpaceFixedPoints("web");
    TrimSpaceFixedPoints("ADDED");
    assert Trimmed("c") && Trimmed("a") && Trimmed("Pod") && Trimmed("web") && Trimmed("ADDED");
    assert Upper("ADDED") == "ADDED";
    assert ParseVerb("ADDED") == Some(Added);
    var events := SAMPLE_BATCH.events;
    w := Classify(SAMPLE_BATCH, events[0]).value;
    assert events[1..] == [];
    assert WritesOf(SAMPLE_BATCH, events) == [w] + WritesOf(SAMPLE_BATCH, events[1..]);
  }

  /** A concrete run against this server: the pod's only event is acknowledged, and the pod is missing. */
  lemma SampleUpsertIsLost()
    ensures var steps := [Step(SAMPLE_BATCH, Fate([], ONE_CALL, FILE_OK)),
                          Step(SAMPLE_HEARTBEAT, Fate([Post(true, 4, 0, true)], LOST, FILE_OK))];
      && Reached(steps).queue == [] && Reached(steps).acked == [SAMPLE_BATCH] == PayloadBatches(steps)
      && SAMPLE_ID !in Reached(steps).db.inventory && SAMPLE_ID in Replay(FirstOccurrences(Stream(steps)))
  {
    var w := SampleRead();
    var c := CountDuplicate(NO_COUNTS, "Pod");
    assert c.seen.Keys + c.duplicates.Keys == {"Pod"};
    TornUpsertIsLost(COLLECTOR, SAMPLE_BATCH, w, SAMPLE_HEARTBEAT, Post(true, 4, 0, true));
  }

  // ----- Progress: a healthy flush drains the queue -----

  /** A valid batch that gets through, to a store that answers every call. */
  predicate Healthy(p: Post, b: Batch) {
    p.reaches && p.answered && ValidBatch(b) && p.calls >= 4 * |b.events| + |b.k8sEvents| + p.findings + 2
  }

  lemma {:induction false} WritesBound(b: Batch, events: seq<AgentEvent>)
    ensures |WritesOf(b, events)| <= |events|
    decreases |events|
  {
    if events != [] { WritesBound(b, events[1..]); }
  }

  lemma HealthyIsAcked(db: Db, b: Batch, p: Post)
    requires Healthy(p, b)
    ensures Acked(COLLECTOR, db, b, p)
  {
    WritesBound(b, b.events);
    HealthyStoreAccepts(db, b, p.calls, p.findings);
  }

  lemma {:induction false} HealthyReplay(s: System, lines: seq<Batch>, posts: seq<Post>)
    requires |posts| >= |lines| && forall i :: 0 <= i < |lines| ==> Healthy(posts[i], lines[i])
    ensures ReplayLines(COLLECTOR, s, lines, posts).1 == []
    decreases |lines|
  {
    if lines != [] {
      HealthyIsAcked(s.db, lines[0], posts[0]);
      HealthyReplay(PostBatch(COLLECTOR, s, lines[0], posts[0]), lines[1..], posts[1..]);
    }
  }

  /** After any history, one flush over a healthy network empties the queue and brings the store level
      with everything flushed, the new batch included. */
  lemma HealthyFlushDrains(steps: seq<Step>, b: Batch, f: Fate)
    requires f.file == FILE_OK && Healthy(f.direct, b)
    requires var q := Reached(steps).queue;
      |f.posts| >= |q| && forall i :: 0 <= i < |q| ==> Healthy(f.posts[i], q[i])
    ensures var steps' := steps + [Step(b, f)];
      && Reached(steps').queue == []
      && Reached(steps').db == StoreAfter(Stream(steps'), Reached(steps').torn)
  {
    var steps' := steps + [Step(b, f)];
    var s := Reached(steps);
    assert steps'[..|steps|] == steps;
    HealthyReplay(s, s.queue, f.posts);
    var (s', clear) := ReplayQueued(COLLECTOR, s, f.posts, f.file);
    HealthyIsAcked(s'.db, b, f.direct);
    var n := StoreFollowsStream(steps');
    assert Stream(steps')[..n] == Stream(steps');
  }
}
