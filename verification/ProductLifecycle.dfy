/** The life of data products: every handler that writes one, and which of them keep the promise that a
    published product has passed the gate as it is stored. */
module ProductLifecycle {
  import opened Text
  import opened PublishGate
  import opened ProductGate

  /** A gate evaluation: the records and the moment it looked at. */
  datatype Check = Check(records: Records, now: int)

  /** The catalog, the keys retired for good, and for published products the check that let them go live. */
  datatype State = State(products: map<string, Product>, retired: set<string>, checks: map<string, Check>)

  /** Who calls, and whether the database takes the write. */
  datatype Call = Call(actor: string, taken: bool)

  datatype Action = Submit | Approve | Reject | Archive

  datatype Op =
    | Upsert(req: Product, clean: bool, records: Records, now: int, call: Call)
    | Publish(key: string, records: Records, now: int, call: Call)
    | Move(key: string, action: Action, call: Call)
    | Review(key: string, approve: bool, call: Call)
    | SetStatus(key: string, archive: bool, call: Call)
    | Define(product: Product, call: Call)
    | CheckRisk(key: string, risk: int, call: Call)
    | PlanPOC(key: string, plan: string, call: Call)
    | Rescore(key: string, revenue: int, risk: int, call: Call)
    | Feedback(key: string, revenue: int, call: Call)
    | RecordOutcome(key: string, success: bool, conversion: string, call: Call)
    | Delete(key: string, call: Call)

  const PUBLISHED := "published"

  // ----- Rows -----

  predicate SourceTypeKnown(t: string) {
    t in {"dataset", "api", "report", "score", "segment", "model_feature", "dashboard", "saved_report", "metric",
      "golden_query", "custom"}
  }

  predicate StatusKnown(s: string) {
    s in {"", "draft", "review", "risk_review", "approved", "published", "archived"}
  }

  function OrElse(s: string, fallback: string): string {
    if s == "" then fallback else s
  }

  predicate ValidRequest(req: Product, clean: bool) {
    && !Blank(req.key) && !Blank(req.nameKO) && clean
    && SourceTypeKnown(OrElse(TrimSpace(req.sourceType), "custom"))
    && StatusKnown(TrimSpace(req.status))
  }

  function RowOf(req: Product, actor: string): Product {
    req.(key := TrimSpace(req.key), nameKO := TrimSpace(req.nameKO),
      sourceType := OrElse(TrimSpace(req.sourceType), "custom"),
         sourceRef := TrimSpace(req.sourceRef), sensitivity := TrimSpace(req.sensitivity),
         status := OrElse(TrimSpace(req.status), "draft"), updatedBy := actor)
  }

  /** What the store fills in. */
  function Defaults(p: Product): Product {
    p.(key := TrimSpace(p.key), sensitivity := OrElse(p.sensitivity, "internal"),
      sourceType := OrElse(p.sourceType, "custom"),
       status := OrElse(p.status, "draft"))
  }

  /** The row after a write; retired keys are refused. A row that is not published needs no check. */
  function Written(st: State, p: Product, check: Option<Check>, taken: bool): State {
    var q := Defaults(p);
    if !taken || q.key in st.retired then st
    else State(st.products[q.key := q], st.retired,
               if q.status != PUBLISHED then st.checks - {q.key}
               else if check.Some? then st.checks[q.key := check.value]
               else st.checks)
  }

  // ----- The handlers, as steps -----

  function From(a: Action): set<string> {
    match a
    case Submit => {"draft"}
    case Approve => {"review", "risk_review"}
    case Reject => {"review", "risk_review", "approved"}
    case Archive => {"published"}
  }

  function Towards(a: Action): string {
    match a
    case Submit => "review"
    case Approve => "approved"
    case Reject => "draft"
    case Archive => "archived"
  }

  predicate Candidate(conversion: string) {
    EqualFold(FirstNonEmpty([conversion, "recorded"]), "contract_candidate")
  }

  /** A successful proof of concept that ends in a contract candidate publishes an approved product. */
  function AfterOutcome(p: Product, success: bool, conversion: string, actor: string): Product {
    if !success then p.(revenueScore := Clamp(p.revenueScore - 4), updatedBy := actor)
    else p.(revenueScore := Clamp(p.revenueScore + 8), updatedBy := actor,
            status := if Candidate(conversion) && p.status == "approved" then PUBLISHED else p.status)
  }

  function Rescored(p: Product, revenue: int, risk: int, call: Call): Product {
    p.(revenueScore := revenue, riskScore := risk, updatedBy := call.actor)
  }

  ghost function Next(st: State, op: Op): State {
    match op
    case Upsert(req, clean, records, now, call) =>
      var p := RowOf(req, call.actor);
      if !ValidRequest(req, clean) || (p.status == PUBLISHED && !GateAllows(p, records, now)) then st
      else Written(st, p, Some(Check(records, now)), call.taken)
    case Publish(key, records, now, call) =>
      if key !in st.products || !GateAllows(st.products[key], records, now) then st
      else Written(st, st.products[key].(status := PUBLISHED, updatedBy := call.actor), Some(Check(records, now)),
        call.taken)
    case Move(key, action, call) =>
      if key !in st.products || st.products[key].status !in From(action) then st
      else Written(st, st.products[key].(status := Towards(action), updatedBy := call.actor), None, call.taken)
    case Review(key, approve, call) =>
      if key !in st.products then st
      else Written(st, st.products[key].(status := if approve then "approved" else "draft", updatedBy := call.actor),
        None, call.taken)
    case SetStatus(key, archive, call) =>
      if key !in st.products then st
      else Written(st, st.products[key].(status := if archive then "archived" else "approved", updatedBy := call.actor),
        None, call.taken)
    case Define(product, call) => Written(st, product.(status := "review", updatedBy := call.actor), None, call.taken)
    case CheckRisk(key, risk, call) =>
      if key !in st.products then st
      else Written(st, st.products[key].(riskScore := risk, status := "risk_review", updatedBy := call.actor), None,
        call.taken)
    case PlanPOC(key, plan, call) =>
      if key !in st.products then st
      else Written(st, st.products[key].(pocPlan := plan, updatedBy := call.actor), None, call.taken)
    case Rescore(key, revenue, risk, call) =>
      if key !in st.products then st
      else Written(st, Rescored(st.products[key], revenue, risk, call), None, call.taken)
    case Feedback(key, revenue, call) =>
      if key !in st.products then st
      else Written(st, st.products[key].(revenueScore := revenue, updatedBy := call.actor), None, call.taken)
    case RecordOutcome(key, success, conversion, call) =>
      if key !in st.products then st
      else Written(st, AfterOutcome(st.products[key], success, conversion, call.actor), None, call.taken)
    case Delete(key, call) =>
      if key !in st.products || !call.taken then st
      else State(st.products - {key}, st.retired + {key}, st.checks - {key})
  }

  ghost function Run(ops: seq<Op>): State {
    if ops == [] then State(map[], {}, map[]) else Next(Run(ops[..|ops| - 1]), ops[|ops| - 1])
  }

  /** The moves of the workflow. */
  predicate Moves(a: Action, before: string, after: string) {
    match a
    case Submit => before == "draft" && after == "review"
    case Approve => (before == "review" || before == "risk_review") && after == "approved"
    case Reject => (before == "review" || before == "risk_review" || before == "approved") && after == "draft"
    case Archive => before == "published" && after == "archived"
  }

  lemma MovesExact(a: Action, before: string)
    ensures before in From(a) <==> Moves(a, before, Towards(a))
    ensures forall after :: Moves(a, before, after) ==> after == Towards(a)
  {
  }

  /** The recorded conversion, when there is one, decides. */
  lemma CandidateExact(conversion: string)
    ensures Candidate(conversion) <==> EqualFold(TrimSpace(conversion), "contract_candidate")
  {
    FirstOfTwo(conversion, "recorded");
    TrimSpaceFixedPoints("recorded");
    assert Trimmed("recorded") && |"recorded"| == 8 && |"contract_candidate"| == 18;
    TrimSpaceFixedPoints("");
  }

  // ----- Invariants -----

  ghost predicate KeyedRow(k: string, p: Product) {
    && p.key == k && Trimmed(k) && TrimSpace(k) == k
    && p.sensitivity != "" && p.sourceType != "" && p.status != ""
  }

  /** Rows sit under their own key, with the store's defaults filled in, and never under a retired key; only
      published rows keep a check. */
  ghost predicate Valid(st: State) {
    && (forall k :: k in st.products ==> KeyedRow(k, st.products[k]))
    && (forall k :: k in st.retired ==> k !in st.products)
    && (forall k :: k in st.checks ==> k in st.products && st.products[k].status == PUBLISHED)
  }

  ghost predicate Passed(p: Product, c: Check) {
    GateAllows(p, c.records, c.now)
  }

  ghost predicate CertifiedBy(st: State, passes: (Product, Check) -> bool) {
    forall k :: k in st.products && st.products[k].status == PUBLISHED ==>
      k in st.checks && passes(st.products[k], st.checks[k])
  }

  /** Every published product passed the gate on the very fields that are stored. */
  ghost predicate Certified(st: State) {
    CertifiedBy(st, Passed)
  }

  lemma {:induction false} NotContained(s: string, needle: string)
    requires needle != "" && forall i :: 0 <= i < |s| && i + |needle| <= |s| ==> s[i] != needle[0]
    ensures !Contains(s, needle)
    decreases |s|
  {
    if s != [] && |needle| <= |s| {
      assert s[0] != needle[0] && s[..|needle|][0] == s[0];
      NotContained(s[1..], needle);
    }
  }

  lemma InternalIsNotSensitive()
    ensures !Sensitive("") && !Sensitive("internal")
  {
    var s := "internal";
    TrimSpaceFixedPoints(s);
    TrimSpaceFixedPoints("");
    assert Trimmed(s) && Trimmed("");
    assert forall i :: 0 <= i < |s| ==> LowerChar(s[i]) == s[i];
    assert Normalize(s) == s && Normalize("") == "";
    NotContained(s, "restricted");
    NotContained(s, "personal");
    NotContained(s, "credit");
    NotContained(s, "pseudonym");
    NotContained(s, "sensitive");
  }

  /** What the store fills in does not change the verdict. */
  lemma DefaultsSameForGate(p: Product)
    ensures SameForGate(p, Defaults(p))
  {
    InternalIsNotSensitive();
    TrimSpaceFixedPoints("custom");
    TrimSpaceFixedPoints("");
    assert Trimmed("custom");
    assert |Normalize("custom")| == 6 && |Normalize("")| == 0;
  }

  /** A row with its store defaults is written as it is. */
  lemma WrittenAsIs(st: State, key: string, q: Product, check: Option<Check>, taken: bool)
    requires Valid(st) && key in st.products
    requires q.key == key && q.sensitivity != "" && q.sourceType != "" && q.status != ""
    ensures key !in st.retired
    ensures Written(st, q, check, taken).products == if taken then st.products[key := q] else st.products
  {
    assert KeyedRow(key, st.products[key]);
    assert Defaults(q) == q;
  }

  /** The statuses the other handlers leave behind: archived or approved by choice, in review when defined, in risk
      review after a risk check, and the status from before after plans, scores and feedback. */
  lemma StatusesStored(st: State, op: Op, key: string)
    requires Valid(st) && key in st.products && op.call.taken
    requires match op
             case SetStatus(k, _, _) => k == key
             case CheckRisk(k, _, _) => k == key
             case PlanPOC(k, _, _) => k == key
             case Rescore(k, _, _, _) => k == key
             case Feedback(k, _, _) => k == key
             case Define(p, _) => TrimSpace(p.key) == key
             case _ => false
    ensures var was, rows := st.products[key], Next(st, op).products;
      && key in rows && rows.Keys == st.products.Keys
      && (forall k :: k in rows && k != key ==> rows[k] == st.products[k])
      && rows[key].updatedBy == op.call.actor
      && match op
         case SetStatus(_, archive, _) => rows[key].status == if archive then "archived" else "approved"
         case CheckRisk(_, risk, _) => rows[key].status == "risk_review" && rows[key].riskScore == risk
         case PlanPOC(_, plan, _) => rows[key] == was.(pocPlan := plan, updatedBy := op.call.actor)
         case Feedback(_, revenue, _) => rows[key] == was.(revenueScore := revenue, updatedBy := op.call.actor)
         case Rescore(_, revenue, risk, _) =>
           rows[key] == was.(revenueScore := revenue, riskScore := risk, updatedBy := op.call.actor)
         case Define(p, _) => rows[key].status == "review" && rows[key].nameKO == p.nameKO
         case _ => true
  {
    assert KeyedRow(key, st.products[key]);
    var p := st.products[key];
    match op
    case SetStatus(_, archive, call) =>
      WrittenAsIs(st, key, p.(status := if archive then "archived" else "approved", updatedBy := call.actor), None,
        true);
    case CheckRisk(_, risk, call) =>
      WrittenAsIs(st, key, p.(riskScore := risk, status := "risk_review", updatedBy := call.actor), None, true);
    case PlanPOC(_, plan, call) => WrittenAsIs(st, key, p.(pocPlan := plan, updatedBy := call.actor), None, true);
    case Rescore(_, revenue, risk, call) => WrittenAsIs(st, key, Rescored(p, revenue, risk, call), None, true);
    case Feedback(_, revenue, call) =>
      WrittenAsIs(st, key, p.(revenueScore := revenue, updatedBy := call.actor), None, true);
    case Define(_, _) =>
  }

  /** The key is published now and was not before. */
  ghost predicate GoesLive(st: State, st': State, key: string) {
    && key in st'.products && st'.products[key].status == "published"
    && (key in st.products ==> st.products[key].status != "published")
  }

  lemma WriteGoesLive(st: State, p: Product, check: Option<Check>, taken: bool, key: string)
    requires GoesLive(st, Written(st, p, check, taken), key)
    ensures taken && TrimSpace(p.key) == key && p.status == "published"
  {
  }

  /** The handlers that never make a product live. */
  lemma NeverLive(st: State, op: Op, key: string)
    requires Valid(st) && (op.Move? || op.Review? || op.SetStatus? || op.CheckRisk? || op.Define? || op.Delete?)
    ensures !GoesLive(st, Next(st, op), key)
  {
    if GoesLive(st, Next(st, op), key) {
      match op
      case Move(k, action, call) =>
        WriteGoesLive(st, st.products[k].(status := Towards(action), updatedBy := call.actor), None, call.taken, key);
      case Review(k, approve, call) =>
        WriteGoesLive(st, st.products[k].(status := if approve then "approved" else "draft", updatedBy := call.actor),
          None, call.taken, key);
      case SetStatus(k, archive, call) =>
        WriteGoesLive(st, st.products[k].(status := if archive then "archived" else "approved",
          updatedBy := call.actor), None, call.taken, key);
      case CheckRisk(k, risk, call) =>
        WriteGoesLive(st, st.products[k].(riskScore := risk, status := "risk_review", updatedBy := call.actor), None,
          call.taken, key);
      case Define(p, call) =>
        WriteGoesLive(st, p.(status := "review", updatedBy := call.actor), None, call.taken, key);
      case Delete(_, _) =>
    }
  }

  lemma RewriteNotLive(st: State, k: string, q: Product, taken: bool, key: string)
    requires Valid(st) && k in st.products && q.key == k && q.status == st.products[k].status
    ensures !GoesLive(st, Written(st, q, None, taken), key)
  {
    assert KeyedRow(k, st.products[k]);
    if GoesLive(st, Written(st, q, None, taken), key) { WriteGoesLive(st, q, None, taken, key); }
  }

  lemma NeverLiveByRewrite(st: State, op: Op, key: string)
    requires Valid(st) && (op.PlanPOC? || op.Rescore? || op.Feedback?)
    ensures !GoesLive(st, Next(st, op), key)
  {
    if op.key in st.products {
      assert KeyedRow(op.key, st.products[op.key]);
      match op
      case PlanPOC(k, plan, call) =>
        RewriteNotLive(st, k, st.products[k].(pocPlan := plan, updatedBy := call.actor), call.taken, key);
      case Rescore(k, revenue, risk, call) =>
        RewriteNotLive(st, k, Rescored(st.products[k], revenue, risk, call), call.taken, key);
      case Feedback(k, revenue, call) =>
        RewriteNotLive(st, k, st.products[k].(revenueScore := revenue, updatedBy := call.actor), call.taken, key);
    }
  }

  /** A product goes live in three ways: asked for behind a passed gate, published behind a passed gate, or by the
      outcome of a proof of concept on an approved product. */
  lemma HowPublished(st: State, op: Op, key: string)
    requires Valid(st) && GoesLive(st, Next(st, op), key)
    ensures op.call.taken
    ensures op.Upsert? || op.Publish? || op.RecordOutcome?
    ensures op.Upsert? ==> TrimSpace(op.req.key) == key && TrimSpace(op.req.status) == "published"
                           && GateAllows(RowOf(op.req, op.call.actor), op.records, op.now)
    ensures op.Publish? ==> op.key == key && key in st.products && GateAllows(st.products[key], op.records, op.now)
    ensures op.RecordOutcome? ==>
      op.key == key && key in st.products && st.products[key].status == "approved" && op.success
      && EqualFold(TrimSpace(op.conversion), "contract_candidate")
  {
    match op
    case Upsert(req, clean, records, now, call) =>
      TrimSpaceFixedPoints(req.key);
      WriteGoesLive(st, RowOf(req, call.actor), Some(Check(records, now)), call.taken, key);
    case Publish(k, records, now, call) =>
      assert KeyedRow(k, st.products[k]);
      WriteGoesLive(st, st.products[k].(status := PUBLISHED, updatedBy := call.actor), Some(Check(records, now)),
        call.taken, key);
    case RecordOutcome(k, success, conversion, call) =>
      CandidateExact(conversion);
      assert KeyedRow(k, st.products[k]);
      WriteGoesLive(st, AfterOutcome(st.products[k], success, conversion, call.actor), None, call.taken, key);
    case PlanPOC(_, _, _) => NeverLiveByRewrite(st, op, key);
    case Rescore(_, _, _, _) => NeverLiveByRewrite(st, op, key);
    case Feedback(_, _, _) => NeverLiveByRewrite(st, op, key);
    case _ => NeverLive(st, op, key);
  }

  lemma WrittenValid(st: State, p: Product, check: Option<Check>, taken: bool)
    requires Valid(st)
    ensures Valid(Written(st, p, check, taken))
  {
    TrimSpaceFixedPoints(p.key);
    var q := Defaults(p);
    if taken && q.key !in st.retired { assert KeyedRow(q.key, q); }
  }

  /** A row put into a certified catalog, for any verdict: the others keep their checks. */
  lemma PutKeepsBy(st: State, q: Product, checks: map<string, Check>, passes: (Product, Check) -> bool)
    requires CertifiedBy(st, passes)
    requires forall k :: k != q.key && k in st.checks ==> k in checks && checks[k] == st.checks[k]
    ensures CertifiedBy(State(st.products[q.key := q], st.retired, checks), passes) <==>
            (q.status == PUBLISHED ==> q.key in checks && passes(q, checks[q.key]))
  {
    var t := State(st.products[q.key := q], st.retired, checks);
    assert t.products[q.key] == q;
    forall k | k != q.key && k in t.products && t.products[k].status == PUBLISHED
      ensures k in checks && passes(t.products[k], checks[k])
    {
      assert st.products[k] == t.products[k];
    }
  }

  /** One write, for any verdict: a published row needs a passing check, its own or the one it keeps. */
  lemma WrittenKeepsBy(st: State, p: Product, check: Option<Check>, taken: bool, passes: (Product, Check) -> bool)
    requires Valid(st) && CertifiedBy(st, passes)
    ensures taken && TrimSpace(p.key) !in st.retired ==>
      (CertifiedBy(Written(st, p, check, taken), passes) <==>
         (Defaults(p).status == PUBLISHED ==>
            if check.Some? then passes(Defaults(p), check.value)
            else TrimSpace(p.key) in st.checks && passes(Defaults(p), st.checks[TrimSpace(p.key)])))
  {
    if taken && TrimSpace(p.key) !in st.retired {
      PutKeepsBy(st, Defaults(p), Written(st, p, check, taken).checks, passes);
    }
  }

  lemma WrittenKeeps(st: State, p: Product, check: Option<Check>, taken: bool)
    requires Valid(st) && Certified(st)
    ensures Valid(Written(st, p, check, taken))
    ensures taken && TrimSpace(p.key) !in st.retired ==>
      (Certified(Written(st, p, check, taken)) <==>
         (Defaults(p).status == PUBLISHED ==>
            if check.Some? then Passed(Defaults(p), check.value)
            else TrimSpace(p.key) in st.checks && Passed(Defaults(p), st.checks[TrimSpace(p.key)])))
  {
    WrittenValid(st, p, check, taken);
    WrittenKeepsBy(st, p, check, taken, Passed);
  }

  /** The steps that go round the gate, told from the stored row and the request alone: a proof of concept
      that publishes, and a rescoring that brings a published product under the strict gate. */
  ghost predicate Ungated(st: State, op: Op) {
    match op
    case RecordOutcome(key, success, conversion, call) =>
      call.taken && key in st.products && st.products[key].status == "approved" && success && Candidate(conversion)
    case Rescore(key, revenue, risk, call) =>
      call.taken && key in st.products && st.products[key].status == PUBLISHED
      && Strict(st.products[key].(riskScore := risk)) && !Strict(st.products[key])
    case _ => false
  }

  /** A rescored product still passes the evaluation that once let it go live. */
  ghost predicate CheckHolds(st: State, op: Op) {
    op.Rescore? && op.key in st.products && op.key in st.checks
    && Passed(st.products[op.key].(riskScore := op.risk), st.checks[op.key])
  }

  lemma PassedRescored(p: Product, risk: int, c: Check)
    requires Passed(p, c) && (Strict(p.(riskScore := risk)) ==> Strict(p))
    ensures Passed(p.(riskScore := risk), c)
  {
    RescoredStillPasses(p, risk, c.records, c.now);
  }

  lemma PassedReadsOnly(p: Product, q: Product, c: Check)
    requires p.key == q.key && SameForGate(p, q)
    ensures Passed(p, c) <==> Passed(q, c)
  {
    GateAllowsReadsOnly(p, q, c.records, c.now);
  }

  /** A write of a changed row without a new check. */
  lemma RewrittenKeeps(st: State, key: string, q: Product, taken: bool)
    requires Valid(st) && Certified(st) && key in st.products
    requires q.key == key && q.sensitivity != "" && q.sourceType != "" && q.status != ""
    ensures Valid(Written(st, q, None, taken))
    ensures Certified(Written(st, q, None, taken)) <==>
            (taken && q.status == PUBLISHED ==> key in st.checks && Passed(q, st.checks[key]))
  {
    assert KeyedRow(key, st.products[key]);
    assert Defaults(q) == q;
    WrittenKeeps(st, q, None, taken);
  }

  /** A write behind a passed gate. */
  lemma GatedKeeps(st: State, p: Product, check: Check, taken: bool)
    requires Valid(st) && Certified(st)
    requires p.status == PUBLISHED ==> Trimmed(p.key) && Passed(p, check)
    ensures Valid(Written(st, p, Some(check), taken)) && Certified(Written(st, p, Some(check), taken))
  {
    WrittenKeeps(st, p, Some(check), taken);
    if p.status == PUBLISHED {
      TrimSpaceFixedPoints(p.key);
      DefaultsSameForGate(p);
      PassedReadsOnly(p, Defaults(p), check);
    }
  }

  lemma UnpublishedKeeps(st: State, key: string, q: Product, taken: bool)
    requires Valid(st) && Certified(st) && key in st.products
    requires q.key == key && q.sensitivity != "" && q.sourceType != "" && q.status != "" && q.status != PUBLISHED
    ensures Valid(Written(st, q, None, taken)) && Certified(Written(st, q, None, taken))
  {
    RewrittenKeeps(st, key, q, taken);
  }

  /** The handlers that give a row another status than published. */
  lemma RestatusStep(st: State, op: Op)
    requires Valid(st) && Certified(st)
    requires op.Move? || op.Review? || op.SetStatus? || op.CheckRisk?
    ensures Valid(Next(st, op)) && Certified(Next(st, op))
  {
    if op.key in st.products {
      var p := st.products[op.key];
      assert KeyedRow(op.key, p);
      match op
      case Move(key, action, call) =>
        if p.status in From(action) {
          UnpublishedKeeps(st, key, p.(status := Towards(action), updatedBy := call.actor), call.taken);
        }
      case Review(key, approve, call) =>
        UnpublishedKeeps(st, key, p.(status := if approve then "approved" else "draft", updatedBy := call.actor),
          call.taken);
      case SetStatus(key, archive, call) =>
        UnpublishedKeeps(st, key, p.(status := if archive then "archived" else "approved", updatedBy := call.actor),
          call.taken);
      case CheckRisk(key, risk, call) =>
        UnpublishedKeeps(st, key, p.(riskScore := risk, status := "risk_review", updatedBy := call.actor), call.taken);
    }
  }

  lemma RewriteSame(st: State, key: string, q: Product, taken: bool)
    requires Valid(st) && Certified(st) && key in st.products
    requires q.key == key && q.sensitivity != "" && q.sourceType != "" && q.status == st.products[key].status
    requires SameForGate(st.products[key], q)
    ensures Valid(Written(st, q, None, taken)) && Certified(Written(st, q, None, taken))
  {
    assert KeyedRow(key, st.products[key]);
    RewrittenKeeps(st, key, q, taken);
    if q.status == PUBLISHED { PassedReadsOnly(st.products[key], q, st.checks[key]); }
  }

  /** A row that goes live without a check leaves the catalog uncertified. */
  lemma PublishedUnchecked(st: State, key: string, q: Product, taken: bool)
    requires Valid(st) && Certified(st) && key in st.products && st.products[key].status != PUBLISHED
    requires q.key == key && q.sensitivity != "" && q.sourceType != "" && q.status == PUBLISHED
    ensures Valid(Written(st, q, None, taken)) && (Certified(Written(st, q, None, taken)) <==> !taken)
  {
    RewrittenKeeps(st, key, q, taken);
  }

  lemma OutcomeStep(st: State, key: string, success: bool, conversion: string, call: Call)
    requires Valid(st) && Certified(st) && key in st.products
    ensures var op := RecordOutcome(key, success, conversion, call);
      Valid(Next(st, op)) && (Certified(Next(st, op)) <==> !Ungated(st, op))
  {
    var p := st.products[key];
    assert KeyedRow(key, p);
    var q := AfterOutcome(p, success, conversion, call.actor);
    if q.status == p.status {
      RewriteSame(st, key, q, call.taken);
    } else {
      PublishedUnchecked(st, key, q, call.taken);
    }
  }

  /** A rescoring, for any verdict that reads no more than the gate does and survives a score that adds no
      strictness: it keeps the catalog certified unless it goes round the gate and the old check rejects the row. */
  lemma RescoredKeepsBy(st: State, key: string, revenue: int, risk: int, call: Call, passes: (Product, Check) -> bool)
    requires Valid(st) && CertifiedBy(st, passes) && key in st.products
    requires var p := st.products[key];
      p.status == PUBLISHED ==>
        && key in st.checks
        && passes(Rescored(p, revenue, risk, call), st.checks[key]) == passes(p.(riskScore := risk), st.checks[key])
        && ((Strict(p.(riskScore := risk)) ==> Strict(p)) ==> passes(p.(riskScore := risk), st.checks[key]))
    ensures var op := Rescore(key, revenue, risk, call);
      CertifiedBy(Next(st, op), passes) <==>
      (Ungated(st, op) ==> key in st.checks && passes(st.products[key].(riskScore := risk), st.checks[key]))
  {
    var p := st.products[key];
    assert KeyedRow(key, p);
    var q := Rescored(p, revenue, risk, call);
    assert Defaults(q) == q;
    WrittenKeepsBy(st, q, None, call.taken, passes);
  }

  /** What a new score does to a check that passed. */
  lemma RescoredPasses(p: Product, revenue: int, risk: int, call: Call, c: Check)
    requires Passed(p, c)
    ensures Passed(Rescored(p, revenue, risk, call), c) == Passed(p.(riskScore := risk), c)
    ensures (Strict(p.(riskScore := risk)) ==> Strict(p)) ==> Passed(p.(riskScore := risk), c)
  {
    PassedReadsOnly(p.(riskScore := risk), Rescored(p, revenue, risk, call), c);
    if Strict(p.(riskScore := risk)) ==> Strict(p) { PassedRescored(p, risk, c); }
  }

  lemma RescoreStep(st: State, key: string, revenue: int, risk: int, call: Call)
    requires Valid(st) && Certified(st) && key in st.products
    ensures var op := Rescore(key, revenue, risk, call);
      Valid(Next(st, op)) && (Certified(Next(st, op)) <==> (Ungated(st, op) ==> CheckHolds(st, op)))
  {
    var p := st.products[key];
    WrittenValid(st, Rescored(p, revenue, risk, call), None, call.taken);
    if p.status == PUBLISHED { RescoredPasses(p, revenue, risk, call, st.checks[key]); }
    RescoredKeepsBy(st, key, revenue, risk, call, Passed);
  }

  /** The handlers that change other fields of a row and write it back without asking the gate. */
  lemma RewriteStep(st: State, op: Op)
    requires Valid(st) && Certified(st)
    requires op.PlanPOC? || op.Rescore? || op.Feedback? || op.RecordOutcome?
    ensures Valid(Next(st, op))
    ensures Certified(Next(st, op)) <==> (Ungated(st, op) ==> CheckHolds(st, op))
  {
    if op.key in st.products {
      var p := st.products[op.key];
      assert KeyedRow(op.key, p);
      match op
      case PlanPOC(key, plan, call) =>
        RewriteSame(st, key, p.(pocPlan := plan, updatedBy := call.actor), call.taken);
      case Feedback(key, revenue, call) =>
        RewriteSame(st, key, p.(revenueScore := revenue, updatedBy := call.actor), call.taken);
      case Rescore(key, revenue, risk, call) =>
        RescoreStep(st, key, revenue, risk, call);
      case RecordOutcome(key, success, conversion, call) =>
        OutcomeStep(st, key, success, conversion, call);
    }
  }

  /** Step by step: a certified catalog stays certified, unless the step goes round the gate and the product
      does not happen to pass the old check all the same. */
  lemma StepCertified(st: State, op: Op)
    requires Valid(st) && Certified(st)
    ensures Valid(Next(st, op))
    ensures Certified(Next(st, op)) <==> (Ungated(st, op) ==> CheckHolds(st, op))
  {
    match op
    case Upsert(req, clean, records, now, call) =>
      var p := RowOf(req, call.actor);
      TrimSpaceFixedPoints(req.key);
      if ValidRequest(req, clean) && (p.status == PUBLISHED ==> GateAllows(p, records, now)) {
        GatedKeeps(st, p, Check(records, now), call.taken);
      }
    case Publish(key, records, now, call) =>
      if key in st.products && GateAllows(st.products[key], records, now) {
        assert KeyedRow(key, st.products[key]);
        var p := st.products[key].(status := PUBLISHED, updatedBy := call.actor);
        PassedReadsOnly(st.products[key], p, Check(records, now));
        GatedKeeps(st, p, Check(records, now), call.taken);
      }
    case Define(product, call) =>
      WrittenKeeps(st, product.(status := "review", updatedBy := call.actor), None, call.taken);
    case Delete(key, call) =>
    case Move(_, _, _) => RestatusStep(st, op);
    case Review(_, _, _) => RestatusStep(st, op);
    case SetStatus(_, _, _) => RestatusStep(st, op);
    case CheckRisk(_, _, _) => RestatusStep(st, op);
    case PlanPOC(_, _, _) => RewriteStep(st, op);
    case Rescore(_, _, _, _) => RewriteStep(st, op);
    case Feedback(_, _, _) => RewriteStep(st, op);
    case RecordOutcome(_, _, _, _) => RewriteStep(st, op);
  }

  // ----- The guard is exact -----

  /** The same catalog, its published products let live by other evaluations. */
  ghost predicate Recheck(st: State, checks: map<string, Check>) {
    Valid(st.(checks := checks)) && Certified(st.(checks := checks))
  }

  const EMPTY_CHECK := Check(EMPTY_RECORDS, 0)

  lemma EmptyCheckPasses(p: Product)
    ensures Passed(p, EMPTY_CHECK) <==> !Strict(p)
  {
    EmptyRecordsPass(p, 0);
  }

  /** Whatever evaluations let the published products go live, a step keeps the catalog certified if and only
      if it does not go round the gate, as told from the stored rows and the request. */
  lemma GuardIsExact(st: State, op: Op)
    requires Valid(st) && Certified(st)
    ensures (forall checks :: Recheck(st, checks) ==> Certified(Next(st.(checks := checks), op))) <==> !Ungated(st, op)
  {
    if !Ungated(st, op) {
      forall checks | Recheck(st, checks) ensures Certified(Next(st.(checks := checks), op)) {
        StepCertified(st.(checks := checks), op);
      }
    } else {
      var checks := if op.Rescore? then st.checks[op.key := EMPTY_CHECK] else st.checks;
      if op.Rescore? {
        EmptyCheckPasses(st.products[op.key]);
        EmptyCheckPasses(st.products[op.key].(riskScore := op.risk));
      }
      var t := st.(checks := checks);
      assert Recheck(st, checks);
      StepCertified(t, op);
      assert !Certified(Next(t, op));
    }
  }

  /** A catalog with one product outside the strict gate, which a rescoring brings under it. */
  lemma StricterRescoreFails(key: string, p: Product, revenue: int, risk: int, actor: string)
    requires KeyedRow(key, p) && p.status == PUBLISHED && Strict(p.(riskScore := risk)) && !Strict(p)
    ensures var st := State(map[key := p], {}, map[key := EMPTY_CHECK]);
      Valid(st) && Certified(st) && !Certified(Next(st, Rescore(key, revenue, risk, Call(actor, true))))
  {
    var st := State(map[key := p], {}, map[key := EMPTY_CHECK]);
    EmptyCheckPasses(p);
    EmptyCheckPasses(p.(riskScore := risk));
    RescoreStep(st, key, revenue, risk, Call(actor, true));
  }

  /** For one published row: a new risk score keeps every certified catalog that holds the row certified if
      and only if it does not bring the product under the strict gate. */
  lemma RescoreIsExact(key: string, p: Product, revenue: int, risk: int, actor: string)
    requires KeyedRow(key, p) && p.status == PUBLISHED
    ensures (forall st :: Valid(st) && Certified(st) && key in st.products && st.products[key] == p ==>
               Certified(Next(st, Rescore(key, revenue, risk, Call(actor, true)))))
            <==> (Strict(p.(riskScore := risk)) ==> Strict(p))
  {
    var op := Rescore(key, revenue, risk, Call(actor, true));
    if Strict(p.(riskScore := risk)) && !Strict(p) {
      StricterRescoreFails(key, p, revenue, risk, actor);
    } else {
      forall st | Valid(st) && Certified(st) && key in st.products && st.products[key] == p
        ensures Certified(Next(st, op))
      {
        RescoreStep(st, key, revenue, risk, op.call);
      }
    }
  }

  /** Over every run in which no step goes round the gate, a product stored as published passed the gate on
      exactly the fields stored. */
  lemma {:induction false} RunCertified(ops: seq<Op>)
    requires forall i :: 0 <= i < |ops| ==> !Ungated(Run(ops[..i]), ops[i])
    ensures Valid(Run(ops)) && Certified(Run(ops))
    decreases |ops|
  {
    if ops != [] {
      var front := ops[..|ops| - 1];
      forall i | 0 <= i < |front| ensures !Ungated(Run(front[..i]), front[i]) {
        assert front[..i] == ops[..i];
      }
      RunCertified(front);
      StepCertified(Run(front), ops[|ops| - 1]);
    }
  }

  /** In particular over every run without proof-of-concept outcomes and rescorings. */
  lemma GatedHandlersOnly(ops: seq<Op>)
    requires forall op :: op in ops ==> !op.RecordOutcome? && !op.Rescore?
    ensures Certified(Run(ops))
  {
    forall i | 0 <= i < |ops| ensures !Ungated(Run(ops[..i]), ops[i]) {
      assert ops[i] in ops;
    }
    RunCertified(ops);
  }

  /** A rescoring that does not raise the risk leaves the promise intact. */
  lemma LowerRiskIsSafe(st: State, key: string, revenue: int, risk: int, call: Call)
    requires Valid(st) && Certified(st)
    requires key in st.products ==> risk <= st.products[key].riskScore
    ensures Certified(Next(st, Rescore(key, revenue, risk, call)))
  {
    StepCertified(st, Rescore(key, revenue, risk, call));
  }

  // ----- Where the promise fails -----

  /** Rescoring a published product without linked assets into the strict range leaves it published and
      unable to pass. */
  lemma RescoreUngates(st: State, key: string, revenue: int, risk: int, actor: string)
    requires Valid(st) && Certified(st) && key in st.products
    requires st.products[key].status == PUBLISHED && AssetKeys(st.products[key].sourceRef) == [] && risk >= 70
    ensures var st' := Next(st, Rescore(key, revenue, risk, Call(actor, true)));
      !Certified(st') && key in st'.products && st'.products[key].status == PUBLISHED
      && forall rec, now :: !GateAllows(st'.products[key], rec, now)
  {
    var op := Rescore(key, revenue, risk, Call(actor, true));
    var p := st.products[key];
    assert KeyedRow(key, p);
    NoAssetsNeverPasses(p.(riskScore := risk), st.checks[key].records, st.checks[key].now);
    StepCertified(st, op);
    var q := p.(revenueScore := revenue, riskScore := risk, updatedBy := actor);
    assert Defaults(q) == q && Next(st, op).products[key] == q;
    forall rec, now ensures !GateAllows(q, rec, now) { NoAssetsNeverPasses(q, rec, now); }
  }

  /** A risky product without any linked asset. */
  function Sample(status: string, revenue: int): Product {
    Product("k", "name", "custom", "", "internal", status, "", "", "", "", 100, revenue)
  }

  predicate SampleStatus(s: string) {
    s == "draft" || s == "review" || s == "approved" || s == PUBLISHED
  }

  lemma SampleSteady(status: string, revenue: int)
    requires SampleStatus(status)
    ensures Defaults(Sample(status, revenue)) == Sample(status, revenue)
  {
    assert Trimmed("k");
    TrimSpaceFixedPoints("k");
  }

  ghost predicate Holds(st: State, p: Product) {
    st.retired == {} && "k" in st.products && st.products["k"] == p
  }

  lemma SampleWritten(st: State, p: Product, check: Option<Check>)
    requires st.retired == {} && Defaults(p) == p && p.key == "k"
    ensures Holds(Written(st, p, check, true), p)
  {
  }

  const CALL := Call("", true)

  lemma SampleRequest()
    ensures RowOf(Sample("draft", 0), "") == Sample("draft", 0) && ValidRequest(Sample("draft", 0), true)
  {
    TrimSpaceFixedPoints("k");
    TrimSpaceFixedPoints("name");
    TrimSpaceFixedPoints("custom");
    TrimSpaceFixedPoints("");
    TrimSpaceFixedPoints("internal");
    TrimSpaceFixedPoints("draft");
    assert Trimmed("k") && Trimmed("name") && Trimmed("custom") && Trimmed("") && Trimmed("internal")
      && Trimmed("draft");
  }

  lemma SampleCandidate()
    ensures Candidate("contract_candidate")
  {
    var word := "contract_candidate";
    TrimSpaceFixedPoints(word);
    assert Trimmed(word) && First([word, "recorded"]) == word;
  }

  /** A valid request that asks for a draft is stored as it is. */
  lemma DraftStored(st: State, p: Product, records: Records, now: int)
    requires ValidRequest(p, true) && RowOf(p, "") == p && Defaults(p) == p && p.key == "k" && p.status != PUBLISHED
    requires st.retired == {}
    ensures Holds(Next(st, Upsert(p, true, records, now, CALL)), p)
  {
    SampleWritten(st, p, Some(Check(records, now)));
  }

  lemma RunSnoc(ops: seq<Op>, op: Op)
    ensures Run(ops + [op]) == Next(Run(ops), op)
  {
    assert (ops + [op])[..|ops|] == ops;
  }

  lemma SampleDrafted(records: Records, now: int)
    ensures Holds(Run([Upsert(Sample("draft", 0), true, records, now, CALL)]), Sample("draft", 0))
  {
    var op := Upsert(Sample("draft", 0), true, records, now, CALL);
    SampleRequest();
    SampleSteady("draft", 0);
    assert [] + [op] == [op];
    RunSnoc([], op);
    DraftStored(Run([]), Sample("draft", 0), records, now);
  }

  lemma SampleMoved(ops: seq<Op>, status: string, action: Action)
    requires Holds(Run(ops), Sample(status, 0)) && status in From(action) && SampleStatus(Towards(action))
    ensures Holds(Run(ops + [Move("k", action, CALL)]), Sample(Towards(action), 0))
  {
    RunSnoc(ops, Move("k", action, CALL));
    SampleSteady(Towards(action), 0);
    SampleWritten(Run(ops), Sample(Towards(action), 0), None);
  }

  lemma ApprovedConverted(st: State, p: Product, q: Product, conversion: string)
    requires Holds(st, p) && q == AfterOutcome(p, true, conversion, "") && Defaults(q) == q && q.key == "k"
    ensures Holds(Next(st, RecordOutcome("k", true, conversion, CALL)), q)
  {
    var op := RecordOutcome("k", true, conversion, CALL);
    assert Next(st, op) == Written(st, q, None, true);
    SampleWritten(st, q, None);
  }

  lemma SampleConverted(ops: seq<Op>)
    requires Holds(Run(ops), Sample("approved", 0))
    ensures Holds(Run(ops + [RecordOutcome("k", true, "contract_candidate", CALL)]), Sample(PUBLISHED, 8))
  {
    SampleCandidate();
    SampleSteady(PUBLISHED, 8);
    RunSnoc(ops, RecordOutcome("k", true, "contract_candidate", CALL));
    ApprovedConverted(Run(ops), Sample("approved", 0), Sample(PUBLISHED, 8), "contract_candidate");
  }

  lemma SampleNeverPasses()
    ensures forall rec, now :: !GateAllows(Sample(PUBLISHED, 8), rec, now)
  {
    forall rec, now ensures !GateAllows(Sample(PUBLISHED, 8), rec, now) {
      NoAssetsNeverPasses(Sample(PUBLISHED, 8), rec, now);
    }
  }

  function SampleOps(records: Records, now: int): seq<Op> {
    [Upsert(Sample("draft", 0), true, records, now, CALL)] + [Move("k", Submit, CALL)] + [Move("k", Approve, CALL)]
    + [RecordOutcome("k", true, "contract_candidate", CALL)]
  }

  /** Four calls publish a strict product that no records at all would let through the gate: it is drafted,
      submitted, approved, and its proof of concept ends in a contract candidate. */
  lemma OutcomePublishesUngated(records: Records, now: int)
    ensures Holds(Run(SampleOps(records, now)), Sample(PUBLISHED, 8))
    ensures forall rec, t :: !GateAllows(Sample(PUBLISHED, 8), rec, t)
  {
    var a := [Upsert(Sample("draft", 0), true, records, now, CALL)];
    var b := a + [Move("k", Submit, CALL)];
    SampleDrafted(records, now);
    SampleMoved(a, "draft", Submit);
    SampleMoved(b, "review", Approve);
    SampleConverted(b + [Move("k", Approve, CALL)]);
    SampleNeverPasses();
  }

  // ----- Retired keys -----

  lemma StaysRetired(st: State, op: Op)
    ensures st.retired <= Next(st, op).retired
    ensures (forall k :: k in st.retired ==> k !in st.products) ==>
      forall k :: k in Next(st, op).retired ==> k !in Next(st, op).products
  {
  }

  lemma {:induction false} RetiredApart(ops: seq<Op>)
    ensures forall k :: k in Run(ops).retired ==> k !in Run(ops).products
    decreases |ops|
  {
    if ops != [] {
      RetiredApart(ops[..|ops| - 1]);
      StaysRetired(Run(ops[..|ops| - 1]), ops[|ops| - 1]);
    }
  }

  /** A retired key stays retired and never names a product again. */
  lemma {:induction false} RetiredForGood(ops: seq<Op>, more: seq<Op>, key: string)
    requires key in Run(ops).retired
    ensures key in Run(ops + more).retired && key !in Run(ops + more).products
    decreases |more|
  {
    RetiredApart(ops + more);
    if more == [] {
      assert ops + more == ops;
    } else {
      var front := ops + more[..|more| - 1];
      assert ops + more == front + [more[|more| - 1]];
      RetiredForGood(ops, more[..|more| - 1], key);
      RunSnoc(front, more[|more| - 1]);
      StaysRetired(Run(front), more[|more| - 1]);
    }
  }
}
