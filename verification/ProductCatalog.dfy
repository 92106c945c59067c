/** The product handlers over the stored catalog, each tied to its step of the lifecycle. */
module ProductCatalog {
  import opened Text
  import opened PublishGate
  import opened ProductGate
  import opened ProductLifecycle

  datatype Answer = BadRequest | NotFound | GateFailed | GateBlocked | BadTransition | NotStored | Ok

  /** A row as the store keeps it: the key trimmed and what is missing filled in. */
  ghost predicate Filled(row: Product, p: Product) {
    row == p.(key := TrimSpace(p.key), sensitivity := if p.sensitivity == "" then "internal" else p.sensitivity,
              sourceType := if p.sourceType == "" then "custom" else p.sourceType,
              status := if p.status == "" then "draft" else p.status)
  }

  /** The row a request asks for: its texts trimmed, defaults for what it leaves blank, signed by the caller. */
  ghost predicate Requested(row: Product, req: Product, actor: string) {
    row == req.(key := TrimSpace(req.key), nameKO := TrimSpace(req.nameKO), sourceRef := TrimSpace(req.sourceRef),
                sourceType := if Blank(req.sourceType) then "custom" else TrimSpace(req.sourceType),
                sensitivity := if Blank(req.sensitivity) then "internal" else TrimSpace(req.sensitivity),
                status := if Blank(req.status) then "draft" else TrimSpace(req.status), updatedBy := actor)
  }

  /** The row after the outcome of a proof of concept: eight points up for a success and four down for a failure,
      within 0 and 100, and live when an approved product succeeds as a contract candidate. */
  ghost predicate OutcomeOf(row: Product, was: Product, success: bool, conversion: string, actor: string) {
    && Bounded(row.revenueScore, was.revenueScore + if success then 8 else -4)
    && row == was.(revenueScore := row.revenueScore, updatedBy := actor,
                   status := if success && was.status == "approved"
                                && EqualFold(TrimSpace(conversion), "contract_candidate")
                             then "published" else was.status)
  }

  /** A request that names a product, is clean, and uses known words for source type and status. */
  ghost predicate WellFormed(req: Product, clean: bool) {
    && !Blank(req.key) && !Blank(req.nameKO) && clean
    && (Blank(req.sourceType) || TrimSpace(req.sourceType) in {"dataset", "api", "report", "score", "segment",
          "model_feature", "dashboard", "saved_report", "metric", "golden_query", "custom"})
    && TrimSpace(req.status) in {"", "draft", "review", "risk_review", "approved", "published", "archived"}
  }

  lemma RequestedRow(req: Product, actor: string)
    ensures Requested(Defaults(RowOf(req, actor)), req, actor)
  {
    TrimSpaceFixedPoints(req.key);
  }

  class Catalog {
    var products: map<string, Product>
    var retired: set<string>
    /** For each published product the gate evaluation behind it. */
    ghost var checks: map<string, Check>

    ghost function Contents(): State
      reads this
    {
      State(products, retired, checks)
    }

    constructor ()
      ensures Contents() == Run([]) && Valid(Contents()) && Certified(Contents())
    {
      products, retired, checks := map[], {}, map[];
    }

    /** The store's write: defaults filled in, retired keys refused. */
    method Store(p: Product, taken: bool, ghost check: Option<Check>) returns (ok: bool)
      modifies this
      ensures Contents() == Written(old(Contents()), p, check, taken)
      ensures ok <==> taken && TrimSpace(p.key) !in old(retired)
      ensures ok ==> exists row :: Filled(row, p) && products == old(products)[TrimSpace(p.key) := row]
      ensures !ok ==> products == old(products)
    {
      var q := p.(key := TrimSpace(p.key));
      if q.sensitivity == "" { q := q.(sensitivity := "internal"); }
      if q.sourceType == "" { q := q.(sourceType := "custom"); }
      if q.status == "" { q := q.(status := "draft"); }
      assert q == Defaults(p);
      if q.key in retired || !taken { return false; }
      assert Filled(q, p);
      products := products[q.key := q];
      checks := if q.status != PUBLISHED then checks - {q.key}
                else if check.Some? then checks[q.key := check.value] else checks;
      ok := true;
    }

    /** The catalog's upsert, which may publish. */
    method UpsertProduct(req: Product, clean: bool, records: Records, now: int, call: Call) returns (a: Answer)
      requires Valid(Contents()) && Certified(Contents())
      modifies this
      ensures Contents() == Next(old(Contents()), Upsert(req, clean, records, now, call))
      ensures Valid(Contents()) && Certified(Contents())
      ensures a == BadRequest <==> !WellFormed(req, clean)
      ensures a == Ok ==>
        var k := TrimSpace(req.key);
        k in products && Requested(products[k], req, call.actor) && products == old(products)[k := products[k]]
      ensures a != Ok ==> products == old(products)
    {
      StepCertified(Contents(), Upsert(req, clean, records, now, call));
      RequestedRow(req, call.actor);
      var key := TrimSpace(req.key);
      if key == "" || Blank(req.nameKO) || !clean { return BadRequest; }
      var sourceType := TrimSpace(req.sourceType);
      if sourceType == "" { sourceType := "custom"; }
      if !SourceTypeKnown(sourceType) { return BadRequest; }
      var status := TrimSpace(req.status);
      if !StatusKnown(status) { return BadRequest; }
      if status == "" { status := "draft"; }
      var p := req.(key := key, nameKO := TrimSpace(req.nameKO), sourceType := sourceType,
        sourceRef := TrimSpace(req.sourceRef),
                    sensitivity := TrimSpace(req.sensitivity), status := status, updatedBy := call.actor);
      if status == PUBLISHED {
        var gate := ProductPublishGate(p, records, now);
        if gate.None? { return GateFailed; }
        if !gate.value.allowed { return GateBlocked; }
      }
      var ok := Store(p, call.taken, Some(Check(records, now)));
      a := if ok then Ok else NotStored;
    }

    /** Publish, from any status the product may have. */
    method PublishProduct(key: string, records: Records, now: int, call: Call) returns (a: Answer)
      requires Valid(Contents()) && Certified(Contents())
      modifies this
      ensures Contents() == Next(old(Contents()), Publish(key, records, now, call))
      ensures Valid(Contents()) && Certified(Contents())
      ensures a == Ok ==> key in old(products) && GateAllows(old(products)[key], records, now)
      ensures a == Ok ==>
        products == old(products)[key := old(products)[key].(status := "published", updatedBy := call.actor)]
      ensures a == Ok ==> GateAllows(products[key], records, now)
      ensures a != Ok ==> products == old(products)
    {
      StepCertified(Contents(), Publish(key, records, now, call));
      if key !in products { return NotFound; }
      assert KeyedRow(key, products[key]);
      var p := products[key];
      var gate := ProductPublishGate(p, records, now);
      if gate.None? { return GateFailed; }
      if !gate.value.allowed { return GateBlocked; }
      GateAllowsReadsOnly(p, p.(status := PUBLISHED, updatedBy := call.actor), records, now);
      p := p.(status := PUBLISHED, updatedBy := call.actor);
      WrittenAsIs(Contents(), key, p, Some(Check(records, now)), call.taken);
      var ok := Store(p, call.taken, Some(Check(records, now)));
      a := if ok then Ok else NotStored;
    }

    /** Submit, approve, reject and archive. */
    method MoveProduct(key: string, action: Action, call: Call) returns (a: Answer)
      requires Valid(Contents()) && Certified(Contents())
      modifies this
      ensures Contents() == Next(old(Contents()), Move(key, action, call))
      ensures Valid(Contents()) && Certified(Contents())
      ensures a == NotFound <==> key !in old(products)
      ensures a == BadTransition <==>
        key in old(products) && forall target :: !Moves(action, old(products)[key].status, target)
      ensures a == Ok ==>
        && key in products && Moves(action, old(products)[key].status, products[key].status)
        && products
           == old(products)[key := old(products)[key].(status := products[key].status, updatedBy := call.actor)]
      ensures a != Ok ==> products == old(products)
      ensures a == NotStored ==> !call.taken
    {
      StepCertified(Contents(), Move(key, action, call));
      if key !in products { return NotFound; }
      var p := products[key];
      var from, target := {}, "";
      match action {
        case Submit => from, target := {"draft"}, "review";
        case Approve => from, target := {"review", "risk_review"}, "approved";
        case Reject => from, target := {"review", "risk_review", "approved"}, "draft";
        case Archive => from, target := {"published"}, "archived";
      }
      MovesExact(action, p.status);
      if p.status !in from { return BadTransition; }
      assert KeyedRow(key, p);
      p := p.(status := target, updatedBy := call.actor);
      WrittenAsIs(Contents(), key, p, None, call.taken);
      var ok := Store(p, call.taken, None);
      a := if ok then Ok else NotStored;
    }

    /** The review queue's approve and reject, from any status. */
    method ReviewProduct(key: string, approve: bool, call: Call) returns (a: Answer)
      requires Valid(Contents()) && Certified(Contents())
      modifies this
      ensures Contents() == Next(old(Contents()), Review(key, approve, call))
      ensures Valid(Contents()) && Certified(Contents())
      ensures a == Ok <==> key in old(products) && call.taken
      ensures a == Ok ==> products == old(products)[key :=
        old(products)[key].(status := if approve then "approved" else "draft", updatedBy := call.actor)]
      ensures a != Ok ==> products == old(products)
    {
      StepCertified(Contents(), Review(key, approve, call));
      if key !in products { return NotFound; }
      assert KeyedRow(key, products[key]);
      var p := products[key].(status := if approve then "approved" else "draft", updatedBy := call.actor);
      WrittenAsIs(Contents(), key, p, None, call.taken);
      var ok := Store(p, call.taken, None);
      a := if ok then Ok else NotStored;
    }

    /** The outcome of a proof of concept: certified afterwards exactly when it did not publish. */
    method ApplyOutcome(key: string, success: bool, conversion: string, call: Call)
      requires Valid(Contents()) && Certified(Contents())
      modifies this
      ensures Contents() == Next(old(Contents()), RecordOutcome(key, success, conversion, call))
      ensures Valid(Contents())
      ensures Certified(Contents()) <==> !Ungated(old(Contents()), RecordOutcome(key, success, conversion, call))
      ensures key in old(products) && call.taken ==>
        key in products && OutcomeOf(products[key], old(products)[key], success, conversion, call.actor)
        && products == old(products)[key := products[key]]
      ensures key !in old(products) || !call.taken ==> products == old(products)
    {
      StepCertified(Contents(), RecordOutcome(key, success, conversion, call));
      if key !in products { return; }
      assert KeyedRow(key, products[key]);
      CandidateExact(conversion);
      var p := products[key];
      if success {
        p := p.(revenueScore := Clamp(p.revenueScore + 8));
        if Candidate(conversion) && p.status == "approved" { p := p.(status := PUBLISHED); }
      } else {
        p := p.(revenueScore := Clamp(p.revenueScore - 4));
      }
      p := p.(updatedBy := call.actor);
      WrittenAsIs(Contents(), key, p, None, call.taken);
      var _ := Store(p, call.taken, None);
    }

    /** New scores: certified afterwards, unless they bring a published product under the strict gate and it
        does not happen to pass its old check all the same. */
    method RescoreProduct(key: string, revenue: int, risk: int, call: Call)
      requires Valid(Contents()) && Certified(Contents())
      modifies this
      ensures Contents() == Next(old(Contents()), Rescore(key, revenue, risk, call))
      ensures Valid(Contents())
      ensures var op := Rescore(key, revenue, risk, call);
        Certified(Contents()) <==> (Ungated(old(Contents()), op) ==> CheckHolds(old(Contents()), op))
      ensures products == if key in old(products) && call.taken
        then old(products)[key :=
               old(products)[key].(revenueScore := revenue, riskScore := risk, updatedBy := call.actor)]
        else old(products)
    {
      StepCertified(Contents(), Rescore(key, revenue, risk, call));
      if key !in products { return; }
      assert KeyedRow(key, products[key]);
      var p := products[key].(revenueScore := revenue, riskScore := risk, updatedBy := call.actor);
      WrittenAsIs(Contents(), key, p, None, call.taken);
      var _ := Store(p, call.taken, None);
    }

    /** Deleting retires the key in the same transaction. */
    method DeleteProduct(key: string, call: Call)
      requires Valid(Contents()) && Certified(Contents())
      modifies this
      ensures Contents() == Next(old(Contents()), Delete(key, call))
      ensures key in old(products) && call.taken ==>
        products == old(products) - {key} && retired == old(retired) + {key}
      ensures key !in old(products) || !call.taken ==> products == old(products) && retired == old(retired)
      ensures Valid(Contents()) && Certified(Contents())
    {
      StepCertified(Contents(), Delete(key, call));
      if key !in products || !call.taken { return; }
      retired := retired + {key};
      products := products - {key};
      checks := checks - {key};
    }
  }
}
