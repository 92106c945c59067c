/** The publish gate as the admin handlers ask it: evidence gathered from the stored records at one moment. */
module ProductGate {
  import opened Text
  import opened Timestamps
  import Contracts
  import opened PublishGate

  /** What the store answers. Readiness, approvals and the pack must be readable; a quality listing that
      fails is passed over, a scope listing that fails counts as no masking. */
  datatype Records = Records(readable: bool,
                             readiness: string -> seq<Readiness>, approvals: string -> seq<Trace>,
                             pack: string -> Option<string>, quality: string -> Option<seq<Quality>>,
                             scopes: string -> Option<seq<Contracts.Scope>>)

  // ----- Masking -----

  /** A contract that answers queries now or may later. */
  predicate CanServe(s: Contracts.Scope, now: int) {
    EqualFold(TrimSpace(s.status), "active") &&
    match s.validTo
    case Unset => true
    case Unreadable => false
    case At(t) => t >= now
  }

  predicate Masked(scopes: Option<seq<Contracts.Scope>>, now: int) {
    scopes.Some? && forall s :: s in scopes.value ==> CanServe(s, now) ==> Contracts.Masks(s.maskingPolicy)
  }

  method MaskingConfigured(scopes: Option<seq<Contracts.Scope>>, now: int) returns (configured: bool)
    ensures configured == Masked(scopes, now)
  {
    configured := false;
    if scopes.None? { return; }
    configured := true;
    var i := 0;
    while i < |scopes.value|
      invariant 0 <= i <= |scopes.value| && configured
      invariant forall j :: 0 <= j < i && CanServe(scopes.value[j], now) ==>
        Contracts.Masks(scopes.value[j].maskingPolicy)
    {
      if CanServe(scopes.value[i], now) && !Contracts.Masks(scopes.value[i].maskingPolicy) {
        return false;
      }
      i := i + 1;
    }
  }

  // ----- Gathering -----

  function FoldedKeys(keys: seq<string>): set<string> {
    set k | k in keys :: Lower(k)
  }

  /** The readiness rows of the linked assets, an asset linked under two spellings read once. */
  function ReadinessOf(keys: seq<string>, rec: Records): seq<Readiness> {
    if keys == [] then []
    else
      var n := |keys| - 1;
      ReadinessOf(keys[..n], rec) + if Lower(keys[n]) in FoldedKeys(keys[..n]) then [] else rec.readiness(keys[n])
  }

  function QualityOf(keys: seq<string>, rec: Records): seq<Quality> {
    if keys == [] then []
    else
      var n := |keys| - 1;
      QualityOf(keys[..n], rec) + match rec.quality(keys[n]) case None => [] case Some(qs) => qs
  }

  function EvidenceFor(p: Product, rec: Records, now: int): Evidence {
    var keys := AssetKeys(p.sourceRef);
    Evidence(ReadinessOf(keys, rec), rec.approvals(p.key), rec.pack(p.key), QualityOf(keys, rec),
      Masked(rec.scopes(p.key), now))
  }

  ghost predicate GateAllows(p: Product, rec: Records, now: int) {
    rec.readable && Allowed(p, EvidenceFor(p, rec, now), now)
  }

  /** The first key of its spelling lists the row. */
  ghost predicate ListsRow(keys: seq<string>, rec: Records, i: int, row: Readiness) {
    && 0 <= i < |keys| && row in rec.readiness(keys[i])
    && forall j :: 0 <= j < i ==> Lower(keys[j]) != Lower(keys[i])
  }

  ghost predicate ListsResult(keys: seq<string>, rec: Records, i: int, q: Quality) {
    0 <= i < |keys| && rec.quality(keys[i]).Some? && q in rec.quality(keys[i]).value
  }

  lemma RowsGathered(keys: seq<string>, rec: Records)
    requires keys != []
    requires var front := keys[..|keys| - 1];
      forall row :: row in ReadinessOf(front, rec) <==> exists i :: ListsRow(front, rec, i, row)
    ensures forall row :: row in ReadinessOf(keys, rec) <==> exists i :: ListsRow(keys, rec, i, row)
  {
    var n := |keys| - 1;
    var front := keys[..n];
    assert Lower(keys[n]) in FoldedKeys(front) <==> exists j :: 0 <= j < n && Lower(keys[j]) == Lower(keys[n]) by {
      if j :| 0 <= j < n && Lower(keys[j]) == Lower(keys[n]) { assert front[j] in front; }
    }
    forall row ensures row in ReadinessOf(keys, rec) <==> exists i :: ListsRow(keys, rec, i, row) {
      if i :| ListsRow(keys, rec, i, row) { assert i < n ==> ListsRow(front, rec, i, row); }
      if i :| ListsRow(front, rec, i, row) { assert ListsRow(keys, rec, i, row); }
      if Lower(keys[n]) !in FoldedKeys(front) && row in rec.readiness(keys[n]) { assert ListsRow(keys, rec, n, row); }
    }
  }

  lemma ResultsGathered(keys: seq<string>, rec: Records)
    requires keys != []
    requires var front := keys[..|keys| - 1];
      forall q :: q in QualityOf(front, rec) <==> exists i :: ListsResult(front, rec, i, q)
    ensures forall q :: q in QualityOf(keys, rec) <==> exists i :: ListsResult(keys, rec, i, q)
  {
    var n := |keys| - 1;
    var front := keys[..n];
    forall q ensures q in QualityOf(keys, rec) <==> exists i :: ListsResult(keys, rec, i, q) {
      if i :| ListsResult(keys, rec, i, q) { assert i < n ==> ListsResult(front, rec, i, q); }
      if i :| ListsResult(front, rec, i, q) { assert ListsResult(keys, rec, i, q); }
      if rec.quality(keys[n]).Some? && q in rec.quality(keys[n]).value { assert ListsResult(keys, rec, n, q); }
    }
  }

  /** Nothing listed is lost in gathering, and nothing else is gathered. */
  lemma {:induction false} GatheredExact(keys: seq<string>, rec: Records)
    ensures forall row :: row in ReadinessOf(keys, rec) <==> exists i :: ListsRow(keys, rec, i, row)
    ensures forall q :: q in QualityOf(keys, rec) <==> exists i :: ListsResult(keys, rec, i, q)
    decreases |keys|
  {
    if keys != [] {
      var n := |keys| - 1;
      var front := keys[..n];
      GatheredExact(front, rec);
      RowsGathered(keys, rec);
      ResultsGathered(keys, rec);
    }
  }

  /** An active contract that has not closed, or does not close; one whose end cannot be read serves nobody. */
  ghost predicate Serves(s: Contracts.Scope, now: int) {
    EqualFold(TrimSpace(s.status), "active") && (s.validTo.Unset? || (s.validTo.At? && now <= s.validTo.t))
  }

  /** What a strict product needs of the stored records, besides its approvals. */
  ghost predicate StrictlyReady(p: Product, rec: Records, now: int) {
    var keys := AssetKeys(p.sourceRef);
    && keys != []
    && (forall a :: a in keys ==> exists score :: ScoreOf(a, ReadinessOf(keys, rec), score) && score >= 70)
    && rec.pack(p.key).Some? && TrimSpace(rec.pack(p.key).value) != "" && TrimSpace(rec.pack(p.key).value) != "{}"
    && (forall i, q :: ListsResult(keys, rec, i, q) ==> q.passed)
    && (Sensitive(p.sensitivity) ==>
          rec.scopes(p.key).Some? && forall s :: s in rec.scopes(p.key).value && Serves(s, now) ==>
            Normalize(s.maskingPolicy) == "redact" || Normalize(s.maskingPolicy) == "hash")
  }

  /** The gate read off the stored records: everything readable, the required steps of the product's own approvals
      met, and for a strict product its assets scored, its pack there, no failed result and no bare contract. */
  lemma GateAllowsExact(p: Product, rec: Records, now: int)
    ensures GateAllows(p, rec, now) <==>
      && rec.readable
      && (forall s :: RequiredStep(s, Strict(p), rec.approvals(p.key)) ==> StepMet(s, rec.approvals(p.key), now))
      && (Strict(p) ==> StrictlyReady(p, rec, now))
  {
    GatheredExact(AssetKeys(p.sourceRef), rec);
    var e := EvidenceFor(p, rec, now);
    assert (forall q :: q in e.quality ==> q.passed)
      <==> forall i, q :: ListsResult(AssetKeys(p.sourceRef), rec, i, q) ==> q.passed;
  }

  lemma ReadinessStep(keys: seq<string>, i: nat, rec: Records)
    requires i < |keys|
    ensures var seen, key := FoldedKeys(keys[..i]), Lower(keys[i]);
      && FoldedKeys(keys[..i + 1]) == (if key in seen then seen else seen + {key})
      && ReadinessOf(keys[..i + 1], rec)
         == if key in seen then ReadinessOf(keys[..i], rec) else ReadinessOf(keys[..i], rec) + rec.readiness(keys[i])
  {
    var done, upTo := keys[..i], keys[..i + 1];
    assert upTo[..i] == done && upTo[i] == keys[i];
    assert forall k :: k in upTo <==> k in done || k == keys[i];
    assert ReadinessOf(done, rec) + [] == ReadinessOf(done, rec);
  }

  method ProductReadiness(p: Product, rec: Records) returns (rows: seq<Readiness>)
    ensures rows == ReadinessOf(AssetKeys(p.sourceRef), rec)
  {
    var keys := AssetKeys(p.sourceRef);
    rows := [];
    var seen: set<string>, i := {}, 0;
    while i < |keys|
      invariant 0 <= i <= |keys| && seen == FoldedKeys(keys[..i]) && rows == ReadinessOf(keys[..i], rec)
    {
      var key := Lower(keys[i]);
      ReadinessStep(keys, i, rec);
      if key !in seen {
        seen := seen + {key};
        rows := rows + rec.readiness(keys[i]);
      }
      i := i + 1;
    }
    assert keys[..i] == keys;
  }

  /** The quality results of the linked assets; a listing that fails is passed over. */
  method ProductQuality(keys: seq<string>, rec: Records) returns (quality: seq<Quality>)
    ensures quality == QualityOf(keys, rec)
  {
    quality := [];
    var i := 0;
    while i < |keys|
      invariant 0 <= i <= |keys| && quality == QualityOf(keys[..i], rec)
    {
      assert keys[..i + 1][..i] == keys[..i];
      var listed := rec.quality(keys[i]);
      if listed.Some? { quality := quality + listed.value; }
      i := i + 1;
    }
    assert keys[..i] == keys;
  }

  /** The gate asked for one product at one moment; no verdict when a required read fails. */
  method ProductPublishGate(p: Product, rec: Records, now: int) returns (g: Option<Gate>)
    ensures g.None? <==> !rec.readable
    ensures g.Some? ==> (g.value.allowed <==> GateAllows(p, rec, now))
    ensures g.Some? ==> forall r :: r in g.value.blocked <==> Objects(r, p, EvidenceFor(p, rec, now), now)
  {
    if !rec.readable { return None; }
    var keys := AssetKeys(p.sourceRef);
    var readiness := ProductReadiness(p, rec);
    var quality := ProductQuality(keys, rec);
    var masked := MaskingConfigured(rec.scopes(p.key), now);
    var gate := EvaluatePublishGateV2(p, Evidence(readiness, rec.approvals(p.key), rec.pack(p.key), quality, masked),
      now);
    g := Some(gate);
  }

  /** Fields the gate does not read do not matter here either. */
  lemma GateAllowsReadsOnly(p: Product, q: Product, rec: Records, now: int)
    requires p.key == q.key && SameForGate(p, q)
    ensures GateAllows(p, rec, now) <==> GateAllows(q, rec, now)
  {
    GateReadsOnly(p, q, EvidenceFor(p, rec, now), now);
  }

  lemma RescoredStillPasses(p: Product, risk: int, rec: Records, now: int)
    requires GateAllows(p, rec, now) && (Strict(p.(riskScore := risk)) ==> Strict(p))
    ensures GateAllows(p.(riskScore := risk), rec, now)
  {
    RescoredStillAllowed(p, risk, EvidenceFor(p, rec, now), now);
  }

  /** Records that can be read and hold nothing. */
  const EMPTY_RECORDS := Records(true, _ => [], _ => [], _ => None, _ => None, _ => None)

  lemma EmptyRecordsPass(p: Product, now: int)
    ensures GateAllows(p, EMPTY_RECORDS, now) <==> !Strict(p)
  {
    NoApprovals(p, EvidenceFor(p, EMPTY_RECORDS, now), now);
  }

  /** A strict product without linked assets passes with no records at any time. */
  lemma NoAssetsNeverPasses(p: Product, rec: Records, now: int)
    requires Strict(p) && AssetKeys(p.sourceRef) == []
    ensures !GateAllows(p, rec, now)
  {
  }

  // ----- Time -----

  lemma AllowedWith(p: Product, e: Evidence, masked: bool, now: int)
    requires Allowed(p, e, now)
    ensures Allowed(p, e.(masked := masked), now) <==> (Strict(p) && Sensitive(p.sensitivity) ==> masked)
  {
    var f := e.(masked := masked);
    assert ApprovalsMet(p, f, now) <==> ApprovalsMet(p, e, now);
    assert AssetsReady(p, f) <==> AssetsReady(p, e);
  }

  /** With the records fixed, a product allowed later was allowed earlier exactly when its masking, if it
      needs any, held earlier too. */
  lemma PassesEarlier(p: Product, rec: Records, earlier: int, later: int)
    requires earlier <= later && GateAllows(p, rec, later)
    ensures GateAllows(p, rec, earlier)
      <==> (Strict(p) && Sensitive(p.sensitivity) ==> Masked(rec.scopes(p.key), earlier))
  {
    AllowedEarlier(p, EvidenceFor(p, rec, later), earlier, later);
    AllowedWith(p, EvidenceFor(p, rec, later), Masked(rec.scopes(p.key), earlier), earlier);
  }

  lemma ServesUntil(s: Contracts.Scope, earlier: int, later: int)
    requires earlier <= later
    ensures CanServe(s, later) <==> CanServe(s, earlier) && !(s.validTo.At? && earlier <= s.validTo.t < later)
  {
  }

  /** The contracts without masking that can still serve. */
  function BareScopes(scopes: seq<Contracts.Scope>, now: int): set<Contracts.Scope> {
    set s | s in scopes && !Contracts.Masks(s.maskingPolicy) && CanServe(s, now)
  }

  lemma MaskedIffNoneBare(scopes: seq<Contracts.Scope>, now: int)
    ensures Masked(Some(scopes), now) <==> BareScopes(scopes, now) == {}
  {
    if BareScopes(scopes, now) == {} {
      forall s | s in scopes && CanServe(s, now) ensures Contracts.Masks(s.maskingPolicy) {
        assert s !in BareScopes(scopes, now);
      }
    } else {
      var s :| s in BareScopes(scopes, now);
    }
  }

  /** Masking can only be gained by waiting: it is missing earlier and there later exactly when some contract
      without masking serves at first, and each that does closes in between. */
  lemma MaskingGained(scopes: seq<Contracts.Scope>, earlier: int, later: int)
    requires earlier <= later
    ensures Masked(Some(scopes), earlier) ==> Masked(Some(scopes), later)
    ensures Masked(Some(scopes), later) && !Masked(Some(scopes), earlier) <==>
            BareScopes(scopes, earlier) != {} && forall s :: s in BareScopes(scopes, earlier) ==>
              s.validTo.At? && earlier <= s.validTo.t < later
  {
    MaskedIffNoneBare(scopes, earlier);
    MaskedIffNoneBare(scopes, later);
    var before, after := BareScopes(scopes, earlier), BareScopes(scopes, later);
    forall s ensures s in after <==> s in before && !(s.validTo.At? && earlier <= s.validTo.t < later) {
      ServesUntil(s, earlier, later);
    }
    if after != {} {
      var s :| s in after;
      assert s in before;
    }
  }

  lemma {:induction false} SameGathering(keys: seq<string>, rec: Records, rec': Records)
    requires rec'.readiness == rec.readiness && rec'.quality == rec.quality
    ensures ReadinessOf(keys, rec') == ReadinessOf(keys, rec) && QualityOf(keys, rec') == QualityOf(keys, rec)
    decreases |keys|
  {
    if keys != [] { SameGathering(keys[..|keys| - 1], rec, rec'); }
  }

  /** One more contract, unmasked and closing at `t`, keeps a sensitive product off at `t` and lets it pass
      right after. */
  lemma ClosingContractOpensGate(p: Product, rec: Records, scope: Contracts.Scope, t: int)
    requires Strict(p) && Sensitive(p.sensitivity) && GateAllows(p, rec, t + 1)
    requires scope.status == "active" && scope.validTo == At(t) && scope.maskingPolicy == ""
    ensures var scopes := rec.scopes(p.key).value + [scope];
      var rec' := rec.(scopes := k => if k == p.key then Some(scopes) else rec.scopes(k));
      GateAllows(p, rec', t + 1) && !GateAllows(p, rec', t)
  {
    var listed := rec.scopes(p.key).value;
    var scopes := listed + [scope];
    var rec' := rec.(scopes := k => if k == p.key then Some(scopes) else rec.scopes(k));
    var keys := AssetKeys(p.sourceRef);
    SameGathering(keys, rec, rec');
    TrimSpaceFixedPoints("active");
    assert Trimmed("active");
    assert CanServe(scope, t) && !CanServe(scope, t + 1);
    assert Normalize("") == "";
    assert scope in scopes && !Masked(Some(scopes), t);
    assert Masked(Some(scopes), t + 1);
    assert EvidenceFor(p, rec', t + 1) == EvidenceFor(p, rec, t + 1);
  }
}
