/** The publish gate of data products: which evidence lets a product go live, and why not. */
module PublishGate {
  import opened Text
  import opened Timestamps
  import Sorting
  import opened StringKeys

  datatype Product = Product(key: string, nameKO: string, sourceType: string, sourceRef: string, sensitivity: string,
                             status: string, updatedBy: string, apiSpec: string, pricingModel: string, pocPlan: string,
                             riskScore: int, revenueScore: int)

  datatype Readiness = Readiness(assetKey: string, schema: int, freshness: int, sample: int, missingness: int,
                                 sensitivity: int, externalSharing: int, apiReadiness: int, billingReadiness: int,
                                 overall: int)

  datatype Trace = Trace(step: string, status: string, required: bool, expires: Timestamp)

  datatype Quality = Quality(passed: bool, message: string)

  /** Everything the gate looks at besides the product and the clock. */
  datatype Evidence = Evidence(readiness: seq<Readiness>, approvals: seq<Trace>, pack: Option<string>,
                               quality: seq<Quality>, masked: bool)

  datatype Reason =
    | MissingApproval(step: string)
    | NoAssets
    | MissingReadiness(asset: string)
    | LowReadiness(asset: string, score: int)
    | NoPack
    | QualityFailed(message: string)
    | NoMasking

  datatype Gate = Gate(strict: bool, required: seq<string>, statuses: map<string, string>, blocked: seq<Reason>,
                       allowed: bool, qualityPassed: bool, maskingConfigured: bool)

  const READINESS_THRESHOLD := 70
  const REQUIRED_APPROVALS := ["data_owner", "legal", "compliance"]

  // ----- Reading the evidence -----

  function Clamp(v: int): (r: int)
    ensures 0 <= r <= 100
    ensures (0 <= v <= 100 ==> r == v) && (v < 0 ==> r == 0) && (v > 100 ==> r == 100)
  {
    if v < 0 then 0 else if v > 100 then 100 else v
  }

  /** Components within 0..100; an overall score that was not given is their mean. */
  function NormalizeReadiness(r: Readiness): Readiness {
    var n := r.(schema := Clamp(r.schema), freshness := Clamp(r.freshness), sample := Clamp(r.sample),
                missingness := Clamp(r.missingness), sensitivity := Clamp(r.sensitivity),
                externalSharing := Clamp(r.externalSharing), apiReadiness := Clamp(r.apiReadiness),
                billingReadiness := Clamp(r.billingReadiness));
    var mean := (n.schema + n.freshness + n.sample + n.missingness + n.sensitivity + n.externalSharing
                 + n.apiReadiness + n.billingReadiness) / 8;
    n.(overall := Clamp(if r.overall <= 0 then mean else r.overall))
  }

  /** The score, brought within 0 and 100. */
  predicate Bounded(score: int, given: int) {
    && 0 <= score <= 100
    && (0 <= given <= 100 ==> score == given) && (given < 0 ==> score == 0) && (given > 100 ==> score == 100)
  }

  predicate ComponentsBounded(n: Readiness, r: Readiness) {
    && Bounded(n.schema, r.schema) && Bounded(n.freshness, r.freshness) && Bounded(n.sample, r.sample)
    && Bounded(n.missingness, r.missingness) && Bounded(n.sensitivity, r.sensitivity)
    && Bounded(n.externalSharing, r.externalSharing) && Bounded(n.apiReadiness, r.apiReadiness)
    && Bounded(n.billingReadiness, r.billingReadiness)
  }

  lemma ComponentBounds(r: Readiness)
    ensures ComponentsBounded(NormalizeReadiness(r), r) && NormalizeReadiness(r).assetKey == r.assetKey
  {
  }

  /** Components end up within 0 and 100. An overall score above zero counts as given, up to 100; any other is the
      mean of the eight components, rounded down. */
  lemma ScoreBounds(r: Readiness)
    ensures var n := NormalizeReadiness(r);
      && ComponentsBounded(n, r) && n.assetKey == r.assetKey
      && 0 <= n.overall <= 100
      && (r.overall > 0 ==> Bounded(n.overall, r.overall))
      && (r.overall <= 0 ==>
            8 * n.overall <= n.schema + n.freshness + n.sample + n.missingness + n.sensitivity + n.externalSharing
                             + n.apiReadiness + n.billingReadiness < 8 * n.overall + 8)
  {
    ComponentBounds(r);
  }

  const SENSITIVE_WORDS := ["restricted", "personal", "credit", "pseudonym", "sensitive"]

  predicate Sensitive(sensitivity: string) {
    var s := Normalize(sensitivity);
    Contains(s, "restricted") || Contains(s, "personal") || Contains(s, "credit") || Contains(s, "pseudonym")
      || Contains(s, "sensitive")
  }

  /** One of the five words stands somewhere in the label, letter case apart. */
  lemma SensitiveExact(sensitivity: string)
    ensures Sensitive(sensitivity) <==> exists w, i: nat ::
      w in SENSITIVE_WORDS && StandsAt(w, Normalize(sensitivity), i)
  {
    var s := Normalize(sensitivity);
    forall w | w in SENSITIVE_WORDS ensures Contains(s, w) <==> exists i: nat :: StandsAt(w, s, i) {
      ContainsExact(s, w);
    }
    assert SENSITIVE_WORDS[0] == "restricted" && SENSITIVE_WORDS[1] == "personal" && SENSITIVE_WORDS[2] == "credit"
      && SENSITIVE_WORDS[3] == "pseudonym" && SENSITIVE_WORDS[4] == "sensitive";
    if Sensitive(sensitivity) {
      var w :| w in SENSITIVE_WORDS && Contains(s, w);
      var i: nat :| StandsAt(w, s, i);
    }
  }

  predicate Strict(p: Product) {
    p.riskScore >= 70 || Sensitive(p.sensitivity) || (Normalize(p.sourceType) == "api" && p.riskScore >= 55)
  }

  predicate IsSeparator(c: char) {
    c == ',' || c == '\n' || c == ';' || c == '|'
  }

  /** The linked source assets: the non-blank trimmed fields of the source reference. */
  function AssetKeys(sourceRef: string): seq<string> {
    Pieces(sourceRef, IsSeparator)
  }

  /** How a reference reads: its text up to a comma, a line end, a semicolon or a bar names one asset, unless it is
      blank, and what follows names the others. */
  lemma AssetKeysRead(head: string, sep: string, rest: string)
    requires forall c :: c in head ==> c !in ",\n;|"
    requires sep in {",", "\n", ";", "|"} || (sep == "" && rest == "")
    ensures AssetKeys(head + sep + rest) == (if Blank(head) then [] else [TrimSpace(head)]) + AssetKeys(rest)
  {
    var seps := ",\n;|";
    assert seps[0] == ',' && seps[1] == '\n' && seps[2] == ';' && seps[3] == '|';
    forall i | 0 <= i < |head| ensures !IsSeparator(head[i]) { assert head[i] in head; }
    if sep == "" {
      assert head + sep + rest == head;
      PiecesOne(head, IsSeparator);
    } else {
      PiecesCons(head, sep[0], rest, IsSeparator);
      assert sep == [sep[0]];
    }
  }

  /** The normalized readiness per folded asset key, the last listed row winning. */
  function ReadinessByAsset(rows: seq<Readiness>): map<string, Readiness> {
    if rows == [] then map[]
    else
      var n := |rows| - 1;
      ReadinessByAsset(rows[..n])[Lower(rows[n].assetKey) := NormalizeReadiness(rows[n])]
  }

  /** The position of the last row listed for an asset, letter case apart; -1 when there is none. */
  ghost function LastRow(asset: string, rows: seq<Readiness>): (n: int)
    ensures -1 <= n < |rows|
    ensures n >= 0 ==> Lower(rows[n].assetKey) == Lower(asset)
    ensures forall j :: n < j < |rows| ==> Lower(rows[j].assetKey) != Lower(asset)
  {
    if rows == [] then -1
    else if Lower(rows[|rows| - 1].assetKey) == Lower(asset) then |rows| - 1
    else LastRow(asset, rows[..|rows| - 1])
  }

  ghost predicate ScoreOf(asset: string, rows: seq<Readiness>, score: int) {
    LastRow(asset, rows) >= 0 && NormalizeReadiness(rows[LastRow(asset, rows)]).overall == score
  }

  ghost predicate Unscored(asset: string, rows: seq<Readiness>) {
    LastRow(asset, rows) < 0
  }

  /** The index holds the last listed row of each asset. */
  lemma {:induction false} ReadinessLookup(asset: string, rows: seq<Readiness>)
    ensures var m, k, n := ReadinessByAsset(rows), Lower(asset), LastRow(asset, rows);
      (k in m <==> n >= 0) && (n >= 0 ==> m[k] == NormalizeReadiness(rows[n]))
    decreases |rows|
  {
    if rows != [] { ReadinessLookup(asset, rows[..|rows| - 1]); }
  }

  predicate PackPresent(pack: Option<string>) {
    pack.Some? && TrimSpace(pack.value) != "" && TrimSpace(pack.value) != "{}"
  }

  // ----- Approvals -----

  predicate Expired(e: Timestamp, now: int) {
    match e
    case Unset => false
    case Unreadable => true
    case At(t) => t <= now
  }

  function TraceStatus(t: Trace, now: int): string {
    if Expired(t.expires, now) then "expired"
    else if Normalize(t.status) == "" then "pending"
    else Normalize(t.status)
  }

  predicate Passes(status: string) {
    status == "approved" || status == "waived"
  }

  /** Some trace of the step is approved or waived and has not expired. */
  ghost predicate StepMet(step: string, traces: seq<Trace>, now: int) {
    exists i :: 0 <= i < |traces| && Normalize(traces[i].step) == step && Passes(TraceStatus(traces[i], now))
  }

  /** An approval that counts: approved or waived, and either without an expiry or not yet there. */
  ghost predicate Counts(t: Trace, step: string, now: int) {
    && Normalize(t.step) == step && (Normalize(t.status) == "approved" || Normalize(t.status) == "waived")
    && match t.expires
       case Unset => true
       case Unreadable => false
       case At(end) => now < end
  }

  /** A step is met by an approval that counts and by nothing else; in particular not by one at or past its expiry. */
  lemma StepMetExact(step: string, traces: seq<Trace>, now: int)
    ensures StepMet(step, traces, now) <==> exists i :: 0 <= i < |traces| && Counts(traces[i], step, now)
  {
    forall i | 0 <= i < |traces|
      ensures Counts(traces[i], step, now)
        <==> Normalize(traces[i].step) == step && Passes(TraceStatus(traces[i], now))
    {
      assert "expired" != "approved" && "expired" != "waived" by { assert "expired"[0] != "approved"[0]; }
      assert "pending" != "approved" && "pending" != "waived" by { assert "pending"[0] != "approved"[0]; }
    }
    if StepMet(step, traces, now) {
      var i :| 0 <= i < |traces| && Normalize(traces[i].step) == step && Passes(TraceStatus(traces[i], now));
      assert Counts(traces[i], step, now);
    }
    if i :| 0 <= i < |traces| && Counts(traces[i], step, now) {
      assert Normalize(traces[i].step) == step && Passes(TraceStatus(traces[i], now));
    }
  }

  /** The status of the first passing trace of a step, else of its last trace, else `best`. */
  function BestStatus(step: string, traces: seq<Trace>, now: int, best: string): string {
    if traces == [] then best
    else if Normalize(traces[0].step) != step then BestStatus(step, traces[1..], now, best)
    else
      var status := TraceStatus(traces[0], now);
      if Passes(status) then status else BestStatus(step, traces[1..], now, status)
  }

  lemma {:induction false} BestStatusPasses(step: string, traces: seq<Trace>, now: int, best: string)
    requires !Passes(best)
    ensures Passes(BestStatus(step, traces, now, best)) <==> StepMet(step, traces, now)
    decreases |traces|
  {
    if traces != [] {
      var head, tail := traces[0], traces[1..];
      var next := if Normalize(head.step) == step then TraceStatus(head, now) else best;
      if !Passes(next) {
        BestStatusPasses(step, tail, now, next);
        if StepMet(step, tail, now) {
          var i :| 0 <= i < |tail| && Normalize(tail[i].step) == step && Passes(TraceStatus(tail[i], now));
          assert traces[i + 1] == tail[i];
        }
        if StepMet(step, traces, now) {
          var i :| 0 <= i < |traces| && Normalize(traces[i].step) == step && Passes(TraceStatus(traces[i], now));
          assert i > 0 && tail[i - 1] == traces[i];
        }
      }
    }
  }

  /** The shown status of a trace that does not count. */
  ghost predicate ShownAs(t: Trace, now: int, status: string) {
    var lapsed := t.expires.Unreadable? || (t.expires.At? && t.expires.t <= now);
    status == if lapsed then "expired" else if Blank(t.status) then "pending" else Normalize(t.status)
  }

  /** The trace whose status is shown: the first of the step that counts, or its last when none does. */
  ghost predicate Decides(step: string, traces: seq<Trace>, now: int, i: nat) {
    && i < |traces| && Normalize(traces[i].step) == step
    && (forall j :: 0 <= j < i ==> !Counts(traces[j], step, now))
    && (Counts(traces[i], step, now) || forall j :: i < j < |traces| ==> Normalize(traces[j].step) != step)
  }

  lemma StatusShown(t: Trace, now: int)
    ensures ShownAs(t, now, TraceStatus(t, now))
    ensures Passes(TraceStatus(t, now)) <==> Counts(t, Normalize(t.step), now)
  {
    assert Normalize(t.status) == "" <==> Blank(t.status);
    assert "expired" != "approved" && "expired" != "waived" by { assert "expired"[0] != "approved"[0]; }
    assert "pending" != "approved" && "pending" != "waived" by { assert "pending"[0] != "approved"[0]; }
  }

  /** The status shown for a step is that of the trace that decides; without a trace nothing changes. */
  lemma {:induction false} BestStatusShown(step: string, traces: seq<Trace>, now: int, best: string)
    ensures forall i: nat :: Decides(step, traces, now, i) ==>
      ShownAs(traces[i], now, BestStatus(step, traces, now, best))
    ensures (forall i :: 0 <= i < |traces| ==> Normalize(traces[i].step) != step) ==>
      BestStatus(step, traces, now, best) == best
    decreases |traces|
  {
    if traces != [] {
      var head, tail := traces[0], traces[1..];
      StatusShown(head, now);
      var status := TraceStatus(head, now);
      var next := if Normalize(head.step) == step then status else best;
      BestStatusShown(step, tail, now, next);
      forall i: nat | Decides(step, traces, now, i)
        ensures ShownAs(traces[i], now, BestStatus(step, traces, now, best))
      {
        if i > 0 {
          assert traces[i] == tail[i - 1] && !Counts(traces[0], step, now);
          assert forall j :: 0 <= j < i - 1 ==> tail[j] == traces[j + 1];
          assert forall j :: i - 1 < j < |tail| ==> tail[j] == traces[j + 1];
          assert Decides(step, tail, now, i - 1);
        } else if !Counts(head, step, now) {
          assert forall j :: 0 <= j < |tail| ==> tail[j] == traces[j + 1];
        }
      }
    }
  }

  method BestApprovalStatus(step: string, traces: seq<Trace>, now: int) returns (best: string)
    ensures best == BestStatus(Normalize(step), traces, now, "missing")
    ensures Passes(best) <==> StepMet(Normalize(step), traces, now)
  {
    var wanted := Normalize(step);
    BestStatusPasses(wanted, traces, now, "missing");
    best := "missing";
    var i := 0;
    assert traces[0..] == traces;
    while i < |traces|
      invariant 0 <= i <= |traces|
      invariant BestStatus(wanted, traces[i..], now, best) == BestStatus(wanted, traces, now, "missing")
    {
      assert traces[i..][0] == traces[i] && traces[i..][1..] == traces[i + 1..];
      if Normalize(traces[i].step) == wanted {
        var status := TraceStatus(traces[i], now);
        if Passes(status) { return status; }
        best := status;
      }
      i := i + 1;
    }
  }

  /** The steps a product must clear: the standing three when strict, and every trace marked required. */
  ghost predicate RequiredStep(step: string, strict: bool, traces: seq<Trace>) {
    (strict && step in REQUIRED_APPROVALS)
    || (step != "" && exists i :: 0 <= i < |traces| && traces[i].required && Normalize(traces[i].step) == step)
  }

  lemma RequiredStepSnoc(traces: seq<Trace>, t: Trace)
    ensures forall s :: RequiredStep(s, false, traces + [t])
                        <==> RequiredStep(s, false, traces) || (t.required && s != "" && s == Normalize(t.step))
  {
    var all := traces + [t];
    forall s
      ensures RequiredStep(s, false, all)
              <==> RequiredStep(s, false, traces) || (t.required && s != "" && s == Normalize(t.step))
    {
      if RequiredStep(s, false, traces) {
        var i :| 0 <= i < |traces| && traces[i].required && Normalize(traces[i].step) == s;
        assert all[i] == traces[i];
      }
      assert all[|traces|] == t;
    }
  }

  lemma SortedExtras(extras: seq<string>)
    requires Distinct(extras)
    ensures var s := Sorting.Sort(Sorting.StringLe, extras);
      Sorting.Sorted(Sorting.StringLe, s) && Distinct(s) && forall x :: x in s <==> x in extras
  {
    Sorting.StringOrder();
    Sorting.SortCorrect(Sorting.StringLe, extras);
    Sorting.SortMembers(Sorting.StringLe, extras);
    DistinctByCount(extras, Sorting.Sort(Sorting.StringLe, extras));
  }

  /** The standing steps first, then the further ones in string order, none twice. */
  method RequiredApprovalSteps(strict: bool, traces: seq<Trace>) returns (steps: seq<string>)
    ensures forall s :: s in steps <==> RequiredStep(s, strict, traces)
    ensures Distinct(steps)
    ensures var n := if strict then 3 else 0;
      n <= |steps| && steps[..n] == REQUIRED_APPROVALS[..n] && Sorting.Sorted(Sorting.StringLe, steps[n..])
  {
    steps := if strict then REQUIRED_APPROVALS else [];
    var extras: seq<string> := [];
    var i := 0;
    while i < |traces|
      invariant 0 <= i <= |traces|
      invariant forall s :: s in extras <==> s !in steps && RequiredStep(s, false, traces[..i])
      invariant Distinct(extras)
    {
      var step := Normalize(traces[i].step);
      assert traces[..i + 1] == traces[..i] + [traces[i]];
      RequiredStepSnoc(traces[..i], traces[i]);
      if traces[i].required && step != "" && step !in steps && step !in extras {
        extras := extras + [step];
      }
      i := i + 1;
    }
    assert traces[..i] == traces;
    var sorted := Sorting.Sort(Sorting.StringLe, extras);
    SortedExtras(extras);
    var standing := steps;
    steps := steps + sorted;
    assert steps[|standing|..] == sorted;
    assert REQUIRED_APPROVALS[0] != REQUIRED_APPROVALS[1] && REQUIRED_APPROVALS[0] != REQUIRED_APPROVALS[2];
    assert REQUIRED_APPROVALS[1][0] != REQUIRED_APPROVALS[2][0];
    DistinctConcat(standing, sorted);
  }

  /** When the stricter gate applies, by risk. */
  lemma StrictBands(p: Product)
    ensures p.riskScore >= 70 ==> Strict(p)
    ensures 55 <= p.riskScore < 70 ==> (Strict(p) <==> Sensitive(p.sensitivity) || Normalize(p.sourceType) == "api")
    ensures p.riskScore < 55 ==> (Strict(p) <==> Sensitive(p.sensitivity))
  {
  }

  // ----- The verdict -----

  /** When each reason is given. */
  ghost predicate Objects(r: Reason, p: Product, e: Evidence, now: int) {
    match r
    case MissingApproval(step) => RequiredStep(step, Strict(p), e.approvals) && !StepMet(step, e.approvals, now)
    case NoAssets => Strict(p) && AssetKeys(p.sourceRef) == []
    case MissingReadiness(asset) => Strict(p) && asset in AssetKeys(p.sourceRef) && Unscored(asset, e.readiness)
    case LowReadiness(asset, score) =>
      Strict(p) && asset in AssetKeys(p.sourceRef) && ScoreOf(asset, e.readiness, score) && score < READINESS_THRESHOLD
    case NoPack => Strict(p) && !PackPresent(e.pack)
    case QualityFailed(message) => Strict(p) && Quality(false, message) in e.quality
    case NoMasking => Strict(p) && Sensitive(p.sensitivity) && !e.masked
  }

  /** The reasons given by the first evaluation, which knows nothing of quality and masking. */
  predicate Basic(r: Reason) {
    !r.QualityFailed? && !r.NoMasking?
  }

  /** One status per step, the best there is. */
  ghost predicate Statuses(statuses: map<string, string>, steps: seq<string>, traces: seq<Trace>, now: int) {
    forall s :: (s in statuses <==> s in steps)
      && (s in statuses ==> statuses[s] == BestStatus(s, traces, now, "missing"))
  }

  ghost predicate Approvals(g: Gate, p: Product, e: Evidence, now: int) {
    && g.strict == Strict(p)
    && (forall s :: s in g.required <==> RequiredStep(s, g.strict, e.approvals))
    && Statuses(g.statuses, g.required, e.approvals, now)
  }

  lemma StatusesSnoc(statuses: map<string, string>, steps: seq<string>, step: string, traces: seq<Trace>, now: int)
    requires Statuses(statuses, steps, traces, now)
    ensures Statuses(statuses[step := BestStatus(step, traces, now, "missing")], steps + [step], traces, now)
  {
  }

  lemma StandingNormalized(step: string)
    requires step in REQUIRED_APPROVALS
    ensures Normalize(step) == step
  {
    TrimSpaceFixedPoints(step);
    assert Trimmed(step);
    assert forall i :: 0 <= i < |step| ==> LowerChar(step[i]) == step[i];
    assert Lower(step) == step;
  }

  lemma RequiredNormalized(step: string, strict: bool, traces: seq<Trace>)
    requires RequiredStep(step, strict, traces)
    ensures Normalize(step) == step
  {
    if step in REQUIRED_APPROVALS {
      StandingNormalized(step);
    } else {
      var i :| 0 <= i < |traces| && Normalize(traces[i].step) == step;
      NormalizeIdempotent(traces[i].step);
    }
  }

  /** The approval loop, over steps in normal form. */
  method CheckSteps(steps: seq<string>, traces: seq<Trace>, now: int)
    returns (statuses: map<string, string>, blocked: seq<Reason>)
    requires forall s :: s in steps ==> Normalize(s) == s
    ensures Statuses(statuses, steps, traces, now)
    ensures forall r :: r in blocked <==> r.MissingApproval? && r.step in steps && !StepMet(r.step, traces, now)
  {
    statuses, blocked := map[], [];
    var i := 0;
    while i < |steps|
      invariant 0 <= i <= |steps|
      invariant Statuses(statuses, steps[..i], traces, now)
      invariant forall r :: r in blocked <==>
        r.MissingApproval? && r.step in steps[..i] && !StepMet(r.step, traces, now)
    {
      var step := steps[i];
      assert step in steps;
      var status := BestApprovalStatus(step, traces, now);
      assert steps[..i + 1] == steps[..i] + [step];
      StatusesSnoc(statuses, steps[..i], step, traces, now);
      statuses := statuses[step := status];
      if !Passes(status) { blocked := blocked + [MissingApproval(step)]; }
      i := i + 1;
    }
    assert steps[..i] == steps;
  }

  /** The steps a product needs, the status of each, and the ones that are missing. */
  method CheckApprovals(p: Product, e: Evidence, now: int)
    returns (required: seq<string>, statuses: map<string, string>, blocked: seq<Reason>)
    ensures forall s :: s in required <==> RequiredStep(s, Strict(p), e.approvals)
    ensures Statuses(statuses, required, e.approvals, now)
    ensures forall r :: r in blocked <==> r.MissingApproval? && Objects(r, p, e, now)
  {
    required := RequiredApprovalSteps(Strict(p), e.approvals);
    forall s | s in required ensures Normalize(s) == s { RequiredNormalized(s, Strict(p), e.approvals); }
    statuses, blocked := CheckSteps(required, e.approvals, now);
  }

  ghost predicate AboutAsset(r: Reason, rows: seq<Readiness>) {
    match r
    case MissingReadiness(asset) => Unscored(asset, rows)
    case LowReadiness(asset, score) => ScoreOf(asset, rows, score) && score < READINESS_THRESHOLD
    case _ => false
  }

  /** The reason, if any, that one asset gives. */
  lemma AssetReason(asset: string, rows: seq<Readiness>)
    ensures var m, k := ReadinessByAsset(rows), Lower(asset);
      forall r: Reason :: (r.MissingReadiness? || r.LowReadiness?) && r.asset == asset ==>
        (AboutAsset(r, rows) <==>
          if k !in m then r == MissingReadiness(asset)
          else m[k].overall < READINESS_THRESHOLD && r == LowReadiness(asset, m[k].overall))
  {
    ReadinessLookup(asset, rows);
  }

  /** The readiness rows by folded asset key. */
  method IndexReadiness(rows: seq<Readiness>) returns (byAsset: map<string, Readiness>)
    ensures byAsset == ReadinessByAsset(rows)
  {
    byAsset := map[];
    var i := 0;
    while i < |rows|
      invariant 0 <= i <= |rows| && byAsset == ReadinessByAsset(rows[..i])
    {
      assert rows[..i + 1][..i] == rows[..i];
      byAsset := byAsset[Lower(rows[i].assetKey) := NormalizeReadiness(rows[i])];
      i := i + 1;
    }
    assert rows[..i] == rows;
  }

  /** The loop over the linked assets. */
  method CheckReadiness(keys: seq<string>, rows: seq<Readiness>) returns (blocked: seq<Reason>)
    ensures forall r :: r in blocked <==> AboutAsset(r, rows) && r.asset in keys
  {
    var byAsset := IndexReadiness(rows);
    blocked := [];
    var i := 0;
    while i < |keys|
      invariant 0 <= i <= |keys|
      invariant forall r :: r in blocked <==> AboutAsset(r, rows) && r.asset in keys[..i]
    {
      var key := keys[i];
      assert keys[..i + 1] == keys[..i] + [key];
      AssetReason(key, rows);
      if Lower(key) !in byAsset {
        blocked := blocked + [MissingReadiness(key)];
      } else if byAsset[Lower(key)].overall < READINESS_THRESHOLD {
        blocked := blocked + [LowReadiness(key, byAsset[Lower(key)].overall)];
      }
      i := i + 1;
    }
    assert keys[..i] == keys;
  }

  /** What the linked assets of a strict product have against it. */
  method CheckAssets(p: Product, e: Evidence, now: int) returns (blocked: seq<Reason>)
    requires Strict(p)
    ensures forall r :: r in blocked <==>
      (r.NoAssets? || r.MissingReadiness? || r.LowReadiness?) && Objects(r, p, e, now)
  {
    var keys := AssetKeys(p.sourceRef);
    blocked := CheckReadiness(keys, e.readiness);
    if keys == [] { blocked := [NoAssets] + blocked; }
  }

  /** The first evaluation: approvals for every product; assets, readiness and pack for strict ones. */
  method EvaluatePublishGate(p: Product, e: Evidence, now: int) returns (g: Gate)
    ensures Approvals(g, p, e, now)
    ensures forall r :: r in g.blocked <==> Basic(r) && Objects(r, p, e, now)
    ensures g.allowed <==> g.blocked == []
  {
    var required, statuses, blocked := CheckApprovals(p, e, now);
    g := Gate(Strict(p), required, statuses, blocked, blocked == [], false, false);
    if !g.strict { return; }
    var assets := CheckAssets(p, e, now);
    blocked := blocked + assets;
    if !PackPresent(e.pack) { blocked := blocked + [NoPack]; }
    g := g.(blocked := blocked, allowed := blocked == []);
  }

  /** The quality loop. No result at all fails no product, but counts as not passed. */
  method CheckQuality(quality: seq<Quality>) returns (passed: bool, failures: seq<Reason>)
    ensures passed <==> quality != [] && forall q :: q in quality ==> q.passed
    ensures forall r :: r in failures <==> r.QualityFailed? && Quality(false, r.message) in quality
  {
    passed, failures := quality != [], [];
    var i := 0;
    while i < |quality|
      invariant 0 <= i <= |quality|
      invariant passed <==> quality != [] && forall q :: q in quality[..i] ==> q.passed
      invariant forall r :: r in failures <==> r.QualityFailed? && Quality(false, r.message) in quality[..i]
    {
      assert quality[..i + 1] == quality[..i] + [quality[i]];
      if !quality[i].passed {
        passed := false;
        failures := failures + [QualityFailed(quality[i].message)];
      }
      i := i + 1;
    }
    assert quality[..i] == quality;
  }

  ghost predicate ApprovalsMet(p: Product, e: Evidence, now: int) {
    forall s :: RequiredStep(s, Strict(p), e.approvals) ==> StepMet(s, e.approvals, now)
  }

  ghost predicate AssetsReady(p: Product, e: Evidence) {
    var keys := AssetKeys(p.sourceRef);
    keys != [] && forall a :: a in keys ==> exists n :: ScoreOf(a, e.readiness, n) && n >= READINESS_THRESHOLD
  }

  /** The five conditions for a strict product; the required approvals alone for any other. */
  ghost predicate Allowed(p: Product, e: Evidence, now: int) {
    && ApprovalsMet(p, e, now)
    && (Strict(p) ==>
          && AssetsReady(p, e)
          && PackPresent(e.pack)
          && (forall q :: q in e.quality ==> q.passed)
          && (Sensitive(p.sensitivity) ==> e.masked))
  }

  /** No reason applies exactly when the conditions hold. */
  lemma NoObjections(p: Product, e: Evidence, now: int)
    ensures (forall r :: !Objects(r, p, e, now)) <==> Allowed(p, e, now)
  {
    var keys := AssetKeys(p.sourceRef);
    if forall r :: !Objects(r, p, e, now) {
      forall s | RequiredStep(s, Strict(p), e.approvals) ensures StepMet(s, e.approvals, now) {
        assert !Objects(MissingApproval(s), p, e, now);
      }
      assert !Objects(NoAssets, p, e, now) && !Objects(NoPack, p, e, now) && !Objects(NoMasking, p, e, now);
      if Strict(p) {
        forall a | a in keys ensures exists n :: ScoreOf(a, e.readiness, n) && n >= READINESS_THRESHOLD {
          assert !Objects(MissingReadiness(a), p, e, now);
          var n := NormalizeReadiness(e.readiness[LastRow(a, e.readiness)]).overall;
          assert ScoreOf(a, e.readiness, n) && !Objects(LowReadiness(a, n), p, e, now);
        }
        forall q | q in e.quality ensures q.passed {
          assert !Objects(QualityFailed(q.message), p, e, now);
        }
      }
    }
    if Allowed(p, e, now) {
      forall r ensures !Objects(r, p, e, now) {
        if (r.MissingReadiness? || r.LowReadiness?) && Strict(p) && r.asset in keys {
          var n :| ScoreOf(r.asset, e.readiness, n) && n >= READINESS_THRESHOLD;
        }
      }
    }
  }

  /** The full evaluation: a reason is given exactly when it applies, and the product may go live exactly
      when none is. */
  method EvaluatePublishGateV2(p: Product, e: Evidence, now: int) returns (g: Gate)
    ensures Approvals(g, p, e, now)
    ensures forall r :: r in g.blocked <==> Objects(r, p, e, now)
    ensures g.allowed <==> g.blocked == []
    ensures g.allowed <==> Allowed(p, e, now)
    ensures g.qualityPassed <==> !g.strict || (e.quality != [] && forall q :: q in e.quality ==> q.passed)
    ensures g.maskingConfigured <==> !g.strict || !Sensitive(p.sensitivity) || e.masked
  {
    g := EvaluatePublishGate(p, e, now);
    if !g.strict {
      g := g.(qualityPassed := true, maskingConfigured := true);
      NoObjections(p, e, now);
      assert g.blocked != [] ==> g.blocked[0] in g.blocked;
      return;
    }
    var passed, failures := CheckQuality(e.quality);
    var masking := if Sensitive(p.sensitivity) then e.masked else true;
    var blocked := g.blocked + failures + if masking then [] else [NoMasking];
    g := g.(blocked := blocked, allowed := blocked == [], qualityPassed := passed, maskingConfigured := masking);
    NoObjections(p, e, now);
    assert g.blocked != [] ==> g.blocked[0] in g.blocked;
  }

  // ----- What the verdict means -----

  /** With the data fixed, what is allowed at some time was allowed at every earlier one: only approvals
      depend on the clock, and they only ever expire. */
  lemma AllowedEarlier(p: Product, e: Evidence, earlier: int, later: int)
    requires earlier <= later && Allowed(p, e, later)
    ensures Allowed(p, e, earlier)
  {
    forall s | RequiredStep(s, Strict(p), e.approvals) ensures StepMet(s, e.approvals, earlier) {
      var i :| 0 <= i < |e.approvals| && Normalize(e.approvals[i].step) == s
        && Passes(TraceStatus(e.approvals[i], later));
      assert Passes(TraceStatus(e.approvals[i], earlier));
    }
  }

  /** Fields the gate reads. */
  predicate SameForGate(p: Product, q: Product) {
    && p.riskScore == q.riskScore && (Normalize(p.sourceType) == "api") == (Normalize(q.sourceType) == "api")
    && Sensitive(p.sensitivity) == Sensitive(q.sensitivity) && AssetKeys(p.sourceRef) == AssetKeys(q.sourceRef)
  }

  /** Status, author, plans, prices and revenue play no part in the verdict. */
  lemma GateReadsOnly(p: Product, q: Product, e: Evidence, now: int)
    requires SameForGate(p, q)
    ensures Allowed(p, e, now) <==> Allowed(q, e, now)
  {
    assert Strict(p) == Strict(q);
  }

  /** A changed risk score keeps the verdict as long as it does not bring the product under the strict gate. */
  lemma RescoredStillAllowed(p: Product, risk: int, e: Evidence, now: int)
    requires Allowed(p, e, now) && (Strict(p.(riskScore := risk)) ==> Strict(p))
    ensures Allowed(p.(riskScore := risk), e, now)
  {
    var q := p.(riskScore := risk);
    forall s | RequiredStep(s, Strict(q), e.approvals) ensures StepMet(s, e.approvals, now) {
      assert RequiredStep(s, Strict(p), e.approvals);
    }
  }

  /** Less risk never blocks: a product that may go live still may after its risk score drops. */
  lemma LowerRiskStillAllowed(p: Product, risk: int, e: Evidence, now: int)
    requires Allowed(p, e, now) && risk <= p.riskScore
    ensures Allowed(p.(riskScore := risk), e, now)
  {
    RescoredStillAllowed(p, risk, e, now);
  }

  /** Without any approval every product outside the strict gate passes, and none inside it. */
  lemma NoApprovals(p: Product, e: Evidence, now: int)
    requires e.approvals == []
    ensures Strict(p) ==> !Allowed(p, e, now)
    ensures !Strict(p) ==> Allowed(p, e, now)
  {
    if Strict(p) { assert RequiredStep(REQUIRED_APPROVALS[0], true, e.approvals); }
  }
}
