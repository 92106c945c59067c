/** Contract scopes and API entitlements: which product owns which, over every run of admin writes. */
module Contracts {
  import opened Text
  import opened Timestamps

  datatype Scope = Scope(contractKey: string, productKey: string, customerKey: string, allowedFields: seq<string>,
                         rateLimit: int, validFrom: Timestamp, validTo: Timestamp, maskingPolicy: string,
                         status: string)

  datatype Entitlement = Entitlement(id: string, productKey: string, contractKey: string, apiKeyID: string,
                                     apiKeyHash: string, expiresAt: Timestamp, status: string)

  /** The row of a scope: the table keeps the allowed fields as one comma-joined text. */
  datatype ScopeRow = ScopeRow(contractKey: string, productKey: string, customerKey: string, fieldText: string,
                               rateLimit: int, validFrom: Timestamp, validTo: Timestamp, maskingPolicy: string,
                               status: string)

  /** The two tables. */
  datatype Tables = Tables(scopes: map<string, ScopeRow>, grants: map<string, Entitlement>)

  datatype Refusal =
    | BadTimestamp | InvertedWindow | BadRateLimit | NoFields | UnknownMasking | UnknownStatus
    | KeyTaken | MissingContract | NoSuchScope | IdTaken | NotStored

  // ----- Field checks -----

  predicate MaskingKnown(policy: string) {
    policy == "" || policy == "none" || policy == "redact" || policy == "hash"
  }

  /** The policies under which responses are rewritten. */
  predicate Masks(policy: string) {
    Normalize(policy) == "redact" || Normalize(policy) == "hash"
  }

  predicate StatusKnown(status: string) {
    status == "" || status == "active" || status == "draft" || status == "suspended" || status == "revoked"
  }

  function StatusOrActive(status: string): string {
    if status == "" then "active" else status
  }

  predicate Inverted(opens: Timestamp, closes: Timestamp) {
    opens.At? && closes.At? && opens.t > closes.t
  }

  predicate FoldedIn(field: string, fields: seq<string>) {
    exists i :: 0 <= i < |fields| && Lower(fields[i]) == Lower(field)
  }

  /** Trimmed non-blank fields, the first spelling of each kept. */
  function NormalizeFields(fields: seq<string>): seq<string> {
    if fields == [] then []
    else
      var n := |fields| - 1;
      var kept, f := NormalizeFields(fields[..n]), TrimSpace(fields[n]);
      if f == "" || FoldedIn(f, kept) then kept else kept + [f]
  }

  ghost predicate CleanFields(fields: seq<string>) {
    && (forall i :: 0 <= i < |fields| ==> fields[i] != "" && Trimmed(fields[i]))
    && (forall i, j :: 0 <= i < j < |fields| ==> Lower(fields[i]) != Lower(fields[j]))
  }

  lemma CleanSnoc(fields: seq<string>, f: string)
    requires CleanFields(fields) && f != "" && Trimmed(f) && !FoldedIn(f, fields)
    ensures CleanFields(fields + [f])
  {
    var all := fields + [f];
    forall i, j | 0 <= i < j < |all| ensures Lower(all[i]) != Lower(all[j]) {
      assert all[i] == fields[i];
      if j < |fields| { assert all[j] == fields[j]; }
    }
  }

  /** The kept fields are trimmed, and no two are alike up to case. */
  lemma {:induction false} FieldsDistinct(fields: seq<string>)
    ensures CleanFields(NormalizeFields(fields))
    decreases |fields|
  {
    if fields != [] {
      var n := |fields| - 1;
      var kept, f := NormalizeFields(fields[..n]), TrimSpace(fields[n]);
      FieldsDistinct(fields[..n]);
      TrimSpaceFixedPoints(fields[n]);
      if f != "" && !FoldedIn(f, kept) { CleanSnoc(kept, f); }
    }
  }

  /** Some spelling of every non-blank field is kept. */
  lemma {:induction false} FieldKept(fields: seq<string>, i: nat)
    requires i < |fields| && !Blank(fields[i])
    ensures FoldedIn(TrimSpace(fields[i]), NormalizeFields(fields))
    decreases |fields|
  {
    var n := |fields| - 1;
    var kept, r, f := NormalizeFields(fields[..n]), NormalizeFields(fields), TrimSpace(fields[n]);
    if i < n {
      FieldKept(fields[..n], i);
      var j :| 0 <= j < |kept| && Lower(kept[j]) == Lower(TrimSpace(fields[i]));
      assert r[j] == kept[j];
    } else if !FoldedIn(f, kept) {
      assert r[|kept|] == f;
    }
  }

  lemma {:induction false} KeptFrom(fields: seq<string>)
    ensures forall k :: k in NormalizeFields(fields) ==> exists i :: 0 <= i < |fields| && k == TrimSpace(fields[i])
    decreases |fields|
  {
    if fields != [] {
      var front := fields[..|fields| - 1];
      KeptFrom(front);
      forall k | k in NormalizeFields(fields) ensures exists i :: 0 <= i < |fields| && k == TrimSpace(fields[i]) {
        if k in NormalizeFields(front) {
          var i :| 0 <= i < |front| && k == TrimSpace(front[i]);
          assert fields[i] == front[i];
        }
      }
    }
  }

  /** The field at `i`, trimmed, is `kept`, and no field before it is alike up to case. */
  ghost predicate FirstSpelling(fields: seq<string>, kept: string, i: nat) {
    && i < |fields| && TrimSpace(fields[i]) == kept
    && forall j :: 0 <= j < i ==> Lower(TrimSpace(fields[j])) != Lower(kept)
  }

  lemma FoldedEarlier(fields: seq<string>, f: string)
    requires f != ""
    ensures FoldedIn(f, NormalizeFields(fields))
      <==> exists j :: 0 <= j < |fields| && Lower(TrimSpace(fields[j])) == Lower(f)
  {
    var kept := NormalizeFields(fields);
    if k :| 0 <= k < |kept| && Lower(kept[k]) == Lower(f) {
      KeptFrom(fields);
      assert kept[k] in kept;
    }
    if j :| 0 <= j < |fields| && Lower(TrimSpace(fields[j])) == Lower(f) {
      assert |Lower(f)| == |f| && |Lower(TrimSpace(fields[j]))| == |TrimSpace(fields[j])|;
      FieldKept(fields, j);
      var k :| 0 <= k < |kept| && Lower(kept[k]) == Lower(TrimSpace(fields[j]));
    }
  }

  lemma FirstSpellingGrows(fields: seq<string>, kept: string, i: nat)
    requires fields != [] && i < |fields| - 1
    ensures FirstSpelling(fields, kept, i) <==> FirstSpelling(fields[..|fields| - 1], kept, i)
  {
  }

  ghost predicate HasFirst(fields: seq<string>, kept: string) {
    exists i: nat :: FirstSpelling(fields, kept, i)
  }

  ghost predicate AllFirst(fields: seq<string>, kept: seq<string>) {
    forall k :: 0 <= k < |kept| ==> HasFirst(fields, kept[k])
  }

  ghost predicate InFieldOrder(fields: seq<string>, kept: seq<string>) {
    forall i: nat, j: nat, k, l :: 0 <= k < l < |kept| ==>
      FirstSpelling(fields, kept[k], i) && FirstSpelling(fields, kept[l], j) ==> i < j
  }

  lemma OnlyFirst(fields: seq<string>, kept: string, i: nat, j: nat)
    requires FirstSpelling(fields, kept, i) && FirstSpelling(fields, kept, j)
    ensures i == j
  {
  }

  /** The last field is kept only as a first spelling. */
  lemma LastKept(fields: seq<string>)
    requires fields != []
    ensures var n := |fields| - 1;
      var before, kept := NormalizeFields(fields[..n]), NormalizeFields(fields);
      kept == before || (kept == before + [TrimSpace(fields[n])] && FirstSpelling(fields, TrimSpace(fields[n]), n))
  {
    var n := |fields| - 1;
    var front, f := fields[..n], TrimSpace(fields[n]);
    if f != "" && !FoldedIn(f, NormalizeFields(front)) {
      FoldedEarlier(front, f);
      assert forall j :: 0 <= j < n ==> front[j] == fields[j];
    }
  }

  lemma AllFirstStep(fields: seq<string>, before: seq<string>, f: string)
    requires fields != [] && AllFirst(fields[..|fields| - 1], before)
    ensures AllFirst(fields, before)
    ensures FirstSpelling(fields, f, |fields| - 1) ==> AllFirst(fields, before + [f])
  {
    var n := |fields| - 1;
    forall k | 0 <= k < |before| ensures HasFirst(fields, before[k]) {
      assert HasFirst(fields[..n], before[k]);
      var i: nat :| FirstSpelling(fields[..n], before[k], i);
      FirstSpellingGrows(fields, before[k], i);
    }
    if FirstSpelling(fields, f, n) { assert HasFirst(fields, f); }
  }

  lemma {:induction false} KeptFirst(fields: seq<string>)
    ensures AllFirst(fields, NormalizeFields(fields))
    decreases |fields|
  {
    if fields != [] {
      var n := |fields| - 1;
      KeptFirst(fields[..n]);
      LastKept(fields);
      AllFirstStep(fields, NormalizeFields(fields[..n]), TrimSpace(fields[n]));
    }
  }

  lemma EarlyOnly(fields: seq<string>, before: seq<string>, k: nat, i: nat)
    requires fields != [] && AllFirst(fields[..|fields| - 1], before) && k < |before|
    requires FirstSpelling(fields, before[k], i)
    ensures i < |fields| - 1 && FirstSpelling(fields[..|fields| - 1], before[k], i)
  {
    var front := fields[..|fields| - 1];
    assert HasFirst(front, before[k]);
    var i': nat :| FirstSpelling(front, before[k], i');
    FirstSpellingGrows(fields, before[k], i');
    OnlyFirst(fields, before[k], i, i');
  }

  lemma OrderStep(fields: seq<string>, before: seq<string>, f: string)
    requires fields != [] && InFieldOrder(fields[..|fields| - 1], before) && AllFirst(fields[..|fields| - 1], before)
    ensures InFieldOrder(fields, before)
    ensures FirstSpelling(fields, f, |fields| - 1) ==> InFieldOrder(fields, before + [f])
  {
    var n := |fields| - 1;
    forall i: nat, j: nat, k, l | 0 <= k < l < |before| && FirstSpelling(fields, before[k], i)
                                  && FirstSpelling(fields, before[l], j)
      ensures i < j
    {
      EarlyOnly(fields, before, k, i);
      EarlyOnly(fields, before, l, j);
    }
    if FirstSpelling(fields, f, n) {
      var kept := before + [f];
      forall i: nat, j: nat, k, l | 0 <= k < l < |kept| && FirstSpelling(fields, kept[k], i)
                                    && FirstSpelling(fields, kept[l], j)
        ensures i < j
      {
        EarlyOnly(fields, before, k, i);
        if l == |before| { OnlyFirst(fields, f, j, n); }
      }
    }
  }

  lemma {:induction false} KeptInOrder(fields: seq<string>)
    ensures InFieldOrder(fields, NormalizeFields(fields))
    decreases |fields|
  {
    if fields != [] {
      var n := |fields| - 1;
      KeptInOrder(fields[..n]);
      KeptFirst(fields[..n]);
      LastKept(fields);
      OrderStep(fields, NormalizeFields(fields[..n]), TrimSpace(fields[n]));
    }
  }

  /** What is kept of a field is its first spelling, and first spellings keep their order. */
  lemma FirstSpellingsKept(fields: seq<string>)
    ensures AllFirst(fields, NormalizeFields(fields)) && InFieldOrder(fields, NormalizeFields(fields))
  {
    KeptFirst(fields);
    KeptInOrder(fields);
  }

  method NormalizeFieldList(fields: seq<string>) returns (out: seq<string>)
    ensures out == NormalizeFields(fields)
  {
    out := [];
    var seen: set<string>, i := {}, 0;
    while i < |fields|
      invariant 0 <= i <= |fields| && out == NormalizeFields(fields[..i])
      invariant forall f :: f in seen <==> exists j :: 0 <= j < |out| && Lower(out[j]) == f
    {
      var field := TrimSpace(fields[i]);
      assert fields[..i + 1][..i] == fields[..i];
      if field != "" && Lower(field) !in seen {
        ghost var before := out;
        seen := seen + {Lower(field)};
        out := out + [field];
        assert out[|before|] == field && forall j :: 0 <= j < |before| ==> out[j] == before[j];
      }
      i := i + 1;
    }
    assert fields[..i] == fields;
  }

  // ----- The allowed fields as stored -----

  predicate IsComma(c: char) {
    c == ','
  }

  function FieldText(fields: seq<string>): string {
    Join(fields, ',')
  }

  function ReadFields(text: string): seq<string> {
    Pieces(text, IsComma)
  }

  function Encode(s: Scope): ScopeRow {
    ScopeRow(s.contractKey, s.productKey, s.customerKey, FieldText(s.allowedFields), s.rateLimit, s.validFrom,
             s.validTo, s.maskingPolicy, s.status)
  }

  function Decode(r: ScopeRow): Scope {
    Scope(r.contractKey, r.productKey, r.customerKey, ReadFields(r.fieldText), r.rateLimit, r.validFrom, r.validTo,
          r.maskingPolicy, r.status)
  }

  lemma {:induction false} CommaFreeReadBack(fields: seq<string>)
    requires forall i :: 0 <= i < |fields| ==> fields[i] != "" && Trimmed(fields[i]) && ',' !in fields[i]
    ensures ReadFields(FieldText(fields)) == fields
    decreases |fields|
  {
    if fields != [] {
      var head, rest := fields[0], fields[1..];
      TrimSpaceFixedPoints(head);
      if rest == [] {
        PiecesOne(head, IsComma);
      } else {
        CommaFreeReadBack(rest);
        PiecesCons(head, ',', FieldText(rest), IsComma);
      }
      assert fields == [head] + rest;
    }
  }

  /** A list of trimmed non-empty fields is read back as it was stored if and only if no field has a comma. */
  lemma FieldsReadBack(fields: seq<string>)
    requires forall i :: 0 <= i < |fields| ==> fields[i] != "" && Trimmed(fields[i])
    ensures ReadFields(FieldText(fields)) == fields <==> forall i :: 0 <= i < |fields| ==> ',' !in fields[i]
  {
    if i :| 0 <= i < |fields| && ',' in fields[i] {
      PiecesClean(FieldText(fields), IsComma);
      assert fields[i] in fields;
    } else {
      CommaFreeReadBack(fields);
    }
  }

  /** A character that survives storage: neither a comma nor a blank. */
  predicate Legible(c: char) {
    c != ',' && !IsSpace(c)
  }

  /** Some field has a legible character. */
  ghost predicate Servable(fields: seq<string>) {
    exists i, c :: 0 <= i < |fields| && c in fields[i] && Legible(c)
  }

  /** A list is read back empty if and only if its fields are commas and blanks only. */
  lemma ReadBackEmpty(fields: seq<string>)
    ensures ReadFields(FieldText(fields)) == [] <==> !Servable(fields)
  {
    var text := FieldText(fields);
    PiecesEmpty(text, IsComma);
    forall c | Legible(c) ensures c in text <==> exists i :: 0 <= i < |fields| && c in fields[i] {
      JoinChars(fields, ',', c);
    }
    if Servable(fields) {
      var i, c :| 0 <= i < |fields| && c in fields[i] && Legible(c);
      assert c in text;
    }
    if ReadFields(text) != [] {
      var j :| 0 <= j < |text| && Legible(text[j]);
      assert text[j] in text;
    }
  }

  lemma LegibleFold(a: string, b: string, c: char)
    requires Lower(a) == Lower(b) && c in a && Legible(c)
    ensures exists d :: d in b && Legible(d)
  {
    var i :| 0 <= i < |a| && a[i] == c;
    assert |Lower(a)| == |a| && |Lower(b)| == |b|;
    assert Lower(a)[i] == LowerChar(c) && Lower(b)[i] == LowerChar(b[i]);
    assert Legible(b[i]) && b[i] in b;
  }

  /** Normalizing the list neither gains nor loses a legible field. */
  lemma ServableKept(fields: seq<string>)
    ensures Servable(NormalizeFields(fields)) <==> Servable(fields)
  {
    var kept := NormalizeFields(fields);
    if Servable(kept) {
      var k, c :| 0 <= k < |kept| && c in kept[k] && Legible(c);
      KeptFrom(fields);
      assert kept[k] in kept;
      var i :| 0 <= i < |fields| && kept[k] == TrimSpace(fields[i]);
      TrimChars(fields[i], c);
    }
    if Servable(fields) {
      var i, c :| 0 <= i < |fields| && c in fields[i] && Legible(c);
      TrimChars(fields[i], c);
      FieldKept(fields, i);
      var k :| 0 <= k < |kept| && Lower(kept[k]) == Lower(TrimSpace(fields[i]));
      LegibleFold(TrimSpace(fields[i]), kept[k], c);
    }
  }

  // ----- One write -----

  function ScopeKey(req: Scope, minted: string): string {
    FirstNonEmpty([req.contractKey, minted])
  }

  /** Why a scope write is refused, if it is; the checks in order. */
  function RefuseScope(t: Tables, product: string, req: Scope, minted: string, stored: bool): Option<Refusal> {
    var key := ScopeKey(req, minted);
    if req.validFrom.Unreadable? || req.validTo.Unreadable? then Some(BadTimestamp)
    else if Inverted(req.validFrom, req.validTo) then Some(InvertedWindow)
    else if req.rateLimit < 0 then Some(BadRateLimit)
    else if NormalizeFields(req.allowedFields) == [] then Some(NoFields)
    else if !MaskingKnown(Normalize(req.maskingPolicy)) then Some(UnknownMasking)
    else if !StatusKnown(Normalize(req.status)) then Some(UnknownStatus)
    else if key in t.scopes && t.scopes[key].productKey != product then Some(KeyTaken)
    else if key == "" || Blank(product) || !stored then Some(NotStored)
    else None
  }

  /** The scope a request asks for, as the handler hands it to the store. */
  function ScopeFor(product: string, req: Scope, minted: string): Scope {
    req.(contractKey := ScopeKey(req, minted), productKey := TrimSpace(product),
         allowedFields := NormalizeFields(req.allowedFields), maskingPolicy := Normalize(req.maskingPolicy),
         status := StatusOrActive(Normalize(req.status)))
  }

  function GrantId(req: Entitlement, minted: string): string {
    FirstNonEmpty([req.id, minted])
  }

  /** Why an entitlement write is refused. The contract is looked up under its trimmed key. */
  function RefuseGrant(t: Tables, product: string, req: Entitlement, minted: string, stored: bool): Option<Refusal> {
    var contract, id := TrimSpace(req.contractKey), GrantId(req, minted);
    if contract == "" then Some(MissingContract)
    else if req.expiresAt.Unreadable? then Some(BadTimestamp)
    else if !StatusKnown(Normalize(req.status)) then Some(UnknownStatus)
    else if contract !in t.scopes || t.scopes[contract].productKey != product then Some(NoSuchScope)
    else if id in t.grants && t.grants[id].productKey != product then Some(IdTaken)
    else if id == "" || Blank(product) || (Blank(req.apiKeyID) && Blank(req.apiKeyHash)) || !stored then Some(NotStored)
    else None
  }

  /** The stored row keeps the contract key as it was sent. */
  function GrantRow(product: string, req: Entitlement, minted: string): Entitlement {
    req.(id := GrantId(req, minted), productKey := TrimSpace(product), status := StatusOrActive(Normalize(req.status)))
  }

  /** The key that was sent if it is not blank, else the one generated, trimmed either way. */
  function SentOr(sent: string, minted: string): string {
    if Blank(sent) then TrimSpace(minted) else TrimSpace(sent)
  }

  lemma SentOrFirst(sent: string, minted: string)
    ensures FirstNonEmpty([sent, minted]) == SentOr(sent, minted)
  {
    FirstOfTwo(sent, minted);
    TrimSpaceFixedPoints("");
  }

  /** What a scope write has to meet, all of it, to be taken. */
  ghost predicate ScopeAcceptable(t: Tables, product: string, req: Scope, minted: string, stored: bool) {
    var key := SentOr(req.contractKey, minted);
    && !req.validFrom.Unreadable? && !req.validTo.Unreadable?
    && (req.validFrom.At? && req.validTo.At? ==> req.validFrom.t <= req.validTo.t)
    && req.rateLimit >= 0
    && (exists i :: 0 <= i < |req.allowedFields| && !Blank(req.allowedFields[i]))
    && Normalize(req.maskingPolicy) in {"", "none", "redact", "hash"}
    && Normalize(req.status) in {"", "active", "draft", "suspended", "revoked"}
    && (key in t.scopes ==> t.scopes[key].productKey == product)
    && key != "" && !Blank(product) && stored
  }

  /** A scope write is taken exactly when it meets all of that. */
  lemma ScopeAccepted(t: Tables, product: string, req: Scope, minted: string, stored: bool)
    ensures RefuseScope(t, product, req, minted, stored).None? <==> ScopeAcceptable(t, product, req, minted, stored)
  {
    SentOrFirst(req.contractKey, minted);
    var kept := NormalizeFields(req.allowedFields);
    FieldsDistinct(req.allowedFields);
    KeptFrom(req.allowedFields);
    if i :| 0 <= i < |req.allowedFields| && !Blank(req.allowedFields[i]) { FieldKept(req.allowedFields, i); }
    if kept != [] { assert kept[0] in kept && kept[0] != ""; }
  }

  /** What an entitlement write has to meet: its contract known and of the product, and an API key named. */
  ghost predicate GrantAcceptable(t: Tables, product: string, req: Entitlement, minted: string, stored: bool) {
    var contract, id := TrimSpace(req.contractKey), SentOr(req.id, minted);
    && contract != "" && !req.expiresAt.Unreadable?
    && Normalize(req.status) in {"", "active", "draft", "suspended", "revoked"}
    && contract in t.scopes && t.scopes[contract].productKey == product
    && (id in t.grants ==> t.grants[id].productKey == product)
    && id != "" && !Blank(product) && !(Blank(req.apiKeyID) && Blank(req.apiKeyHash)) && stored
  }

  lemma GrantAccepted(t: Tables, product: string, req: Entitlement, minted: string, stored: bool)
    ensures RefuseGrant(t, product, req, minted, stored).None? <==> GrantAcceptable(t, product, req, minted, stored)
  {
    SentOrFirst(req.id, minted);
  }

  /** The row of an accepted scope: sent fields, keys trimmed, policy and status folded, active by default. */
  ghost predicate ScopeAsSent(row: ScopeRow, product: string, req: Scope, minted: string) {
    && row.contractKey == SentOr(req.contractKey, minted) && row.productKey == TrimSpace(product)
    && row.customerKey == req.customerKey && row.rateLimit == req.rateLimit
    && row.validFrom == req.validFrom && row.validTo == req.validTo
    && row.maskingPolicy == Normalize(req.maskingPolicy)
    && row.status == if Normalize(req.status) == "" then "active" else Normalize(req.status)
  }

  ghost predicate GrantAsSent(row: Entitlement, product: string, req: Entitlement, minted: string) {
    row == req.(id := SentOr(req.id, minted), productKey := TrimSpace(product),
                status := if Normalize(req.status) == "" then "active" else Normalize(req.status))
  }

  /** A write request; `minted` is the identifier generated for it, `stored` whether the database takes it. */
  datatype Write =
    | ScopeWrite(product: string, scope: Scope, minted: string, stored: bool)
    | GrantWrite(product: string, grant: Entitlement, minted: string, stored: bool)

  function Next(t: Tables, w: Write): Tables {
    match w
    case ScopeWrite(product, req, minted, stored) =>
      if RefuseScope(t, product, req, minted, stored).Some? then t
      else t.(scopes := t.scopes[ScopeKey(req, minted) := Encode(ScopeFor(product, req, minted))])
    case GrantWrite(product, req, minted, stored) =>
      if RefuseGrant(t, product, req, minted, stored).Some? then t
      else t.(grants := t.grants[GrantId(req, minted) := GrantRow(product, req, minted)])
  }

  function Run(t: Tables, ws: seq<Write>): Tables {
    if ws == [] then t else Next(Run(t, ws[..|ws| - 1]), ws[|ws| - 1])
  }

  // ----- Ownership -----

  /** A stored scope, as it is read back, the runtime can make sense of. */
  ghost predicate SoundScope(key: string, row: ScopeRow) {
    var s := Decode(row);
    && key == s.contractKey && key != "" && Trimmed(key)
    && s.productKey != "" && Trimmed(s.productKey)
    && !s.validFrom.Unreadable? && !s.validTo.Unreadable? && !Inverted(s.validFrom, s.validTo)
    && s.rateLimit >= 0
    && (forall f :: f in s.allowedFields ==> f != "" && Trimmed(f) && ',' !in f)
    && MaskingKnown(s.maskingPolicy) && s.status != "" && StatusKnown(s.status)
  }

  ghost predicate SoundScopes(t: Tables) {
    forall k :: k in t.scopes ==> SoundScope(k, t.scopes[k])
  }

  /** The contract an entitlement names exists and belongs to the entitlement's product. */
  ghost predicate OwnedGrant(scopes: map<string, ScopeRow>, g: Entitlement) {
    var contract := TrimSpace(g.contractKey);
    contract in scopes && scopes[contract].productKey == g.productKey
  }

  ghost predicate OwnedGrants(t: Tables) {
    forall id :: id in t.grants ==> t.grants[id].id == id && OwnedGrant(t.scopes, t.grants[id])
  }

  ghost predicate WellOwned(t: Tables) {
    SoundScopes(t) && OwnedGrants(t)
  }

  /** No contract key and no entitlement id disappears or changes product. */
  ghost predicate OwnersKept(t: Tables, t': Tables) {
    && (forall k :: k in t.scopes ==> k in t'.scopes && t'.scopes[k].productKey == t.scopes[k].productKey)
    && (forall id :: id in t.grants ==> id in t'.grants && t'.grants[id].productKey == t.grants[id].productKey)
  }

  /** A scope that is not refused is sound as read back, reads back the fields it was given exactly when none
      has a comma, and reads back any field exactly when the request names a legible one. */
  lemma ScopeRowSound(t: Tables, product: string, req: Scope, minted: string, stored: bool)
    requires RefuseScope(t, product, req, minted, stored).None?
    ensures var row, kept := Encode(ScopeFor(product, req, minted)), NormalizeFields(req.allowedFields);
      && SoundScope(ScopeKey(req, minted), row)
      && (Decode(row) == ScopeFor(product, req, minted) <==> forall i :: 0 <= i < |kept| ==> ',' !in kept[i])
      && (Decode(row).allowedFields != [] <==> Servable(req.allowedFields))
  {
    var kept := NormalizeFields(req.allowedFields);
    TrimSpaceFixedPoints(First([req.contractKey, minted]));
    TrimSpaceFixedPoints(product);
    PiecesClean(FieldText(kept), IsComma);
    FieldsDistinct(req.allowedFields);
    FieldsReadBack(kept);
    ReadBackEmpty(kept);
    ServableKept(req.allowedFields);
  }

  // ----- Contracts that can serve a field -----

  /** Every stored scope still allows a field when it is read back. */
  ghost predicate AllServe(t: Tables) {
    forall k :: k in t.scopes ==> Decode(t.scopes[k]).allowedFields != []
  }

  /** An accepted scope write whose fields are commas and blanks only. */
  ghost predicate StoresNoField(t: Tables, w: Write) {
    w.ScopeWrite? && RefuseScope(t, w.product, w.scope, w.minted, w.stored).None? && !Servable(w.scope.allowedFields)
  }

  /** The check for at least one allowed field keeps its promise, write by write, exactly when no accepted list
      is commas and blanks only. */
  lemma WriteServes(t: Tables, w: Write)
    requires AllServe(t)
    ensures AllServe(Next(t, w)) <==> !StoresNoField(t, w)
  {
    if w.ScopeWrite? && RefuseScope(t, w.product, w.scope, w.minted, w.stored).None? {
      ScopeRowSound(t, w.product, w.scope, w.minted, w.stored);
      var key := ScopeKey(w.scope, w.minted);
      assert Next(t, w).scopes[key] == Encode(ScopeFor(w.product, w.scope, w.minted));
    }
  }

  lemma {:induction false} RunServes(ws: seq<Write>)
    requires forall w :: w in ws && w.ScopeWrite? ==> Servable(w.scope.allowedFields)
    ensures AllServe(Run(Tables(map[], map[]), ws))
    decreases |ws|
  {
    if ws != [] {
      assert ws[|ws| - 1] in ws;
      RunServes(ws[..|ws| - 1]);
      WriteServes(Run(Tables(map[], map[]), ws[..|ws| - 1]), ws[|ws| - 1]);
    }
  }

  /** A request whose only allowed field is a comma. */
  const COMMA_REQUEST := Scope("c", "", "", [","], 0, Unset, Unset, "", "")

  lemma OneFieldKept(f: string)
    requires f != "" && Trimmed(f)
    ensures NormalizeFields([f]) == [f]
  {
    TrimSpaceFixedPoints(f);
    assert [f][..0] == [];
    assert !FoldedIn(f, []);
  }

  lemma CommaKept()
    ensures NormalizeFields([","]) == [","]
    ensures !Servable([","])
  {
    assert Trimmed(",");
    OneFieldKept(",");
    forall i, c | 0 <= i < 1 && c in [","][i] ensures !Legible(c) { assert c == ','; }
  }

  /** It is accepted, and the stored contract allows no field. */
  lemma CommaFieldAccepted(stored: bool)
    requires stored
    ensures var t := Next(Tables(map[], map[]), ScopeWrite("p", COMMA_REQUEST, "", stored));
      "c" in t.scopes && Decode(t.scopes["c"]).allowedFields == []
  {
    CommaKept();
    TrimSpaceFixedPoints("c");
    TrimSpaceFixedPoints("p");
    assert Trimmed("c") && Trimmed("p");
    assert Normalize("") == "";
    assert First(["c", ""]) == "c";
    assert ScopeKey(COMMA_REQUEST, "") == "c";
    assert RefuseScope(Tables(map[], map[]), "p", COMMA_REQUEST, "", stored).None?;
    ScopeRowSound(Tables(map[], map[]), "p", COMMA_REQUEST, "", stored);
  }

  lemma JoinedPair(a: string, b: string, c: string)
    ensures FieldText([a, b + [','] + c]) == FieldText([a, b, c])
  {
    var pair, triple := [a, b + [','] + c], [a, b, c];
    assert pair[1..] == [b + [','] + c] && triple[1..] == [b, c] && triple[1..][1..] == [c];
    assert Join([b, c], ',') == b + [','] + c == Join(pair[1..], ',');
    assert Join(pair, ',') == a + [','] + Join(pair[1..], ',')
      && Join(triple, ',') == a + [','] + Join(triple[1..], ',');
  }

  /** A field with a comma comes back as two, which may repeat another field up to case. */
  lemma CommaFieldSplits(a: string, b: string, c: string)
    requires forall f :: f in [a, b, c] ==> f != "" && Trimmed(f) && ',' !in f
    ensures ReadFields(FieldText([a, b + [','] + c])) == [a, b, c]
  {
    JoinedPair(a, b, c);
    var triple := [a, b, c];
    assert forall i :: 0 <= i < |triple| ==> triple[i] in triple;
    CommaFreeReadBack(triple);
  }

  lemma ScopeStored(t: Tables, key: string, row: ScopeRow)
    requires WellOwned(t) && SoundScope(key, row)
    requires key in t.scopes ==> t.scopes[key].productKey == row.productKey
    ensures var t' := t.(scopes := t.scopes[key := row]); WellOwned(t') && OwnersKept(t, t')
  {
    var scopes := t.scopes[key := row];
    forall id | id in t.grants ensures OwnedGrant(scopes, t.grants[id]) { assert OwnedGrant(t.scopes, t.grants[id]); }
  }

  lemma ScopeProductKept(t: Tables, product: string, req: Scope, minted: string, stored: bool)
    requires SoundScopes(t) && RefuseScope(t, product, req, minted, stored).None?
    ensures ScopeKey(req, minted) in t.scopes ==> t.scopes[ScopeKey(req, minted)].productKey == TrimSpace(product)
  {
    var key := ScopeKey(req, minted);
    if key in t.scopes {
      assert SoundScope(key, t.scopes[key]);
      TrimSpaceFixedPoints(product);
    }
  }

  /** A scope write: the key it lands on keeps its product, so every entitlement keeps its contract. */
  lemma ScopeWriteKeeps(t: Tables, product: string, req: Scope, minted: string, stored: bool)
    requires WellOwned(t)
    ensures var t' := Next(t, ScopeWrite(product, req, minted, stored)); WellOwned(t') && OwnersKept(t, t')
  {
    if RefuseScope(t, product, req, minted, stored).None? {
      ScopeRowSound(t, product, req, minted, stored);
      ScopeProductKept(t, product, req, minted, stored);
      ScopeStored(t, ScopeKey(req, minted), Encode(ScopeFor(product, req, minted)));
    }
  }

  lemma GrantRowOwned(t: Tables, product: string, req: Entitlement, minted: string, stored: bool)
    requires SoundScopes(t) && RefuseGrant(t, product, req, minted, stored).None?
    ensures OwnedGrant(t.scopes, GrantRow(product, req, minted)) && TrimSpace(product) == product
  {
    var contract := TrimSpace(req.contractKey);
    assert SoundScope(contract, t.scopes[contract]);
    TrimSpaceFixedPoints(product);
  }

  lemma GrantStored(t: Tables, id: string, row: Entitlement)
    requires WellOwned(t) && row.id == id && OwnedGrant(t.scopes, row)
    requires id in t.grants ==> t.grants[id].productKey == row.productKey
    ensures var t' := t.(grants := t.grants[id := row]); WellOwned(t') && OwnersKept(t, t')
  {
  }

  lemma GrantProductKept(t: Tables, product: string, req: Entitlement, minted: string, stored: bool)
    requires RefuseGrant(t, product, req, minted, stored).None? && TrimSpace(product) == product
    ensures GrantRow(product, req, minted).id == GrantId(req, minted)
    ensures GrantId(req, minted) in t.grants ==>
      t.grants[GrantId(req, minted)].productKey == GrantRow(product, req, minted).productKey
  {
  }

  /** An entitlement write: it names a contract of its own product, and its id stays with its product. */
  lemma GrantWriteKeeps(t: Tables, product: string, req: Entitlement, minted: string, stored: bool)
    requires WellOwned(t)
    ensures var t' := Next(t, GrantWrite(product, req, minted, stored)); WellOwned(t') && OwnersKept(t, t')
  {
    if RefuseGrant(t, product, req, minted, stored).None? {
      GrantRowOwned(t, product, req, minted, stored);
      GrantProductKept(t, product, req, minted, stored);
      GrantStored(t, GrantId(req, minted), GrantRow(product, req, minted));
    }
  }

  /** Over every run of writes, refused and failed ones included: stored scopes are sound, each entitlement
      names an existing contract of its own product, and nothing ever changes product. */
  lemma {:induction false} RunKeepsOwners(t: Tables, ws: seq<Write>)
    requires WellOwned(t)
    ensures WellOwned(Run(t, ws)) && OwnersKept(t, Run(t, ws))
    decreases |ws|
  {
    if ws != [] {
      var front, w := ws[..|ws| - 1], ws[|ws| - 1];
      RunKeepsOwners(t, front);
      match w
      case ScopeWrite(product, req, minted, stored) => ScopeWriteKeeps(Run(t, front), product, req, minted, stored);
      case GrantWrite(product, req, minted, stored) => GrantWriteKeeps(Run(t, front), product, req, minted, stored);
    }
  }

  /** The contract key of an entitlement is stored untrimmed: read literally it finds its scope exactly when
      the request had no blanks around it. */
  lemma LiteralKeyFound(ws: seq<Write>, id: string)
    requires id in Run(Tables(map[], map[]), ws).grants
    ensures var t := Run(Tables(map[], map[]), ws);
      t.grants[id].contractKey in t.scopes <==> Trimmed(t.grants[id].contractKey)
  {
    RunKeepsOwners(Tables(map[], map[]), ws);
    var t := Run(Tables(map[], map[]), ws);
    var key := t.grants[id].contractKey;
    TrimSpaceFixedPoints(key);
    assert OwnedGrant(t.scopes, t.grants[id]);
    if key in t.scopes { assert SoundScope(key, t.scopes[key]); }
  }

  const PLAIN_REQUEST := Scope("c", "", "", ["f"], 0, Unset, Unset, "", "")

  /** An entitlement of that contract, its key sent with a blank in front. */
  const SPACED_REQUEST := Entitlement("e", "", " c", "k", "", Unset, "")

  lemma SampleText()
    ensures TrimSpace("c") == "c" && TrimSpace("p") == "p" && TrimSpace("e") == "e" && TrimSpace("k") == "k"
    ensures TrimSpace(" c") == "c" && Normalize("") == ""
  {
    TrimSpaceFixedPoints("c");
    TrimSpaceFixedPoints("p");
    TrimSpaceFixedPoints("e");
    TrimSpaceFixedPoints("k");
    assert Trimmed("c") && Trimmed("p") && Trimmed("e") && Trimmed("k");
    assert (" c")[1..] == "c" && TrimLeft("c") == "c";
  }

  lemma PlainStored()
    ensures var t := Next(Tables(map[], map[]), ScopeWrite("p", PLAIN_REQUEST, "", true));
      t.scopes.Keys == {"c"} && t.scopes["c"].productKey == "p" && t.grants == map[]
  {
    SampleText();
    OneFieldKept("f");
    assert First(["c", ""]) == "c";
    assert RefuseScope(Tables(map[], map[]), "p", PLAIN_REQUEST, "", true).None?;
  }

  lemma SpacedStored(t: Tables)
    requires t.scopes.Keys == {"c"} && t.scopes["c"].productKey == "p" && t.grants == map[]
    ensures var t' := Next(t, GrantWrite("p", SPACED_REQUEST, "", true));
      t'.scopes == t.scopes && "e" in t'.grants && t'.grants["e"].contractKey == " c"
  {
    SampleText();
    assert First(["e", ""]) == "e";
    assert RefuseGrant(t, "p", SPACED_REQUEST, "", true).None?;
  }

  /** A concrete run: the entitlement is accepted against contract `c`, and its stored key names no contract. */
  lemma SpacedKeyIsLost()
    ensures var t := Run(Tables(map[], map[]),
      [ScopeWrite("p", PLAIN_REQUEST, "", true), GrantWrite("p", SPACED_REQUEST, "", true)]);
      "c" in t.scopes && "e" in t.grants && t.grants["e"].contractKey !in t.scopes
  {
    var w1, w2 := ScopeWrite("p", PLAIN_REQUEST, "", true), GrantWrite("p", SPACED_REQUEST, "", true);
    var none := Tables(map[], map[]);
    assert [w1, w2][..1] == [w1] && [w1][..0] == [];
    assert Run(none, [w1]) == Next(none, w1) && Run(none, [w1, w2]) == Next(Run(none, [w1]), w2);
    PlainStored();
    SpacedStored(Next(none, w1));
    assert |" c"| != |"c"|;
  }

  // ----- The handlers -----

  class Registry {
    var scopes: map<string, ScopeRow>
    var grants: map<string, Entitlement>

    ghost function Contents(): Tables
      reads this
    {
      Tables(scopes, grants)
    }

    constructor ()
      ensures scopes == map[] && grants == map[] && WellOwned(Contents())
    {
      scopes, grants := map[], map[];
    }

    method UpsertScope(product: string, req: Scope, minted: string, stored: bool) returns (refused: Option<Refusal>)
      requires WellOwned(Contents())
      modifies this
      ensures refused == RefuseScope(old(Contents()), product, req, minted, stored)
      ensures refused.None? <==> ScopeAcceptable(old(Contents()), product, req, minted, stored)
      ensures var key := SentOr(req.contractKey, minted);
        if refused.Some? then scopes == old(scopes)
        else key in scopes && scopes == old(scopes)[key := scopes[key]]
             && ScopeAsSent(scopes[key], product, req, minted)
      ensures Contents() == Next(old(Contents()), ScopeWrite(product, req, minted, stored))
      ensures WellOwned(Contents()) && OwnersKept(old(Contents()), Contents())
    {
      ScopeWriteKeeps(Contents(), product, req, minted, stored);
      ScopeAccepted(Contents(), product, req, minted, stored);
      SentOrFirst(req.contractKey, minted);
      if req.validFrom.Unreadable? || req.validTo.Unreadable? { return Some(BadTimestamp); }
      if Inverted(req.validFrom, req.validTo) { return Some(InvertedWindow); }
      if req.rateLimit < 0 { return Some(BadRateLimit); }
      var fields := NormalizeFieldList(req.allowedFields);
      if fields == [] { return Some(NoFields); }
      var masking, status := Normalize(req.maskingPolicy), Normalize(req.status);
      if !MaskingKnown(masking) { return Some(UnknownMasking); }
      if !StatusKnown(status) { return Some(UnknownStatus); }
      var key := FirstNonEmpty([req.contractKey, minted]);
      if key in scopes && scopes[key].productKey != product { return Some(KeyTaken); }
      var scope := req.(contractKey := key, productKey := TrimSpace(product), allowedFields := fields,
                        maskingPolicy := masking, status := StatusOrActive(status));
      if key == "" || scope.productKey == "" || !stored { return Some(NotStored); }
      scopes := scopes[key := Encode(scope)];
      refused := None;
    }

    /** The checks of an entitlement write, in order; the last is the store's own. */
    method VetEntitlement(product: string, req: Entitlement, minted: string, stored: bool)
      returns (refused: Option<Refusal>)
      ensures refused == RefuseGrant(Contents(), product, req, minted, stored)
    {
      var contract := TrimSpace(req.contractKey);
      if contract == "" { return Some(MissingContract); }
      if req.expiresAt.Unreadable? { return Some(BadTimestamp); }
      if !StatusKnown(Normalize(req.status)) { return Some(UnknownStatus); }
      if contract !in scopes || scopes[contract].productKey != product { return Some(NoSuchScope); }
      var id := FirstNonEmpty([req.id, minted]);
      if id in grants && grants[id].productKey != product { return Some(IdTaken); }
      if id == "" || TrimSpace(product) == "" || (Blank(req.apiKeyID) && Blank(req.apiKeyHash)) || !stored {
        return Some(NotStored);
      }
      refused := None;
    }

    method UpsertEntitlement(product: string, req: Entitlement, minted: string, stored: bool)
      returns (refused: Option<Refusal>)
      requires WellOwned(Contents())
      modifies this
      ensures refused == RefuseGrant(old(Contents()), product, req, minted, stored)
      ensures refused.None? <==> GrantAcceptable(old(Contents()), product, req, minted, stored)
      ensures var id := SentOr(req.id, minted);
        if refused.Some? then grants == old(grants)
        else id in grants && grants == old(grants)[id := grants[id]] && GrantAsSent(grants[id], product, req, minted)
      ensures Contents() == Next(old(Contents()), GrantWrite(product, req, minted, stored))
      ensures WellOwned(Contents()) && OwnersKept(old(Contents()), Contents())
    {
      GrantWriteKeeps(Contents(), product, req, minted, stored);
      GrantAccepted(Contents(), product, req, minted, stored);
      SentOrFirst(req.id, minted);
      refused := VetEntitlement(product, req, minted, stored);
      if refused.Some? { return; }
      var id := FirstNonEmpty([req.id, minted]);
      grants := grants[id := req.(id := id, productKey := TrimSpace(product),
        status := StatusOrActive(Normalize(req.status)))];
    }

    /** The runtime's lookup of an entitlement's contract never comes back empty or with another product. */
    method ContractOf(id: string) returns (s: Scope)
      requires WellOwned(Contents()) && id in grants
      ensures s.productKey == grants[id].productKey
      ensures TrimSpace(grants[id].contractKey) in scopes && s == Decode(scopes[TrimSpace(grants[id].contractKey)])
    {
      assert OwnedGrant(scopes, grants[id]);
      s := Decode(scopes[TrimSpace(grants[id].contractKey)]);
    }
  }
}
