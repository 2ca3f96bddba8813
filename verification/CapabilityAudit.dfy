/**
 What the readiness audit accepts, row by row and in literal terms; and what is written under an
 identity key.
 */
module CapabilityAudit {
  import opened Common
  import opened CapabilityLedger
  import opened CapabilityGovernance
  import opened CapabilityRuns
  import opened CapabilityAnswers
  import opened JsonCanonical
  import Json
  import Ordering
  import Utf8

  // -------------------------------------------------------------------- identity keys

  /** The text under an identity key is one JSON object with the seven fields, its keys in ascending order. */
  lemma IdentityTextReads(i: Identity)
    ensures exists fields ::
              && Utf8.Decode(IdentityText(i)).Some? && Json.Loads(Utf8.Decode(IdentityText(i)).value) == Some(Json.Obj(fields))
              && |fields| == 7 && Increasing(fields)
              && Get(fields, "platform") == Some(Json.Str(i.platform)) && Get(fields, "source_type") == Some(Json.Str(i.sourceType))
              && Get(fields, "job_kind") == Some(Json.Str(i.jobKind)) && Get(fields, "adapter") == Some(Json.Str(i.adapter))
              && Get(fields, "downloader_version") == Some(Json.Str(i.downloaderVersion))
              && Get(fields, "environment") == Some(Json.Str(i.environment))
              && Get(fields, "product_version") == Some(Json.Str(i.productVersion))
  {
    var fields := IdentityJson(i).fields;
    IdentityTextLoads(i);
    IdentityFields(i);
    IdentityGets(fields);
  }

  lemma IdentityTextLoads(i: Identity)
    ensures Utf8.Decode(IdentityText(i)).Some? && Json.Loads(Utf8.Decode(IdentityText(i)).value) == Some(IdentityJson(i))
  {
    hide Json.Print, Json.Loads, IdentityJson;
    Utf8.DecodeEncoded(Json.Print(IdentityJson(i), Json.Compact, 0));
    Json.LoadsDumps(IdentityJson(i), Json.Compact);
  }

  lemma NamesAscend()
    ensures Ordering.Less("adapter", "downloader_version") && Ordering.Less("downloader_version", "environment")
    ensures Ordering.Less("environment", "job_kind") && Ordering.Less("job_kind", "platform")
  {
    assert "adapter"[0] == 'a' && "downloader_version"[0] == 'd' && "environment"[0] == 'e' && "job_kind"[0] == 'j' && "platform"[0] == 'p';
  }

  lemma NamesAscendFurther()
    ensures Ordering.Less("platform", "product_version") && Ordering.Less("product_version", "source_type")
  {
    assert "platform" == "p" + "latform" && "product_version" == "p" + "roduct_version";
    Ordering.LessBelowPrefix("p", "latform", "roduct_version");
    assert "latform"[0] == 'l' && "roduct_version"[0] == 'r' && "source_type"[0] == 's' && "product_version"[0] == 'p';
  }

  lemma IdentityFields(i: Identity)
    ensures var fields := IdentityJson(i).fields;
            && |fields| == 7 && Increasing(fields)
            && fields[0] == Json.Field("adapter", Json.Str(i.adapter))
            && fields[1] == Json.Field("downloader_version", Json.Str(i.downloaderVersion))
            && fields[2] == Json.Field("environment", Json.Str(i.environment))
            && fields[3] == Json.Field("job_kind", Json.Str(i.jobKind))
            && fields[4] == Json.Field("platform", Json.Str(i.platform))
            && fields[5] == Json.Field("product_version", Json.Str(i.productVersion))
            && fields[6] == Json.Field("source_type", Json.Str(i.sourceType))
  {
    hide Ordering.Less;
    NamesAscend();
    NamesAscendFurther();
    StepwiseIncreasing(IdentityJson(i).fields);
  }

  lemma IdentityGets(fields: seq<Json.Field>)
    requires |fields| == 7 && Increasing(fields)
    ensures forall k :: 0 <= k < 7 ==> Get(fields, fields[k].name) == Some(fields[k].value)
  {
    hide Increasing, Get;
    forall k | 0 <= k < 7 ensures Get(fields, fields[k].name) == Some(fields[k].value) { IncreasingGet(fields, k); }
  }

  // ---------------------------------------------------------------------- the audit

  ghost predicate EvidenceInOrder(reg: Registry, e: Evidence) {
    && e.payload.policy == "stage0-v3" && RouteIn(reg.known, e.payload.identity)
    && e.payload.key == IdentityKey(reg.hash, e.payload.identity) && e.digest == reg.digestOf(e.payload)
  }

  /** A verified row has verified evidence of the same key and identity. */
  ghost predicate BackedInOrder(l: Ledger, d: Decision) {
    d.status.Verified? ==>
      exists e :: e in l.evidence && e.id == d.evidenceId && e.payload.key == d.key && e.payload.identity == d.identity
                  && e.payload.verdict.Verified? && e.payload.kind == "stage0_csv_v3" && e.payload.policy == "stage0-v3"
  }

  /** A first row has revision 1, any other one more than the row it supersedes, of the same key and identity. */
  ghost predicate RevisionInOrder(l: Ledger, d: Decision) {
    if d.supersedes.None? then d.revision == 1
    else exists p :: p in l.decisions && p.id == d.supersedes.value && p.key == d.key && p.identity == d.identity && d.revision == p.revision + 1
  }

  /** A revocation supersedes a verified row of the same key and evidence. */
  ghost predicate RevocationInOrder(l: Ledger, d: Decision) {
    d.action.Revoke? ==>
      exists p :: p in l.decisions && d.supersedes == Some(p.id) && p.status.Verified? && p.evidenceId == d.evidenceId && p.key == d.key
  }

  ghost predicate DecisionInOrder(reg: Registry, l: Ledger, d: Decision) {
    && RouteIn(reg.known, d.identity) && d.key == IdentityKey(reg.hash, d.identity)
    && BackedInOrder(l, d) && RevisionInOrder(l, d) && RevocationInOrder(l, d)
  }

  lemma EvidenceChecked(reg: Registry, e: Evidence)
    ensures EvidenceFault(reg, e).None? <==> EvidenceInOrder(reg, e)
  {
    hide IdentityKey;
  }

  lemma RevisionChecked(l: Ledger, d: Decision)
    ensures RevisionIsChained(l, d) <==> RevisionInOrder(l, d)
  {
  }

  lemma BackingChecked(l: Ledger, d: Decision)
    ensures VerifiedIsBacked(l, d) <==> BackedInOrder(l, d)
  {
  }

  lemma DecisionChecked(reg: Registry, l: Ledger, d: Decision)
    ensures DecisionFault(reg, d).None? && VerifiedIsBacked(l, d) && RevisionIsChained(l, d) && TransitionIsValid(l, d)
            <==> DecisionInOrder(reg, l, d)
  {
    hide IdentityKey, VerifiedIsBacked, BackedInOrder, RevisionIsChained, RevisionInOrder;
    RevisionChecked(l, d);
    BackingChecked(l, d);
  }

  /** The audit passes exactly when every row is in order and the view shows the rows nothing supersedes. */
  lemma HealthyExactly(reg: Registry, l: Ledger, view: set<Decision>)
    ensures Healthy(reg, l, view)
            <==> && (forall e :: e in l.evidence ==> EvidenceInOrder(reg, e))
                 && (forall d :: d in l.decisions ==> DecisionInOrder(reg, l, d))
                 && (forall d :: d in view <==> Viewed(l.decisions, d))
  {
    hide EvidenceFault, EvidenceInOrder, DecisionFault, DecisionInOrder, VerifiedIsBacked, RevisionIsChained, TransitionIsValid, Viewed,
      IsExpected;
    forall e | e in l.evidence ensures EvidenceFault(reg, e).None? <==> EvidenceInOrder(reg, e) { EvidenceChecked(reg, e); }
    forall d | d in l.decisions
      ensures DecisionFault(reg, d).None? && VerifiedIsBacked(l, d) && RevisionIsChained(l, d) && TransitionIsValid(l, d)
              <==> DecisionInOrder(reg, l, d)
    {
      DecisionChecked(reg, l, d);
    }
    forall d ensures (IsExpected(l, d) <==> Viewed(l.decisions, d)) && (Viewed(l.decisions, d) ==> d in l.decisions) {
      ExpectedIsViewed(l, d);
    }
  }

  lemma ExpectedIsViewed(l: Ledger, d: Decision)
    ensures IsExpected(l, d) <==> Viewed(l.decisions, d)
    ensures Viewed(l.decisions, d) ==> d in l.decisions
  {
  }
}
