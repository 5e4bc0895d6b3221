/** The rules engine: general rules over a document and what was read from the table, other rules as oracles. */
module PremintRules {
  import opened Wrappers
  import opened Premints

  datatype Evaluation = Accept | Ignore | Reject

  /** What checking one rule came to; an error is not a verdict. */
  datatype Check = Checked(evaluation: Evaluation) | Failed

  type Results = seq<Check>

  predicate IsErr(rs: Results) {
    exists r :: r in rs && r.Failed?
  }

  predicate IsReject(rs: Results) {
    !IsErr(rs) && exists r :: r in rs && r == Checked(Reject)
  }

  predicate IsAccept(rs: Results) {
    !IsReject(rs)
  }

  /** One failing rule is enough for acceptance, whatever the others say. */
  lemma AcceptIff(rs: Results)
    ensures IsAccept(rs) <==> Failed in rs || Checked(Reject) !in rs
  {
  }

  // ----- the general rules -----

  const MAX_URI: nat := 2 * 1024
  const MAX_DATA_URI: nat := 8 * 1024

  function TokenUriLength(m: Metadata): Evaluation {
    var maxAllowed := if "data:" <= m.uri then MAX_DATA_URI else MAX_URI;
    if |m.uri| == 0 || |m.uri| > maxAllowed then Reject else Accept
  }

  /** `answer` is the row fetched by the token URI. */
  function ExistingTokenUri(m: Metadata, answer: Option<Premint>): Evaluation {
    match answer
    case None => Accept
    case Some(p) => if MetadataOf(p).id == m.id then Accept else Reject
  }

  function SignerMatches(m: Metadata, existing: Option<Premint>): Evaluation {
    match existing
    case None => Ignore
    case Some(p) => if MetadataOf(p).signer == m.signer then Accept else Reject
  }

  function VersionIsHigher(m: Metadata, existing: Option<Premint>): Evaluation {
    match existing
    case None => Ignore
    case Some(p) => if m.version > MetadataOf(p).version then Accept else Reject
  }

  /** All default rules: the general ones on what was read, the others as they answered. */
  function Evaluate(p: Premint, existing: Option<Premint>, answer: Option<Premint>, others: Results): Results {
    var m := MetadataOf(p);
    [Checked(TokenUriLength(m)), Checked(ExistingTokenUri(m, answer)),
     Checked(SignerMatches(m, existing)), Checked(VersionIsHigher(m, existing))] + others
  }

  /**
   * A document is accepted when some other rule failed, and otherwise exactly with a URI of allowed length that no
   * other id's row shows, the signer of any stored version, a version above it, and no rejection by the other rules.
   */
  lemma AcceptedMeans(p: Premint, existing: Option<Premint>, answer: Option<Premint>, others: Results)
    ensures var m := MetadataOf(p);
      IsAccept(Evaluate(p, existing, answer, others)) <==>
        Failed in others ||
        (&& 0 < |m.uri| <= (if "data:" <= m.uri then 8192 else 2048)
         && (answer.Some? ==> MetadataOf(answer.value).id == m.id)
         && (existing.Some? ==>
               MetadataOf(existing.value).signer == m.signer && MetadataOf(existing.value).version < m.version)
         && Checked(Reject) !in others)
  {
    var m := MetadataOf(p);
    var rs := Evaluate(p, existing, answer, others);
    var general := [Checked(TokenUriLength(m)), Checked(ExistingTokenUri(m, answer)),
                    Checked(SignerMatches(m, existing)), Checked(VersionIsHigher(m, existing))];
    AcceptIff(rs);
    assert forall r :: r in rs <==> r in general || r in others;
    assert general[0] in general && general[1] in general && general[2] in general && general[3] in general;
  }
}
