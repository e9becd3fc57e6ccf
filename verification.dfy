/** app/services/verification.py: claim-level verification of an answer. The
    language model that splits the answer into claims and the one that judges
    entailment are parameters giving the decoded JSON replies. */
module Verification {
  import opened Wrappers
  import opened Text

  /** At most this many characters of evidence are shown to the judge. */
  const EvidenceLimit: nat := 10000

  datatype VerifiedClaim = VerifiedClaim(claim: string, supported: bool)

  /** The two shapes of the result: `{"score": 0.0, "details": []}` when no
      claim was extracted, `{"support_score", "claims"}` otherwise. */
  datatype NliResult =
    | NoClaims(score: real, details: seq<VerifiedClaim>)
    | Scored(supportScore: real, claims: seq<VerifiedClaim>)

  /** `_extract_atomic_claims`: the "claims" list of the reply, and [] when the
      call or the decoding fails or the key is missing. */
  function ExtractAtomicClaims(reply: JsonReply<seq<string>>): (claims: seq<string>)
    ensures !reply.Field? ==> claims == []
    ensures reply.Field? ==> claims == reply.value
  {
    match reply
    case Field(cs) => cs
    case _ => []
  }

  /** `_check_entailment`: the "supported" flag of the reply, and false when
      the call or the decoding fails or the key is missing. */
  function CheckEntailment(reply: JsonReply<bool>): (supported: bool)
    ensures supported <==> reply == Field(true)
  {
    match reply
    case Field(b) => b
    case _ => false
  }

  /** The evidence shown to the judge: the newline-joined texts cut to their
      first 10000 characters. */
  function EvidenceBlob(texts: seq<string>): (blob: string)
    ensures blob <= Join(texts, "\n")
    ensures |blob| <= EvidenceLimit
    ensures |Join(texts, "\n")| <= EvidenceLimit ==> blob == Join(texts, "\n")
    ensures |Join(texts, "\n")| > EvidenceLimit ==> |blob| == EvidenceLimit
  {
    Prefix(Join(texts, "\n"), EvidenceLimit)
  }

  /** One verdict per claim, in claim order. */
  function Verdicts(claims: seq<string>, blob: string, entail: (string, string) -> JsonReply<bool>): (vs: seq<VerifiedClaim>)
    ensures |vs| == |claims|
    ensures forall i :: 0 <= i < |claims| ==>
              vs[i].claim == claims[i] && (vs[i].supported <==> entail(claims[i], blob) == Field(true))
  {
    seq(|claims|, i requires 0 <= i < |claims| => VerifiedClaim(claims[i], CheckEntailment(entail(claims[i], blob))))
  }

  function CountSupported(vs: seq<VerifiedClaim>): nat
  {
    if vs == [] then 0 else CountSupported(vs[..|vs| - 1]) + (if vs[|vs| - 1].supported then 1 else 0)
  }

  function SupportedIndices(vs: seq<VerifiedClaim>): set<int>
  {
    set i | 0 <= i < |vs| && vs[i].supported
  }

  /** The counter equals the number of entries marked supported; it is at most
      the number of entries, and equal to it exactly when every entry is
      supported. */
  lemma {:induction false} CountSupportedSpec(vs: seq<VerifiedClaim>)
    ensures CountSupported(vs) == |SupportedIndices(vs)|
    ensures CountSupported(vs) <= |vs|
    ensures CountSupported(vs) == |vs| <==> forall i :: 0 <= i < |vs| ==> vs[i].supported
  {
    if vs != [] {
      var init := vs[..|vs| - 1];
      var n := |vs| - 1;
      CountSupportedSpec(init);
      assert forall i :: 0 <= i < n ==> init[i] == vs[i];
      if vs[n].supported {
        assert SupportedIndices(vs) == SupportedIndices(init) + {n};
        assert n !in SupportedIndices(init);
      } else {
        assert SupportedIndices(vs) == SupportedIndices(init);
        assert CountSupported(vs) < |vs|;
      }
    }
  }

  /** The result of `verify_claims_nli`. */
  function NliResultOf(answer: string, evidenceTexts: seq<string>,
                       claimReply: string -> JsonReply<seq<string>>,
                       entail: (string, string) -> JsonReply<bool>): NliResult
  {
    var claims := ExtractAtomicClaims(claimReply(answer));
    if claims == [] then NoClaims(0.0, [])
    else
      var vs := Verdicts(claims, EvidenceBlob(evidenceTexts), entail);
      Scored(CountSupported(vs) as real / |claims| as real, vs)
  }

  /** `verify_claims_nli`: judge each claim and count the supported ones. */
  method VerifyClaimsNli(answer: string, evidenceTexts: seq<string>,
                         claimReply: string -> JsonReply<seq<string>>,
                         entail: (string, string) -> JsonReply<bool>)
    returns (result: NliResult)
    ensures result == NliResultOf(answer, evidenceTexts, claimReply, entail)
  {
    var claims := ExtractAtomicClaims(claimReply(answer));
    if claims == [] {
      return NoClaims(0.0, []);
    }
    var evidenceBlob := EvidenceBlob(evidenceTexts);
    var verifiedClaims: seq<VerifiedClaim> := [];
    var supportedCount := 0;
    for i := 0 to |claims|
      invariant verifiedClaims == Verdicts(claims[..i], evidenceBlob, entail)
      invariant supportedCount == CountSupported(verifiedClaims)
    {
      var isSupported := CheckEntailment(entail(claims[i], evidenceBlob));
      ghost var before := verifiedClaims;
      verifiedClaims := verifiedClaims + [VerifiedClaim(claims[i], isSupported)];
      assert verifiedClaims[..|verifiedClaims| - 1] == before;
      if isSupported {
        supportedCount := supportedCount + 1;
      }
    }
    assert claims[..|claims|] == claims;
    var score := supportedCount as real / |claims| as real;
    result := Scored(score, verifiedClaims);
  }

  lemma RatioIsOne(c: real, n: real)
    requires 0.0 < n && 0.0 <= c <= n
    ensures c / n == 1.0 <==> c == n
    ensures 0.0 <= c / n <= 1.0
  {
  }

  /** With claims, the score is the fraction of claims the judge supports: one
      entry per claim in claim order, marked supported exactly when the judge
      answers true for that claim against the evidence blob, a score in [0, 1], equal to 1 exactly
      when every claim is supported. Without claims, including when the claim
      reply fails, the result is the empty shape with score 0. */
  lemma NliResultSpec(answer: string, evidenceTexts: seq<string>,
                      claimReply: string -> JsonReply<seq<string>>,
                      entail: (string, string) -> JsonReply<bool>)
    ensures var claims := ExtractAtomicClaims(claimReply(answer));
            var r := NliResultOf(answer, evidenceTexts, claimReply, entail);
            && (claims == [] <==> r == NoClaims(0.0, []))
            && (!claimReply(answer).Field? ==> r == NoClaims(0.0, []))
            && (r.Scored? ==>
                  && |r.claims| == |claims|
                  && (forall i :: 0 <= i < |claims| ==> r.claims[i].claim == claims[i])
                  && (forall i :: 0 <= i < |claims| ==>
                        (r.claims[i].supported <==> entail(claims[i], EvidenceBlob(evidenceTexts)) == Field(true)))
                  && r.supportScore == |SupportedIndices(r.claims)| as real / |claims| as real
                  && 0.0 <= r.supportScore <= 1.0
                  && (r.supportScore == 1.0 <==> forall i :: 0 <= i < |r.claims| ==> r.claims[i].supported))
  {
    var claims := ExtractAtomicClaims(claimReply(answer));
    if claims != [] {
      var vs := Verdicts(claims, EvidenceBlob(evidenceTexts), entail);
      CountSupportedSpec(vs);
      RatioIsOne(CountSupported(vs) as real, |claims| as real);
    }
  }
}
