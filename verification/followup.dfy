/** `generate_followup`: the answer, a blank line, and a fixed invitation to
    ask another question about the company. */
module Followup {
  import opened Common
  import opened Text

  /** The invitation line; it starts with U+2139 U+FE0F, the emoji information
      sign, and has no blank after the comma. */
  const Invitation: string := "\U{2139}\U{FE0F} If you have another question related to our company,please ask."

  /** `generate_followup(answer)`. */
  function GenerateFollowup(answer: string): (r: string)
    ensures |r| == |answer| + 2 + |Invitation|
    ensures r[..|answer|] == answer
    ensures r[|answer|..|answer| + 2] == "\n\n"
    ensures r[|answer| + 2..] == Invitation
  {
    AppendNotice(answer, Invitation)
  }

  /** The answer is recovered by removing the invitation, and only a decorated
      answer yields that answer back. */
  lemma FollowupRoundTrip(answer: string, s: string)
    ensures RemoveNotice(GenerateFollowup(answer), Invitation) == Some(answer)
    ensures RemoveNotice(s, Invitation) == Some(answer) <==> s == GenerateFollowup(answer)
  {
    NoticeRoundTrip(answer, Invitation, s);
  }

  /** Distinct answers give distinct decorated replies. */
  lemma FollowupInjective(a: string, b: string)
    ensures GenerateFollowup(a) == GenerateFollowup(b) ==> a == b
  {
    FollowupRoundTrip(a, GenerateFollowup(b));
  }
}
