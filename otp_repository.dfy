/**
 * The derived OTP lookup: a record for this contact and code that is not
 * used yet and expires strictly after `now`.
 */
module OtpVerificationRepository {
  import opened Domain

  /**
   * The record answers the lookup. A missing contact (neither email nor
   * phone given) matches no record, since every record has one.
   */
  predicate OtpMatches(o: OtpVerification, contactInfo: Option<string>, otpCode: string, now: int)
  {
    contactInfo == Some(o.contactInfo) && o.otpCode == otpCode && !o.isUsed && o.expiresAt > now
  }

  /** The positions of the records answering the lookup, in table order. */
  function MatchingOtpIndices(otps: seq<OtpVerification>, contactInfo: Option<string>, otpCode: string, now: int)
    : (r: seq<nat>)
    ensures forall k :: k in r ==> k < |otps| && OtpMatches(otps[k], contactInfo, otpCode, now)
    ensures forall k :: 0 <= k < |otps| && OtpMatches(otps[k], contactInfo, otpCode, now) ==> k in r
    ensures forall a, b :: 0 <= a < b < |r| ==> r[a] < r[b]
  {
    if otps == [] then []
    else
      var n := |otps| - 1;
      var earlier := MatchingOtpIndices(otps[..n], contactInfo, otpCode, now);
      assert forall a :: 0 <= a < |earlier| ==> earlier[a] in earlier;
      earlier + if OtpMatches(otps[n], contactInfo, otpCode, now) then [n] else []
  }

  /** The lookup itself; it yields the position of the one matching record. */
  function FindByContactInfoAndOtpCodeAndIsUsedFalseAndExpiresAtAfter(
    otps: seq<OtpVerification>, contactInfo: Option<string>, otpCode: string, now: int): (r: Single<nat>)
    ensures r.OneRow? ==> r.row < |otps|
    ensures r.OneRow? ==> Some(otps[r.row].contactInfo) == contactInfo
    ensures r.OneRow? ==> otps[r.row].otpCode == otpCode
    ensures r.OneRow? ==> !otps[r.row].isUsed
    ensures r.OneRow? ==> otps[r.row].expiresAt > now
    ensures r.OneRow? ==> forall k :: 0 <= k < |otps| && OtpMatches(otps[k], contactInfo, otpCode, now) ==> k == r.row
    ensures r.NoRow? <==> forall k :: 0 <= k < |otps| ==> !OtpMatches(otps[k], contactInfo, otpCode, now)
    ensures r.ManyRows? ==>
      exists a, b :: 0 <= a < b < |otps|
        && OtpMatches(otps[a], contactInfo, otpCode, now) && OtpMatches(otps[b], contactInfo, otpCode, now)
  {
    var hits := MatchingOtpIndices(otps, contactInfo, otpCode, now);
    if |hits| == 0 then
      NoRow
    else if |hits| == 1 then
      assert hits[0] in hits;
      OneRow(hits[0])
    else
      assert hits[0] in hits && hits[1] in hits;
      ManyRows
  }

  /**
   * Once the record a lookup found is marked used, the same lookup at the
   * same or a later instant finds nothing: an OTP is single-use.
   */
  lemma {:induction false} UsedOtpIsNotFoundAgain(
    otps: seq<OtpVerification>, contactInfo: Option<string>, otpCode: string, now: int, later: int)
    requires FindByContactInfoAndOtpCodeAndIsUsedFalseAndExpiresAtAfter(otps, contactInfo, otpCode, now).OneRow?
    requires now <= later
    ensures
      var i := FindByContactInfoAndOtpCodeAndIsUsedFalseAndExpiresAtAfter(otps, contactInfo, otpCode, now).row;
      FindByContactInfoAndOtpCodeAndIsUsedFalseAndExpiresAtAfter(
        otps[i := otps[i].(isUsed := true)], contactInfo, otpCode, later).NoRow?
  {
    var i := FindByContactInfoAndOtpCodeAndIsUsedFalseAndExpiresAtAfter(otps, contactInfo, otpCode, now).row;
    var after := otps[i := otps[i].(isUsed := true)];
    forall k | 0 <= k < |after| ensures !OtpMatches(after[k], contactInfo, otpCode, later) {
      if k != i {
        assert after[k] == otps[k];
      }
    }
  }
}
