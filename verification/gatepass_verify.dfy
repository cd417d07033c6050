/** The gate-pass check at the gate
    (features/gate-pass/components/gatepass-verify/gatepass-verify.component.ts).
    The lookup by pass number is a parameter; the verdict depends only on
    the pass's status, its validity window and the current instant. */
module GatepassVerify {
  import opened Common
  import opened Text
  import opened Time
  import opened GatePassModel

  const InvalidNumberMessage: string := "\U{274C} Invalid gate pass number."
  const VerifiedMessage: string := "Gate Pass Verified"
  const ExpiredMessage: string := "\U{26A0}\U{FE0F} Gate Pass Expired."
  const NotApprovedMessage: string := "\U{1F552} Gate Pass not approved yet."
  const InvalidMessage: string := "\U{274C} Invalid or Expired Gate Pass."
  const GreenColor: string := "text-green-600"
  const RedColor: string := "text-red-600"

  datatype Verdict = Verified | Expired | NotApproved | Invalid

  /** The decision: verified when approved and `now` lies in the window,
      ends included; expired when approved and past the end; not approved
      yet when pending, whatever the dates; invalid otherwise (rejected,
      completed, or approved but not yet valid). */
  function Decide(status: PassStatus, validFrom: DateTime, validTo: DateTime, now: DateTime): (v: Verdict)
    ensures v == Verified <==> status == Approved && Ticks(validFrom) <= Ticks(now) <= Ticks(validTo)
    ensures v == Expired <==> status == Approved && Ticks(now) > Ticks(validTo)
    ensures v == NotApproved <==> status == Pending
    ensures v == Invalid <==>
      status == Rejected || status == Completed
      || (status == Approved && Ticks(now) < Ticks(validFrom) && Ticks(now) <= Ticks(validTo))
  {
    var isApproved := status == Approved;
    var isWithinRange := Ticks(now) >= Ticks(validFrom) && Ticks(now) <= Ticks(validTo);
    if isApproved && isWithinRange then Verified
    else if isApproved && Ticks(now) > Ticks(validTo) then Expired
    else if status == Pending then NotApproved
    else Invalid
  }

  /** The message shown for a verdict. */
  function Message(v: Verdict): string {
    match v
    case Verified => VerifiedMessage
    case Expired => ExpiredMessage
    case NotApproved => NotApprovedMessage
    case Invalid => InvalidMessage
  }

  /** The component's fields. */
  datatype VerifyState = VerifyState(code: string, result: Option<GatePass>, statusMessage: string, statusColor: string)

  /** `showInvalid`: no result, the message in red. */
  function ShowInvalid(s: VerifyState, msg: string): (r: VerifyState)
    ensures r.result.None? && r.statusMessage == msg && r.statusColor == RedColor && r.code == s.code
  {
    s.(result := None, statusMessage := msg, statusColor := RedColor)
  }

  /** `clear`: empties the code, result and message; the colour is kept. */
  function Clear(s: VerifyState): (r: VerifyState)
    ensures r.code == "" && r.result.None? && r.statusMessage == "" && r.statusColor == s.statusColor
  {
    s.(code := "", result := None, statusMessage := "")
  }

  /** `verify`. A blank code does nothing; otherwise the trimmed code is
      looked up and the verdict shown. */
  function Verify(s: VerifyState, lookup: string -> Option<GatePass>, now: DateTime): (r: VerifyState)
    ensures IsBlank(s.code) ==> r == s
    ensures r.code == s.code
    ensures !IsBlank(s.code) && lookup(Trim(s.code)).None? ==> r == ShowInvalid(s, InvalidNumberMessage)
    ensures !IsBlank(s.code) && lookup(Trim(s.code)).Some? ==>
      var p := lookup(Trim(s.code)).value;
      var v := Decide(p.status, p.validFrom, p.validTo, now);
      r.statusMessage == Message(v)
      && (r.result.Some? <==> v == Verified)
      && (r.result.Some? ==> r.result == Some(p))
      && r.statusColor == (if v == Verified then GreenColor else RedColor)
  {
    if Trim(s.code) == "" then s
    else
      var res := lookup(Trim(s.code));
      if res.None? then ShowInvalid(s, InvalidNumberMessage)
      else
        var p := res.value;
        var v := Decide(p.status, p.validFrom, p.validTo, now);
        if v == Verified then s.(result := Some(p), statusMessage := VerifiedMessage, statusColor := GreenColor)
        else ShowInvalid(s, Message(v))
  }

  /** Verifying again with the same code and at the same instant gives the
      same state. */
  lemma VerifyIdempotent(s: VerifyState, lookup: string -> Option<GatePass>, now: DateTime)
    ensures Verify(Verify(s, lookup, now), lookup, now) == Verify(s, lookup, now)
  {
  }

  /** Only the trimmed code matters: codes that trim alike verify alike,
      so white space around a scanned code changes nothing. */
  lemma VerifyUsesTrimmedCode(s: VerifyState, code: string, lookup: string -> Option<GatePass>, now: DateTime)
    requires Trim(code) == Trim(s.code)
    ensures Verify(s.(code := code), lookup, now) == Verify(s, lookup, now).(code := code)
  {
    var t := Trim(s.code);
    var s' := s.(code := code);
    assert Trim(s'.code) == t;
    if t != "" {
      var res := lookup(t);
      if res.Some? {
        var p := res.value;
        var v := Decide(p.status, p.validFrom, p.validTo, now);
        if v == Verified {
          assert Verify(s', lookup, now) == s'.(result := Some(p), statusMessage := VerifiedMessage, statusColor := GreenColor);
        } else {
          assert Verify(s', lookup, now) == ShowInvalid(s', Message(v));
        }
      }
    }
  }

  /** An approved pass valid through January, checked on 15 January and on
      1 February. */
  lemma JanuaryScenario(p: GatePass)
    requires p.status == Approved
    requires p.validFrom == DateTime(Date(2025, 1, 1), 0)
    requires p.validTo == DateTime(Date(2025, 1, 31), 0)
    ensures Decide(p.status, p.validFrom, p.validTo, DateTime(Date(2025, 1, 15), 0)) == Verified
    ensures Decide(p.status, p.validFrom, p.validTo, DateTime(Date(2025, 2, 1), 0)) == Expired
    ensures Decide(Pending, p.validFrom, p.validTo, DateTime(Date(2025, 1, 15), 0)) == NotApproved
    ensures Decide(p.status, p.validFrom, p.validTo, DateTime(Date(2024, 12, 31), 0)) == Invalid
  {
  }
}
