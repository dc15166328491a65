/**
 * The password change popup: a code is sent to the account's e-mail, the
 * code is verified, and only then is the new password form shown. The new
 * password is checked against a regular expression as it is typed, and the
 * confirmation against the password.
 */
module ChangePasswordPopup {
  import opened JsCore

  // ---------------------------------------------------------------------
  // The password rule

  predicate IsAsciiLetter(c: char) {
    'a' <= c <= 'z' || 'A' <= c <= 'Z'
  }

  /** The class `[!@#$%^&*()\-_=+]`. */
  predicate IsSpecial(c: char) {
    c in "!@#$%^&*()-_=+"
  }

  /** The rule the form explains to the user: 8 to 20 characters (UTF-16
      code units, as `.` counts them), none a line terminator, with at least
      one ASCII letter, one digit and one special character. */
  predicate PasswordValid(s: string) {
    8 <= Length(s) <= 20
    && (forall i :: 0 <= i < |s| ==> !IsLineTerminator(s[i]))
    && (exists i :: 0 <= i < |s| && IsAsciiLetter(s[i]))
    && (exists i :: 0 <= i < |s| && IsDigit(s[i]))
    && (exists i :: 0 <= i < |s| && IsSpecial(s[i]))
  }

  /** A lookahead `(?=.*[class])` at the start of the input: some character
      of the class is reached before any line terminator. */
  ghost predicate LookaheadFinds(s: string, cls: char -> bool) {
    exists i :: 0 <= i < |s| && cls(s[i]) && forall j :: 0 <= j < i ==> !IsLineTerminator(s[j])
  }

  /** `/^(?=.*[a-zA-Z])(?=.*\d)(?=.*[!@#$%^&*()\-_=+]).{8,20}$/.test(s)`,
      read construct by construct: three lookaheads from the start, then
      8 to 20 non-terminator code units running to the end of the input. */
  ghost predicate RegexAccepts(s: string) {
    LookaheadFinds(s, IsAsciiLetter) && LookaheadFinds(s, IsDigit) && LookaheadFinds(s, IsSpecial)
    && 8 <= Length(s) <= 20
    && (forall i :: 0 <= i < |s| ==> !IsLineTerminator(s[i]))
  }

  /** Once no line terminator occurs, a lookahead finds its class exactly
      when the class occurs anywhere. */
  lemma LookaheadAnywhere(s: string, cls: char -> bool)
    requires forall i :: 0 <= i < |s| ==> !IsLineTerminator(s[i])
    ensures LookaheadFinds(s, cls) <==> exists i :: 0 <= i < |s| && cls(s[i])
  {
  }

  /** The regular expression accepts exactly the passwords of the rule. */
  lemma RegexIsRule(s: string)
    ensures RegexAccepts(s) <==> PasswordValid(s)
  {
    if forall i :: 0 <= i < |s| ==> !IsLineTerminator(s[i]) {
      LookaheadAnywhere(s, IsAsciiLetter);
      LookaheadAnywhere(s, IsDigit);
      LookaheadAnywhere(s, IsSpecial);
    }
  }

  /** A password of the rule has at least 8 code units, so at least 4
      characters even when every one lies outside the Basic Multilingual
      Plane. */
  lemma ValidPasswordShape(s: string)
    requires PasswordValid(s)
    ensures 8 <= |Utf16(s)| && 4 <= |s|
  {
    LongEnough(s);
  }

  /** A character takes at most two code units. */
  lemma {:induction false} LongEnough(s: string)
    ensures |Utf16(s)| <= 2 * |s|
    decreases |s|
  {
    if s != [] {
      LongEnough(s[..|s| - 1]);
    }
  }

  /** Outside the astral planes the length is the number of characters. */
  lemma BmpLength(s: string)
    requires forall i :: 0 <= i < |s| ==> (s[i] as int) < 0x1_0000
    ensures Length(s) == |s|
  {
    Utf16OfBmp(s);
  }

  /** Spaces count and are allowed: "pass 1!a" meets the rule. */
  lemma SpaceAllowed()
    ensures PasswordValid("pass 1!a")
  {
    var s := "pass 1!a";
    assert forall i :: 0 <= i < |s| ==> (s[i] as int) < 0x1_0000 && !IsLineTerminator(s[i]);
    BmpLength(s);
    assert IsAsciiLetter(s[0]) && IsDigit(s[5]) && IsSpecial(s[6]);
  }

  /** Letters alone never meet the rule, whatever their number. */
  lemma LettersOnlyRejected(s: string)
    requires forall i :: 0 <= i < |s| ==> IsAsciiLetter(s[i])
    ensures !PasswordValid(s)
  {
  }

  /** Fewer than 8 characters never meet the rule. */
  lemma ShortRejected(s: string)
    requires |s| < 8 && forall i :: 0 <= i < |s| ==> (s[i] as int) < 0x1_0000
    ensures !PasswordValid(s)
  {
    Utf16OfBmp(s);
  }

  // ---------------------------------------------------------------------
  // The popup

  /** Which part of the popup is shown. */
  datatype Step = SendCodeStep | EnterCodeStep | PasswordStep

  function StepRank(st: Step): (r: nat)
    ensures st == SendCodeStep <==> r == 0
    ensures st == PasswordStep <==> r == 2
  {
    match st
    case SendCodeStep => 0
    case EnterCodeStep => 1
    case PasswordStep => 2
  }

  /** What `verifyCode` got back: the request failed, or the body's
      `verified` field. */
  datatype VerifyResponse = VerifyFailed | VerifyBody(verified: Scalar)

  /** What `changePassword` did. */
  datatype ChangeOutcome = BadFormat | Mismatch | Sent

  class PasswordPopup {
    var codeSent: bool
    var code: string
    var verified: bool
    var newPw: string
    var confirmPw: string
    var pwValid: bool
    var matchValid: bool

    /** `matchValid` always says whether the two fields agree, and a typed
        password's flag says whether it meets the rule; only the untouched
        empty field keeps the initial `true`. */
    predicate Valid()
      reads this
    {
      (matchValid <==> newPw == confirmPw)
      && (newPw != "" ==> (pwValid <==> PasswordValid(newPw)))
    }

    /** The step the popup renders. */
    function CurrentStep(): (st: Step)
      reads this
      ensures st == SendCodeStep <==> !codeSent
      ensures st == EnterCodeStep <==> codeSent && !verified
      ensures st == PasswordStep <==> codeSent && verified
    {
      if !codeSent then SendCodeStep else if !verified then EnterCodeStep else PasswordStep
    }

    constructor()
      ensures Valid()
      ensures !codeSent && code == "" && !verified && newPw == "" && confirmPw == ""
      ensures pwValid && matchValid
      ensures CurrentStep() == SendCodeStep
    {
      codeSent := false;
      code := "";
      verified := false;
      newPw := "";
      confirmPw := "";
      pwValid := true;
      matchValid := true;
    }

    /** `sendCode`: the step moves on whenever the request resolves,
        whatever the server answered. */
    method SendCode(resolved: bool)
      requires Valid()
      modifies this
      ensures Valid()
      ensures codeSent == (old(codeSent) || resolved)
      ensures StepRank(CurrentStep()) >= StepRank(old(CurrentStep()))
      ensures verified == old(verified) && code == old(code) && newPw == old(newPw)
      ensures confirmPw == old(confirmPw) && pwValid == old(pwValid) && matchValid == old(matchValid)
    {
      if resolved {
        codeSent := true;
      }
    }

    /** The code input. */
    method SetCode(value: string)
      requires Valid()
      modifies this
      ensures Valid()
      ensures code == value
      ensures codeSent == old(codeSent) && verified == old(verified) && newPw == old(newPw)
      ensures confirmPw == old(confirmPw) && pwValid == old(pwValid) && matchValid == old(matchValid)
    {
      code := value;
    }

    /** `verifyCode`: `verified` is set only by a body whose `verified` is
        truthy, and nothing sets it back. */
    method VerifyCode(resp: VerifyResponse)
      requires Valid()
      modifies this
      ensures Valid()
      ensures verified == (old(verified) || (resp.VerifyBody? && Truthy(resp.verified)))
      ensures StepRank(CurrentStep()) >= StepRank(old(CurrentStep()))
      ensures codeSent == old(codeSent) && code == old(code) && newPw == old(newPw)
      ensures confirmPw == old(confirmPw) && pwValid == old(pwValid) && matchValid == old(matchValid)
    {
      if resp.VerifyBody? && Truthy(resp.verified) {
        verified := true;
      }
    }

    /** `handlePwChange`: the password, its rule flag and the match flag
        against the current confirmation. */
    method HandlePwChange(value: string)
      requires Valid()
      modifies this
      ensures Valid()
      ensures newPw == value
      ensures pwValid == RegexAccepts(value)
      ensures matchValid == (value == confirmPw)
      ensures codeSent == old(codeSent) && code == old(code) && verified == old(verified)
      ensures confirmPw == old(confirmPw)
    {
      RegexIsRule(value);
      newPw := value;
      pwValid := PasswordValid(value);
      matchValid := value == confirmPw;
    }

    /** `handleConfirmChange`: the confirmation and the match flag against
        the current password. */
    method HandleConfirmChange(value: string)
      requires Valid()
      modifies this
      ensures Valid()
      ensures confirmPw == value
      ensures matchValid == (newPw == value)
      ensures codeSent == old(codeSent) && code == old(code) && verified == old(verified)
      ensures newPw == old(newPw) && pwValid == old(pwValid)
    {
      confirmPw := value;
      matchValid := newPw == value;
    }

    /** `changePassword` as written: the rule flag is checked first, then
        the match flag; only then is the request sent. */
    method ChangePassword() returns (outcome: ChangeOutcome)
      requires Valid()
      ensures outcome == BadFormat <==> !pwValid
      ensures outcome == Mismatch <==> pwValid && !matchValid
      ensures outcome == Sent <==> pwValid && matchValid
      ensures outcome == Sent ==> newPw == confirmPw && (newPw == "" || PasswordValid(newPw))
    {
      if !pwValid {
        return BadFormat;
      }
      if !matchValid {
        return Mismatch;
      }
      return Sent;
    }

    /** `changePassword` with the rule applied to the password actually
        held, so that the untouched empty field is refused too. */
    method ChangePasswordChecked() returns (outcome: ChangeOutcome)
      requires Valid()
      ensures outcome == BadFormat <==> !PasswordValid(newPw)
      ensures outcome == Mismatch <==> PasswordValid(newPw) && newPw != confirmPw
      ensures outcome == Sent ==> PasswordValid(newPw) && newPw == confirmPw
    {
      if !pwValid || !PasswordValid(newPw) {
        return BadFormat;
      }
      if !matchValid {
        return Mismatch;
      }
      return Sent;
    }
  }

  /** The empty string breaks the rule. */
  lemma EmptyPasswordInvalid()
    ensures !PasswordValid("")
  {
  }

  /** Right after the code is verified, pressing the change button with both
      fields untouched sends the empty password: both flags still hold
      their initial `true`. */
  method EmptyPasswordSent() returns (p: PasswordPopup, outcome: ChangeOutcome)
    ensures p.CurrentStep() == PasswordStep && p.newPw == "" && !PasswordValid(p.newPw)
    ensures outcome == Sent
  {
    p := new PasswordPopup();
    p.SendCode(true);
    p.VerifyCode(VerifyBody(Bool(true)));
    outcome := p.ChangePassword();
  }

  /** The checked submit refuses that same state. */
  method EmptyPasswordRefused() returns (p: PasswordPopup, outcome: ChangeOutcome)
    ensures p.CurrentStep() == PasswordStep && p.newPw == ""
    ensures outcome == BadFormat
  {
    p := new PasswordPopup();
    p.SendCode(true);
    p.VerifyCode(VerifyBody(Bool(true)));
    outcome := p.ChangePasswordChecked();
  }
}
