/**
 * The name change popup: one text field, checked as it is typed, and a
 * submit button disabled while the check fails.
 */
module ChangeNamePopup {
  import opened JsCore

  /** `value.trim().length > 0 && value.length <= 8`: something besides
      whitespace, and at most 8 code units counting the whitespace. */
  predicate NameValid(v: string) {
    Length(Trim(v)) > 0 && Length(v) <= 8
  }

  /** The rule in plain terms: some character is not whitespace, and the
      raw text is at most 8 code units long. */
  lemma NameValidIff(v: string)
    ensures NameValid(v) <==> (exists i :: 0 <= i < |v| && !IsJsWhitespace(v[i])) && Length(v) <= 8
  {
    TrimEmptyIffBlank(v);
    assert Utf16([]) == [];
    if Trim(v) != [] {
      assert |Utf16(Trim(v))| >= |Trim(v)|;
    }
  }

  /** A name of whitespace alone is refused, whatever its length. */
  lemma BlankNameInvalid(v: string)
    requires forall i :: 0 <= i < |v| ==> IsJsWhitespace(v[i])
    ensures !NameValid(v)
  {
    NameValidIff(v);
  }

  /** Spaces count toward the limit: a leading space pushes an 8-character
      name over it, though the trimmed name alone would pass. */
  lemma SpacesCount(core: string)
    requires |core| == 8 && forall i :: 0 <= i < |core| ==> (core[i] as int) < 0x1_0000
    ensures !NameValid(" " + core)
  {
    Utf16OfBmp(" " + core);
  }

  /** What the submit button did. */
  datatype SubmitOutcome = Ignored | Requested(name: string)

  class NamePopup {
    var name: string
    var nameValid: bool

    /** Once typed, the flag follows the rule; only the untouched empty field
        keeps its initial `true`. */
    predicate Valid()
      reads this
    {
      name != "" ==> (nameValid <==> NameValid(name))
    }

    /** The popup opens with an empty name marked valid. */
    constructor()
      ensures Valid()
      ensures name == "" && nameValid
    {
      name := "";
      nameValid := true;
    }

    /** `handleNameChange` */
    method HandleNameChange(value: string)
      requires Valid()
      modifies this
      ensures Valid()
      ensures name == value
      ensures nameValid == NameValid(value)
    {
      name := value;
      nameValid := Length(Trim(value)) > 0 && Length(value) <= 8;
    }

    /** The button's `disabled`. */
    predicate SubmitDisabled()
      reads this
    {
      !nameValid
    }

    /** `handleSubmit` as written: nothing happens while the flag is down;
        otherwise the name is sent as it is, untrimmed. */
    method HandleSubmit() returns (outcome: SubmitOutcome)
      requires Valid()
      ensures outcome == Ignored <==> SubmitDisabled()
      ensures outcome.Requested? ==> outcome.name == name && (name == "" || NameValid(name))
    {
      if !nameValid {
        return Ignored;
      }
      return Requested(name);
    }

    /** `handleSubmit` with the rule applied to the name actually held, so
        that the untouched empty field is refused too. */
    method HandleSubmitChecked() returns (outcome: SubmitOutcome)
      requires Valid()
      ensures outcome == Ignored <==> !NameValid(name)
      ensures outcome.Requested? ==> outcome.name == name && NameValid(name)
    {
      if !nameValid || !NameValid(name) {
        return Ignored;
      }
      return Requested(name);
    }
  }

  /** Pressing the button before typing anything sends the empty name. */
  method EmptyNameSent() returns (p: NamePopup, outcome: SubmitOutcome)
    ensures !NameValid(p.name)
    ensures outcome == Requested("")
  {
    p := new NamePopup();
    assert Trim("") == "";
    outcome := p.HandleSubmit();
  }

  /** The checked submit refuses that same state. */
  method EmptyNameRefused() returns (p: NamePopup, outcome: SubmitOutcome)
    ensures p.name == ""
    ensures outcome == Ignored
  {
    p := new NamePopup();
    assert Trim("") == "";
    outcome := p.HandleSubmitChecked();
  }
}
