/** The registration form component: its form values, the three fields that
    the age gate and the submit handler change, and those two handlers. */
module UserFormComponent {
  import opened JsStrings
  import opened AgeGate
  import opened Rfc

  /** The values of the form's controls. `rfc` is the identifier the user
      typed; the others are required by the form. */
  datatype Profile = Profile(
    firstName: string,
    fatherLastName: string,
    motherLastName: string,
    birthDate: Date,
    gender: string,
    nationality: string,
    club: string,
    rfc: string,
    occupation: string)

  /** The component's own fields: whether the RFC is asked for, whether the
      form was submitted, and the error shown under the RFC. */
  datatype Status = Status(showRFC: bool, submitted: bool, rfcError: string)

  const MismatchPrefix := "RFC does not match. Expected: "

  /** The identifier the form derives from its values. */
  function ExpectedRFC(p: Profile): string {
    GenerateRFC(p.firstName, p.fatherLastName, p.motherLastName, p.birthDate)
  }

  /** The derived and the typed identifier, each without its last three
      characters, differ. */
  predicate Mismatch(p: Profile) {
    SliceDropLast(ExpectedRFC(p), 3) != SliceDropLast(p.rfc, 3)
  }

  /** The state after a submit: blocked with an error naming the expected
      value when the gate is open and the identifiers differ, accepted
      otherwise. */
  function Submit(p: Profile, s: Status): Status {
    if s.showRFC && Mismatch(p) then
      s.(rfcError := MismatchPrefix + SliceDropLast(ExpectedRFC(p), 3))
    else
      s.(rfcError := "", submitted := true)
  }

  /** A submit is blocked (an error is shown) if and only if the gate is open
      and the identifiers differ; a blocked submit keeps `submitted` as it
      was, an accepted one sets it. The gate is never touched. */
  lemma SubmitBlockedIff(p: Profile, s: Status)
    ensures var r := Submit(p, s);
      && r.showRFC == s.showRFC
      && (r.rfcError != "" <==> s.showRFC && Mismatch(p))
      && (r.rfcError != "" ==> r.submitted == s.submitted)
      && (r.rfcError == "" ==> r.submitted)
  {
  }

  /** The error message of a blocked submit is the fixed prefix followed by
      the letter and date blocks of the expected identifier. */
  lemma SubmitErrorNamesExpected(p: Profile, s: Status)
    requires s.showRFC && Mismatch(p)
    ensures Submit(p, s).rfcError
            == MismatchPrefix + LetterPart(p.firstName, p.fatherLastName, p.motherLastName)
               + DatePart(p.birthDate)
  {
    GenerateRFCSuffix(p.firstName, p.fatherLastName, p.motherLastName, p.birthDate);
  }

  /** With the gate closed a submit succeeds whatever the RFC field holds. */
  lemma SubmitMinorAlwaysAccepted(p: Profile, s: Status, typed: string)
    requires !s.showRFC
    ensures Submit(p.(rfc := typed), s) == Status(false, true, "")
  {
  }

  /** Two typed identifiers that differ only in their last three characters
      lead to the same outcome. */
  lemma SubmitSuffixBlind(p: Profile, s: Status, prefix: string, tail1: string, tail2: string)
    requires |tail1| == 3 && |tail2| == 3
    ensures Submit(p.(rfc := prefix + tail1), s) == Submit(p.(rfc := prefix + tail2), s)
  {
    SliceDropLastAppend(prefix, tail1, 3);
    SliceDropLastAppend(prefix, tail2, 3);
  }

  /** Typing the derived identifier, with any three last characters (for
      example the capitalised "XXX"), is always accepted. */
  lemma SubmitAcceptsExpected(p: Profile, s: Status, tail: string)
    requires |tail| == 3
    ensures var q := p.(rfc := SliceDropLast(ExpectedRFC(p), 3) + tail);
      Submit(q, s) == s.(rfcError := "", submitted := true)
  {
    var q := p.(rfc := SliceDropLast(ExpectedRFC(p), 3) + tail);
    SliceDropLastAppend(SliceDropLast(ExpectedRFC(p), 3), tail, 3);
    assert ExpectedRFC(q) == ExpectedRFC(p);
  }

  /** Submitting again without changing anything changes nothing. */
  lemma SubmitIdempotent(p: Profile, s: Status)
    ensures Submit(p, Submit(p, s)) == Submit(p, s)
  {
  }

  /** The component. The form values are one field; the three fields of
      `Status` are the ones the handlers assign. */
  class UserForm {
    var profile: Profile
    var showRFC: bool
    var submitted: bool
    var rfcError: string

    /** The component as created: the gate closed, not submitted, no error. */
    constructor (values: Profile)
      ensures profile == values
      ensures State() == Status(false, false, "")
    {
      profile := values;
      showRFC := false;
      submitted := false;
      rfcError := "";
    }

    function State(): Status
      reads this
    {
      Status(showRFC, submitted, rfcError)
    }

    /** Recomputes the gate from the birth date and today's date. */
    method CheckAge(today: Date)
      modifies this`showRFC
      ensures showRFC == IsAdult(profile.birthDate, today)
    {
      var birth := profile.birthDate;
      var age := today.year - birth.year;
      var monthDiff := today.month0 - birth.month0;
      if monthDiff < 0 || (monthDiff == 0 && today.day < birth.day) {
        age := age - 1;
      }
      showRFC := age >= AdultAge;
    }

    /** A change of the birth-date control, which re-runs the age gate. */
    method SetBirthDate(birth: Date, today: Date)
      modifies this`profile, this`showRFC
      ensures profile == old(profile).(birthDate := birth)
      ensures showRFC == IsAdult(birth, today)
    {
      profile := profile.(birthDate := birth);
      CheckAge(today);
    }

    /** The submit handler. */
    method OnSubmit()
      modifies this`rfcError, this`submitted
      ensures State() == Submit(profile, old(State()))
      ensures old(showRFC) && Mismatch(profile) ==>
                rfcError == MismatchPrefix + SliceDropLast(ExpectedRFC(profile), 3)
                && submitted == old(submitted)
      ensures !(old(showRFC) && Mismatch(profile)) ==> rfcError == "" && submitted
    {
      var generated := GenerateRFC(profile.firstName, profile.fatherLastName,
                                   profile.motherLastName, profile.birthDate);
      var provided := profile.rfc;
      var fixedGenerated := SliceDropLast(generated, 3);
      var fixedProvided := SliceDropLast(provided, 3);
      if showRFC && fixedGenerated != fixedProvided {
        rfcError := MismatchPrefix + fixedGenerated;
        return;
      }
      rfcError := "";
      submitted := true;
    }
  }
}
