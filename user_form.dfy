/**
 * The two-step patient form: `handleChange` folds an input event into the form record,
 * `nextStep` and `prevStep` move between the basic-information step and the medical step,
 * and `handleSubmit` gates the request on the three required fields and resets the form
 * after the patient has been created.
 *
 * The record updates are pure functions (`SetField`, `Without`, `ApplyChange`); the component
 * is the class `UserFormState`, whose methods change `formData`, `step` and `loading`.
 */
module UserForm {
  import opened Wrappers

  /**
   * The form record. `role` is the text value of the checked radio button, kept as text rather
   * than as the backend's role type because the form posts whatever its inputs hold.
   */
  datatype FormData = FormData(
    name: string,
    blood: string,
    phone: string,
    role: string,
    dateOfBirth: string,
    emergencyContact: string,
    allergies: string,
    medications: string,
    address: string,
    medicalConditions: seq<string>)

  /** The record the form starts with and returns to after a successful submit. */
  const EMPTY_FORM := FormData("", "", "", "EMERGENCY", "", "", "", "", "", [])

  /** The text-valued members, one per `name` attribute of a non-checkbox input. */
  datatype Field =
    | Name | Blood | Phone | RoleField | DateOfBirth | EmergencyContact | Allergies | Medications | Address

  /**
   * An input event: a text, select or radio input reports its `name` and `value`; a condition
   * checkbox reports its `value` and whether it is now `checked`.
   */
  datatype ChangeEvent = Input(field: Field, value: string) | Checkbox(value: string, checked: bool)

  function FieldValue(f: FormData, field: Field): string
  {
    match field
    case Name => f.name
    case Blood => f.blood
    case Phone => f.phone
    case RoleField => f.role
    case DateOfBirth => f.dateOfBirth
    case EmergencyContact => f.emergencyContact
    case Allergies => f.allergies
    case Medications => f.medications
    case Address => f.address
  }

  /** Two records are equal exactly when every text member and the conditions agree. */
  lemma FormDataExtensional(f: FormData, g: FormData)
    ensures f == g <==>
      (forall field :: FieldValue(f, field) == FieldValue(g, field)) && f.medicalConditions == g.medicalConditions
  {
    if (forall field :: FieldValue(f, field) == FieldValue(g, field)) && f.medicalConditions == g.medicalConditions {
      assert FieldValue(f, Name) == FieldValue(g, Name);
      assert FieldValue(f, Blood) == FieldValue(g, Blood);
      assert FieldValue(f, Phone) == FieldValue(g, Phone);
      assert FieldValue(f, RoleField) == FieldValue(g, RoleField);
      assert FieldValue(f, DateOfBirth) == FieldValue(g, DateOfBirth);
      assert FieldValue(f, EmergencyContact) == FieldValue(g, EmergencyContact);
      assert FieldValue(f, Allergies) == FieldValue(g, Allergies);
      assert FieldValue(f, Medications) == FieldValue(g, Medications);
      assert FieldValue(f, Address) == FieldValue(g, Address);
    }
  }

  /** `{ ...prev, [name]: value }`: the named member takes the value, nothing else changes. */
  function SetField(f: FormData, field: Field, value: string): (r: FormData)
    ensures FieldValue(r, field) == value
    ensures forall other :: other != field ==> FieldValue(r, other) == FieldValue(f, other)
    ensures r.medicalConditions == f.medicalConditions
  {
    match field
    case Name => f.(name := value)
    case Blood => f.(blood := value)
    case Phone => f.(phone := value)
    case RoleField => f.(role := value)
    case DateOfBirth => f.(dateOfBirth := value)
    case EmergencyContact => f.(emergencyContact := value)
    case Allergies => f.(allergies := value)
    case Medications => f.(medications := value)
    case Address => f.(address := value)
  }

  /** Setting a member to the value it already has leaves the record as it was. */
  lemma SetFieldSameValue(f: FormData, field: Field)
    ensures SetField(f, field, FieldValue(f, field)) == f
  {
    FormDataExtensional(SetField(f, field, FieldValue(f, field)), f);
  }

  /**
   * `conds.filter(cond => cond !== value)`: no occurrence of `value` is left, and every other
   * condition keeps its number of occurrences.
   */
  function Without(conds: seq<string>, value: string): (r: seq<string>)
    ensures value !in r
    ensures forall x :: x != value ==> multiset(r)[x] == multiset(conds)[x]
  {
    if conds == [] then []
    else
      var rest := Without(conds[1..], value);
      assert conds == [conds[0]] + conds[1..];
      if conds[0] == value then rest else [conds[0]] + rest
  }

  /** The filter keeps the other conditions in their order. */
  lemma {:induction false} WithoutIsSubsequence(conds: seq<string>, value: string)
    ensures IsSubsequence(Without(conds, value), conds)
  {
    if conds != [] {
      WithoutIsSubsequence(conds[1..], value);
      var rest := Without(conds[1..], value);
      if conds[0] != value {
        assert ([conds[0]] + rest)[1..] == rest;
      }
    }
  }

  /** Removing a condition that is not there changes nothing. */
  lemma {:induction false} WithoutAbsent(conds: seq<string>, value: string)
    requires value !in conds
    ensures Without(conds, value) == conds
  {
    if conds != [] {
      WithoutAbsent(conds[1..], value);
      assert conds == [conds[0]] + conds[1..];
    }
  }

  /** Removing after appending the same value removes the appended copy too. */
  lemma {:induction false} WithoutAppended(conds: seq<string>, value: string)
    ensures Without(conds + [value], value) == Without(conds, value)
  {
    if conds == [] {
      assert [] + [value] == [value];
      assert [value][1..] == [];
    } else {
      assert (conds + [value])[1..] == conds[1..] + [value];
      WithoutAppended(conds[1..], value);
    }
  }

  /** `handleChange`. */
  function ApplyChange(f: FormData, ev: ChangeEvent): (r: FormData)
    ensures ev.Input? ==>
      && FieldValue(r, ev.field) == ev.value
      && (forall other :: other != ev.field ==> FieldValue(r, other) == FieldValue(f, other))
      && r.medicalConditions == f.medicalConditions
    ensures ev.Checkbox? ==> forall field :: FieldValue(r, field) == FieldValue(f, field)
    ensures ev.Checkbox? && ev.checked ==>
      && |r.medicalConditions| == |f.medicalConditions| + 1
      && r.medicalConditions[..|f.medicalConditions|] == f.medicalConditions
      && r.medicalConditions[|f.medicalConditions|] == ev.value
    ensures ev.Checkbox? && !ev.checked ==>
      && ev.value !in r.medicalConditions
      && forall x :: x != ev.value ==> multiset(r.medicalConditions)[x] == multiset(f.medicalConditions)[x]
  {
    match ev
    case Input(field, value) => SetField(f, field, value)
    case Checkbox(value, checked) =>
      var conds := f.medicalConditions;
      var updated := if checked then conds + [value] else Without(conds, value);
      f.(medicalConditions := updated)
  }

  /** Unchecking keeps the remaining conditions in the order they were checked. */
  lemma UncheckKeepsOrder(f: FormData, value: string)
    ensures IsSubsequence(ApplyChange(f, Checkbox(value, false)).medicalConditions, f.medicalConditions)
  {
    WithoutIsSubsequence(f.medicalConditions, value);
  }

  /** Checking an unchecked condition and unchecking it again gives back the same record. */
  lemma CheckThenUncheck(f: FormData, value: string)
    requires value !in f.medicalConditions
    ensures ApplyChange(ApplyChange(f, Checkbox(value, true)), Checkbox(value, false)) == f
  {
    WithoutAppended(f.medicalConditions, value);
    WithoutAbsent(f.medicalConditions, value);
  }

  predicate NoDuplicates(s: seq<string>)
  {
    forall i, j :: 0 <= i < j < |s| ==> s[i] != s[j]
  }

  /**
   * A checkbox is drawn checked exactly when its condition is in the list, so it reports
   * `checked` only for an absent condition and `!checked` only for a present one.
   */
  predicate FromRenderedCheckbox(f: FormData, ev: ChangeEvent)
  {
    ev.Checkbox? ==> ev.checked == (ev.value !in f.medicalConditions)
  }

  /** Toggling rendered checkboxes never lists a condition twice. */
  lemma ToggleKeepsNoDuplicates(f: FormData, ev: ChangeEvent)
    requires NoDuplicates(f.medicalConditions)
    requires FromRenderedCheckbox(f, ev)
    ensures NoDuplicates(ApplyChange(f, ev).medicalConditions)
  {
    if ev.Checkbox? && !ev.checked {
      WithoutKeepsNoDuplicates(f.medicalConditions, ev.value);
    }
  }

  lemma {:induction false} WithoutKeepsNoDuplicates(conds: seq<string>, value: string)
    requires NoDuplicates(conds)
    ensures NoDuplicates(Without(conds, value))
  {
    if conds != [] {
      var tail := conds[1..];
      assert NoDuplicates(tail) by {
        forall i, j | 0 <= i < j < |tail| ensures tail[i] != tail[j] {
          assert tail[i] == conds[i + 1] && tail[j] == conds[j + 1];
        }
      }
      WithoutKeepsNoDuplicates(tail, value);
      var rest := Without(tail, value);
      if conds[0] != value {
        assert conds[0] !in tail by {
          forall j | 0 <= j < |tail| ensures tail[j] != conds[0] {
            assert tail[j] == conds[j + 1];
          }
        }
        assert multiset(rest)[conds[0]] == multiset(tail)[conds[0]] == 0;
        assert conds[0] !in rest;
        var s := [conds[0]] + rest;
        forall i, j | 0 <= i < j < |s| ensures s[i] != s[j] {
          assert s[j] == rest[j - 1];
          if i > 0 {
            assert s[i] == rest[i - 1];
          }
        }
      }
    }
  }

  /** `!formData.name || !formData.blood || !formData.phone` fails. */
  predicate RequiredFilled(f: FormData)
  {
    f.name != [] && f.blood != [] && f.phone != []
  }

  /** The members drawn on the medical step: the three required ones are not among them. */
  predicate OnMedicalStep(ev: ChangeEvent)
  {
    ev.Checkbox? || ev.field in {Allergies, Medications, Address}
  }

  /** Events of the medical step cannot empty a required member, so submit from there passes. */
  lemma MedicalStepKeepsRequired(f: FormData, ev: ChangeEvent)
    requires RequiredFilled(f)
    requires OnMedicalStep(ev)
    ensures RequiredFilled(ApplyChange(f, ev))
  {
  }

  /** The empty form fails the required-field gate. */
  lemma EmptyFormIsIncomplete()
    ensures !RequiredFilled(EMPTY_FORM)
    ensures EMPTY_FORM.role == "EMERGENCY" && EMPTY_FORM.medicalConditions == []
  {
  }

  /** How the create request ended. */
  datatype SubmitReply = Created | Refused

  class UserFormState {
    var formData: FormData
    /** 1: basic information, 2: medical details. */
    var step: nat
    var loading: bool

    /** At rest the form shows one of its two steps and no request is in flight. */
    ghost predicate Valid()
      reads this
    {
      (step == 1 || step == 2) && !loading
    }

    constructor ()
      ensures Valid()
      ensures formData == EMPTY_FORM && step == 1
    {
      formData := EMPTY_FORM;
      step := 1;
      loading := false;
    }

    /** `handleChange`: the event is folded into the record; the step does not move. */
    method HandleChange(ev: ChangeEvent)
      modifies this
      requires Valid()
      ensures Valid()
      ensures formData == ApplyChange(old(formData), ev)
      ensures step == old(step)
    {
      formData := ApplyChange(formData, ev);
    }

    /** `nextStep`: the medical step opens only when name, phone and blood are all filled. */
    method NextStep() returns (advanced: bool)
      modifies this
      requires Valid()
      ensures Valid()
      ensures advanced <==> RequiredFilled(old(formData))
      ensures step == (if advanced then 2 else old(step))
      ensures formData == old(formData)
    {
      if formData.name == [] || formData.phone == [] || formData.blood == [] {
        return false;
      }
      step := 2;
      advanced := true;
    }

    /** `prevStep`: back to the basic-information step, whatever the step was. */
    method PrevStep()
      modifies this
      requires Valid()
      ensures Valid()
      ensures step == 1
      ensures formData == old(formData)
    {
      step := 1;
    }

    /**
     * `handleSubmit`. With a required member empty nothing is sent and nothing changes.
     * Otherwise the record is sent as it stands (`posted`) and `reply` says how the request
     * ended: once the patient is created the form is reset to `EMPTY_FORM` on step 1; a refusal
     * keeps the record and the step so the user can correct and resend.
     */
    method HandleSubmit(reply: SubmitReply) returns (posted: Option<FormData>)
      modifies this
      requires Valid()
      ensures Valid()
      ensures posted.Some? <==> RequiredFilled(old(formData))
      ensures posted.Some? ==> posted.value == old(formData)
      ensures posted.None? || reply.Refused? ==> formData == old(formData) && step == old(step)
      ensures posted.Some? && reply.Created? ==> formData == EMPTY_FORM && step == 1
    {
      if formData.name == [] || formData.blood == [] || formData.phone == [] {
        return None;
      }
      loading := true;
      posted := Some(formData);
      if reply.Created? {
        formData := EMPTY_FORM;
        step := 1;
      }
      loading := false;
    }
  }
}
