/** The contact form's state: the text of its four inputs, keyed by each
    input's name attribute. A change event writes the event target's value
    under the target's name and keeps every other entry; submitting clears
    the form. The success notification is not part of the model. */
module ContactForm {

  type FormData = map<string, string>

  /** The name attributes of the form's four inputs. */
  const FieldNames: set<string> := {"name", "email", "subject", "message"}

  /** The form as first shown and as left after a submit. */
  const EmptyForm: FormData := map["name" := "", "email" := "", "subject" := "", "message" := ""]

  /** A form holding exactly the four inputs' entries. */
  predicate WellFormed(form: FormData) {
    form.Keys == FieldNames
  }

  /** handleChange: the previous entries with the target's one replaced
      (or added, for a name the form does not have). */
  function Changed(form: FormData, target: string, value: string): FormData {
    form[target := value]
  }

  /** handleSubmit: whatever was typed, every field is empty again. */
  function Submitted(form: FormData): FormData {
    EmptyForm
  }

  // ---------------------------------------------------------------------
  // Properties

  /** The initial form has the four fields, all empty. */
  lemma EmptyFormFields()
    ensures WellFormed(EmptyForm)
    ensures forall k :: k in EmptyForm ==> EmptyForm[k] == ""
  {
  }

  /** A change from one of the four inputs sets that field to the typed
      value, leaves the other fields as they were and keeps the field set. */
  lemma ChangeUpdatesOneField(form: FormData, target: string, value: string)
    requires target in FieldNames
    ensures var r := Changed(form, target, value);
      && target in r && r[target] == value
      && (forall k :: k in form && k != target ==> k in r && r[k] == form[k])
      && (WellFormed(form) ==> WellFormed(r))
  {
  }

  /** The field set stays the four names only because every input carries
      one of them: a target name outside them would add an entry. */
  lemma ChangeFromOtherNameAddsField(form: FormData, target: string, value: string)
    requires WellFormed(form) && target !in FieldNames
    ensures !WellFormed(Changed(form, target, value))
    ensures Changed(form, target, value).Keys == FieldNames + {target}
  {
  }

  /** Submitting empties every field whatever was typed, so a second
      submit changes nothing. */
  lemma SubmitClears(form: FormData)
    ensures WellFormed(Submitted(form))
    ensures forall k :: k in FieldNames ==> Submitted(form)[k] == ""
    ensures Submitted(Submitted(form)) == Submitted(form)
  {
  }

  // ---------------------------------------------------------------------
  // The contact component

  class Contact {
    var formData: FormData

    predicate Valid()
      reads this
    {
      WellFormed(formData)
    }

    constructor ()
      ensures Valid() && formData == EmptyForm
    {
      formData := EmptyForm;
    }

    /** The change handler shared by the four inputs; `target` is the
        name attribute of the input that fired. */
    method HandleChange(target: string, value: string)
      requires Valid() && target in FieldNames
      modifies this
      ensures Valid() && formData == Changed(old(formData), target, value)
    {
      formData := formData[target := value];
    }

    method HandleSubmit()
      requires Valid()
      modifies this
      ensures Valid() && formData == Submitted(old(formData))
    {
      formData := map["name" := "", "email" := "", "subject" := "", "message" := ""];
    }
  }
}
