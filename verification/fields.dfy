/**
 * The part of a form field that `FormValidation` relies on. The field's own
 * code (`Field`) is not part of this model: a field here is the control it
 * wraps, its error and success message maps, and the log of messages it has
 * appended to the page.
 */
module FormFields {
  import opened FormMessages

  /** A form control as the validation code reads it; all of it is input to the model. */
  datatype Control = Control(
    id: string,
    valid: bool,                       // `element.checkValidity()`
    validity: seq<(string, bool)>,     // the properties of `element.validity`, in enumeration order
    validationMessage: string)

  datatype Kind = Success | Error

  /** One `append()` of a message: the map it came from and the message's key. */
  datatype Feedback = Feedback(kind: Kind, key: string)

  class Field {
    /** `getElement()`. */
    const control: Control
    /** `errorMessages()`. */
    const errors: Messages
    /** `successMessages()`. */
    const successes: Messages
    /** The messages appended since the last `clearAppended()`, oldest first. */
    var appended: seq<Feedback>
    /** How many times `clearAppended()` has run. */
    ghost var clears: nat

    constructor(control: Control, errors: Messages, successes: Messages)
      ensures this.control == control && this.errors == errors && this.successes == successes
      ensures appended == [] && clears == 0
    {
      this.control := control;
      this.errors := errors;
      this.successes := successes;
      appended := [];
      clears := 0;
    }

    /** A message's `append()`: it joins the field's feedback. */
    method Append(fb: Feedback)
      modifies this
      ensures appended == old(appended) + [fb] && clears == old(clears)
    {
      appended := appended + [fb];
    }

    /** `clearAppended()`: every appended message is taken away. */
    method ClearAppended()
      modifies this
      ensures appended == [] && clears == old(clears) + 1
    {
      appended := [];
      clears := clears + 1;
    }
  }
}
