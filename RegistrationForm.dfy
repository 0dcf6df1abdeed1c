/**
 * The client side of the workshop registration: the form component's three pieces of
 * state (the five text fields, the chosen payment screenshot and the `isSubmitting` flag),
 * its change handlers, and its submit handler, which sends one multipart POST request and
 * settles on the response.
 *
 * The network is a parameter: the submit handler is split at its `await` into
 * `HandleSubmit` (everything before the request leaves) and `Settle` (everything after the
 * response, or the failure, arrives), so that the state while the request is outstanding
 * can be observed.
 */
module RegistrationForm {
  import opened Wrappers

  /** The five text fields, in the order the initial state object declares them. */
  datatype Field = FullName | Email | Phone | College | Experience

  /** The key of each field in the state object, which is also its input's `name`. */
  function Key(f: Field): string {
    match f
    case FullName => "fullName"
    case Email => "email"
    case Phone => "phone"
    case College => "college"
    case Experience => "experience"
  }

  /** Key order of the state object; every update keeps it (spread, then an existing key). */
  const FieldOrder: seq<Field> := [FullName, Email, Phone, College, Experience]

  /** The multipart part name the server expects the screenshot under. */
  const ImageField: string := "image"

  /** The largest screenshot, in bytes, that the file handler accepts. */
  const MaxFileSize: nat := 5 * 1024 * 1024

  datatype FormData = FormData(fullName: string, email: string, phone: string,
                               college: string, experience: string)
  {
    function Get(f: Field): string {
      match f
      case FullName => fullName
      case Email => email
      case Phone => phone
      case College => college
      case Experience => experience
    }

    /** `{...prev, [name]: value}`: the field named by the event takes the new value. */
    function With(f: Field, v: string): (r: FormData)
      ensures r.Get(f) == v
      ensures forall g :: g != f ==> r.Get(g) == Get(g)
    {
      match f
      case FullName => this.(fullName := v)
      case Email => this.(email := v)
      case Phone => this.(phone := v)
      case College => this.(college := v)
      case Experience => this.(experience := v)
    }
  }

  /** The state object the component starts with and resets to after a registration. */
  const InitialFormData: FormData := FormData("", "", "", "", "beginner")

  /** A chosen file, as far as the form looks at it. */
  datatype File = File(name: string, size: nat)

  /** One part of a multipart body. */
  datatype Part = FilePart(name: string, file: File) | TextPart(name: string, value: string)

  /**
   * `Object.entries(formData)`: the key/value pairs in key order. There is exactly one pair
   * per field, under that field's key and with its value, and no key appears twice.
   */
  function Entries(d: FormData): (es: seq<(string, string)>)
    ensures |es| == |FieldOrder|
    ensures forall f: Field :: (Key(f), d.Get(f)) in es
    ensures forall i, j :: 0 <= i < j < |es| ==> es[i].0 != es[j].0
  {
    [(Key(FullName), d.fullName), (Key(Email), d.email), (Key(Phone), d.phone),
     (Key(College), d.college), (Key(Experience), d.experience)]
  }

  /** The body the submit handler sends: the image first, then one text part per field, in key order. */
  ghost predicate IsRegistrationBody(body: seq<Part>, file: File, d: FormData) {
    && |body| == 1 + |FieldOrder|
    && body[0] == FilePart(ImageField, file)
    && forall j :: 1 <= j < |body| ==> body[j] == TextPart(Key(FieldOrder[j - 1]), d.Get(FieldOrder[j - 1]))
  }

  /** Builds the request body: `form.append("image", file)`, then one append per entry. */
  method BuildBody(file: File, d: FormData) returns (body: seq<Part>)
    ensures IsRegistrationBody(body, file, d)
  {
    body := [FilePart(ImageField, file)];
    var entries := Entries(d);
    for i := 0 to |entries|
      invariant |body| == i + 1
      invariant body[0] == FilePart(ImageField, file)
      invariant forall j :: 1 <= j < |body| ==> body[j] == TextPart(entries[j - 1].0, entries[j - 1].1)
    {
      body := body + [TextPart(entries[i].0, entries[i].1)];
    }
  }

  /** Two bodies that both satisfy the description are the same body. */
  lemma {:induction false} RegistrationBodyUnique(b1: seq<Part>, b2: seq<Part>, file: File, d: FormData)
    requires IsRegistrationBody(b1, file, d) && IsRegistrationBody(b2, file, d)
    ensures b1 == b2
  {
    assert forall j :: 0 <= j < |b1| ==> b1[j] == b2[j] by {
      forall j | 0 <= j < |b1| ensures b1[j] == b2[j] {
        if j > 0 {
          assert b1[j] == TextPart(Key(FieldOrder[j - 1]), d.Get(FieldOrder[j - 1]));
        }
      }
    }
  }

  /** How the request ended: a response with its HTTP status, or a thrown error (network failure). */
  datatype FetchOutcome = Responded(status: int) | Threw

  /** `Response.ok`: the status is in the range 200 to 299. */
  predicate ResponseOk(status: int) {
    200 <= status <= 299
  }

  /** The outcome that takes the success branch: no throw, and `res.ok`. */
  predicate Succeeded(outcome: FetchOutcome) {
    outcome.Responded? && ResponseOk(outcome.status)
  }

  /** The kind of notification (toast) a handler raises; its wording is not modelled. */
  datatype Notice = Silent | FileTooLarge | ScreenshotRequired | Registered | SubmitFailed

  class Form {
    var formData: FormData
    var paymentFile: Option<File>
    var isSubmitting: bool

    /** A held screenshot never exceeds the size limit. */
    ghost predicate Valid()
      reads this
    {
      paymentFile.Some? ==> paymentFile.value.size <= MaxFileSize
    }

    constructor ()
      ensures Valid()
      ensures formData == InitialFormData && paymentFile == None && !isSubmitting
    {
      formData := InitialFormData;
      paymentFile := None;
      isSubmitting := false;
    }

    /** handleInputChange: replaces the field the event names and nothing else. */
    method HandleInputChange(f: Field, value: string)
      requires Valid()
      modifies this`formData
      ensures Valid()
      ensures formData == old(formData).With(f, value)
      ensures formData.Get(f) == value
      ensures forall g :: g != f ==> formData.Get(g) == old(formData.Get(g))
    {
      formData := formData.With(f, value);
    }

    /**
     * handleFileChange, given the first selected file if there is one: no file changes
     * nothing; a file over the limit is refused with a notice; any other file is held.
     */
    method HandleFileChange(selected: Option<File>) returns (notice: Notice)
      requires Valid()
      modifies this`paymentFile
      ensures Valid()
      ensures selected.None? ==> paymentFile == old(paymentFile) && notice == Silent
      ensures selected.Some? && selected.value.size > MaxFileSize ==>
                paymentFile == old(paymentFile) && notice == FileTooLarge
      ensures selected.Some? && selected.value.size <= MaxFileSize ==>
                paymentFile == selected && notice == Silent
    {
      notice := Silent;
      if selected.Some? {
        var file := selected.value;
        if file.size > MaxFileSize {
          notice := FileTooLarge;
          return;
        }
        paymentFile := Some(file);
      }
    }

    /**
     * handleSubmit up to its `await`: with no screenshot, a notice and no request;
     * otherwise `isSubmitting` goes up and the request body is built from the current state.
     */
    method HandleSubmit() returns (request: Option<seq<Part>>, notice: Notice)
      requires Valid()
      modifies this`isSubmitting
      ensures Valid()
      ensures formData == old(formData) && paymentFile == old(paymentFile)
      ensures paymentFile.None? ==>
                request.None? && notice == ScreenshotRequired && isSubmitting == old(isSubmitting)
      ensures paymentFile.Some? ==>
                && request.Some? && IsRegistrationBody(request.value, paymentFile.value, formData)
                && notice == Silent && isSubmitting
    {
      if paymentFile.None? {
        return None, ScreenshotRequired;
      }
      isSubmitting := true;
      var body := BuildBody(paymentFile.value, formData);
      request, notice := Some(body), Silent;
    }

    /**
     * handleSubmit after its `await`: on an ok response the fields reset and the file is
     * dropped; on a non-ok response or a thrown error nothing changes but the notice; in
     * every case the `finally` clears `isSubmitting`.
     */
    method Settle(outcome: FetchOutcome) returns (notice: Notice)
      requires Valid()
      modifies this
      ensures Valid()
      ensures !isSubmitting
      ensures Succeeded(outcome) ==>
                formData == InitialFormData && paymentFile == None && notice == Registered
      ensures !Succeeded(outcome) ==>
                formData == old(formData) && paymentFile == old(paymentFile) && notice == SubmitFailed
    {
      if Succeeded(outcome) {
        notice := Registered;
        formData := InitialFormData;
        paymentFile := None;
      } else {
        notice := SubmitFailed;
      }
      isSubmitting := false;
    }

    /** The submit button is disabled while a submission is outstanding. */
    predicate SubmitEnabled()
      reads this
    {
      !isSubmitting
    }

    /**
     * A press of the submit button: a disabled button dispatches nothing, so while a
     * request is outstanding no second request is built.
     */
    method PressSubmit() returns (request: Option<seq<Part>>, notice: Notice)
      requires Valid()
      modifies this`isSubmitting
      ensures Valid()
      ensures formData == old(formData) && paymentFile == old(paymentFile)
      ensures old(isSubmitting) ==> request.None? && notice == Silent && isSubmitting
      ensures !old(isSubmitting) && paymentFile.Some? ==>
                request.Some? && IsRegistrationBody(request.value, paymentFile.value, formData) && isSubmitting
      ensures !old(isSubmitting) && paymentFile.None? ==>
                request.None? && notice == ScreenshotRequired && !isSubmitting
    {
      if !SubmitEnabled() {
        return None, Silent;
      }
      request, notice := HandleSubmit();
    }
  }

  /** One full round from a fresh form: choose fields and a file, submit, receive `status`. */
  method SubmitOnce(name: string, file: File, status: int) returns (form: Form, sent: Option<seq<Part>>)
    requires file.size <= MaxFileSize
    ensures sent.Some? && IsRegistrationBody(sent.value, file, InitialFormData.With(FullName, name))
    ensures !form.isSubmitting
    ensures ResponseOk(status) ==> form.formData == InitialFormData && form.paymentFile == None
    ensures !ResponseOk(status) ==>
              form.formData == InitialFormData.With(FullName, name) && form.paymentFile == Some(file)
  {
    form := new Form();
    form.HandleInputChange(FullName, name);
    var _ := form.HandleFileChange(Some(file));
    var notice;
    sent, notice := form.PressSubmit();
    notice := form.Settle(Responded(status));
  }
}
