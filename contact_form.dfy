/**
  The contact form's submit handler (scripts.js, "CONTACT FORM VALIDATION").
  Each of the three inputs is checked on every submission; a failing input
  gets its error text and `aria-invalid="true"`, a passing one has both
  cleared. Then the submission is blocked, handed to the form host, or
  simulated locally.
 */
module ContactForm {
  import opened Wrappers
  import opened Text
  import opened Email

  const NameError := "Please enter your name."
  const EmailError := "Please enter a valid email."
  const MessageError := "Please include a short message (10+ chars)."
  const SendingStatus := "Sending..."
  const ThanksStatus := "Thanks! Your message has been sent."

  /**
    One input of the form together with what the handler touches around it:
    its current and default value, the text of the field's `.error` element
    (None when the field has no such element) and whether the input carries
    `aria-invalid="true"`.
   */
  datatype Field = Field(value: string, defaultValue: string, error: Option<string>, ariaInvalid: bool)

  /** The name rule: the trimmed value is non-empty, that is, the value holds a non-whitespace character. */
  function NameValid(v: string): (ok: bool)
    ensures ok <==> exists k :: 0 <= k < |v| && !IsSpace(v[k])
  {
    Trim(v) != []
  }

  /** The e-mail rule: the trimmed value is non-empty and matches `^\S+@\S+\.\S+$`. */
  function EmailValid(v: string): (ok: bool)
    ensures ok <==> Shaped(Trim(v))
  {
    var t := Trim(v);
    MatchesIffShaped(t);
    t != [] && Matches(t)
  }

  /**
    The message rule: the trimmed value is non-empty and at least 10 long,
    that is, some non-whitespace character stands at least 9 places after
    another one.
   */
  function MessageValid(v: string): (ok: bool)
    ensures ok <==> exists i, k :: 0 <= i && i + 9 <= k < |v| && !IsSpace(v[i]) && !IsSpace(v[k])
  {
    var t := Trim(v);
    MessageSpan(v);
    !(t == [] || |t| < 10)
  }

  /** The trimmed value is at least 10 long exactly when two non-whitespace characters stand 9 or more apart. */
  lemma MessageSpan(v: string)
    ensures |Trim(v)| >= 10 <==> exists i, k :: 0 <= i && i + 9 <= k < |v| && !IsSpace(v[i]) && !IsSpace(v[k])
  {
    var t := Trim(v);
    TrimBounds(v);
    var p, q := TrimStart(v), TrimEnd(v);
    if |t| >= 10 {
      assert v[p] == t[0] && v[q - 1] == t[|t| - 1];
    }
  }

  /** setError: the error text (if the field has an error element) becomes `msg`; the input becomes aria-invalid. */
  function SetError(f: Field, msg: string): Field {
    f.(error := if f.error.Some? then Some(msg) else None, ariaInvalid := true)
  }

  /** clearError: the error text (if any) becomes empty; aria-invalid is removed. */
  function ClearError(f: Field): Field {
    f.(error := if f.error.Some? then Some("") else None, ariaInvalid := false)
  }

  /** form.reset(): the input's value returns to its default value. */
  function Reset(f: Field): Field {
    f.(value := f.defaultValue)
  }

  /** The field after its rule gave `ok`: clearError when it passed, setError with `msg` when it failed. */
  function Judge(f: Field, ok: bool, msg: string): Field {
    if ok then ClearError(f) else SetError(f, msg)
  }

  /**
    What judging does to a field: aria-invalid states exactly the failure,
    the error element (if there is one) shows `msg` on failure and nothing on
    success, and the value is left as it was.
   */
  lemma JudgeEffects(f: Field, ok: bool, msg: string)
    ensures Judge(f, ok, msg).ariaInvalid == !ok
    ensures Judge(f, ok, msg).error == (if f.error.None? then None else if ok then Some("") else Some(msg))
    ensures Judge(f, ok, msg).value == f.value && Judge(f, ok, msg).defaultValue == f.defaultValue
  {
  }

  class ContactForm {
    var name: Field
    var email: Field
    var message: Field
    /** The text of the `#form-status` element. */
    var status: string
    /** The form carries the `data-netlify` attribute: a valid submission is posted to the form host. */
    const netlify: bool

    constructor (name: Field, email: Field, message: Field, status: string, netlify: bool)
      ensures this.name == name && this.email == email && this.message == message
      ensures this.status == status && this.netlify == netlify
    {
      this.name, this.email, this.message := name, email, message;
      this.status, this.netlify := status, netlify;
    }

    /** All three rules hold of the current values. */
    predicate Acceptable()
      reads this
    {
      NameValid(name.value) && EmailValid(email.value) && MessageValid(message.value)
    }

    /**
      The submit handler. Every field is judged, whatever the others give;
      `prevented` says whether the browser's own submission is cancelled.
     */
    method Submit() returns (prevented: bool)
      modifies this
      ensures var reset := old(Acceptable()) && !netlify;
        && name == Settled(old(name), NameValid(old(name.value)), NameError, reset)
        && email == Settled(old(email), EmailValid(old(email.value)), EmailError, reset)
        && message == Settled(old(message), MessageValid(old(message.value)), MessageError, reset)
      ensures prevented <==> !old(Acceptable()) || !netlify
      ensures status == if !old(Acceptable()) then "" else if netlify then SendingStatus else ThanksStatus
    {
      var nameOk, emailOk, messageOk := NameValid(name.value), EmailValid(email.value), MessageValid(message.value);
      var valid := true;

      if !nameOk {
        name := SetError(name, NameError);
        valid := false;
      } else {
        name := ClearError(name);
      }

      if !emailOk {
        email := SetError(email, EmailError);
        valid := false;
      } else {
        email := ClearError(email);
      }

      if !messageOk {
        message := SetError(message, MessageError);
        valid := false;
      } else {
        message := ClearError(message);
      }

      if !valid {
        prevented := true;
        status := "";
        return;
      }

      if netlify {
        status := SendingStatus;
        prevented := false;
      } else {
        prevented := true;
        status := ThanksStatus;
        name, email, message := Reset(name), Reset(email), Reset(message);
      }
    }
  }

  /** A field at the end of a submission: judged, then reset to its default if the form was reset. */
  function Settled(f: Field, ok: bool, msg: string, reset: bool): Field {
    if reset then Reset(Judge(f, ok, msg)) else Judge(f, ok, msg)
  }

  /** A field as the page first shows it: typed value `v`, empty default, an empty error element. */
  function Typed(v: string): Field {
    Field(v, "", Some(""), false)
  }

  /** A value with no whitespace at either end is judged as it stands. */
  lemma EmailUntrimmed(v: string)
    requires v == [] || (!IsSpace(v[0]) && !IsSpace(v[|v| - 1]))
    ensures EmailValid(v) <==> Shaped(v)
  {
    assert [] + v + [] == v;
    TrimOf([], v, []);
  }

  lemma AddressValid()
    ensures EmailValid("a@b.com")
  {
    assert "a@b.com" == "a" + "@" + "b" + "." + "com";
    assert Word("a") && Word("b") && Word("com");
    EmailUntrimmed("a@b.com");
  }

  lemma TenCharsValid()
    ensures MessageValid("1234567890")
  {
    assert "1234567890"[0] == '1' && "1234567890"[9] == '0';
  }

  /** Rejected addresses: "foo" (no '@'), "foo@bar" (no '.') and "@bar.com" (nothing before the '@'). */
  lemma EmailExamples()
    ensures !EmailValid("foo") && !EmailValid("foo@bar") && !EmailValid("@bar.com")
  {
    EmailUntrimmed("foo");
    RejectsNoAt();
    EmailUntrimmed("foo@bar");
    RejectsNoDot();
    EmailUntrimmed("@bar.com");
    RejectsNoLocalPart();
  }

  /** "foo@bar.com" passes the e-mail rule, with or without surrounding whitespace. */
  lemma PlainAddressValid()
    ensures EmailValid("foo@bar.com") && EmailValid(" foo@bar.com\t")
  {
    EmailUntrimmed("foo@bar.com");
    AcceptsPlainAddress();
    assert " " + "foo@bar.com" + "\t" == " foo@bar.com\t";
    TrimOf(" ", "foo@bar.com", "\t");
  }

  /** The message rule is the trimmed length check: at least 10 characters after trimming. */
  lemma MessageIffLength(v: string)
    ensures MessageValid(v) <==> |Trim(v)| >= 10
  {
    MessageSpan(v);
  }

  /** Message boundary: a trimmed length of 9 fails, 10 passes; whitespace around the text does not count. */
  lemma MessageBoundary()
    ensures !MessageValid("  123456789 ")
    ensures MessageValid(" 1234567890\n")
  {
    NineCharsPadded();
    TenCharsPadded();
  }

  lemma NineCharsPadded()
    ensures Trim("  123456789 ") == "123456789"
  {
    assert "  " + "123456789" + " " == "  123456789 ";
    TrimOf("  ", "123456789", " ");
  }

  lemma TenCharsPadded()
    ensures Trim(" 1234567890\n") == "1234567890"
  {
    assert " " + "1234567890" + "\n" == " 1234567890\n";
    TrimOf(" ", "1234567890", "\n");
  }

  /** A blank name fails alone: only the name shows an error, and the submission is blocked with no status. */
  method BlankNameScenario() returns (prevented: bool, status: string, errors: seq<Option<string>>, invalid: seq<bool>)
    ensures prevented && status == ""
    ensures errors == [Some(NameError), Some(""), Some("")]
    ensures invalid == [true, false, false]
  {
    AddressValid();
    TenCharsValid();
    var form := new ContactForm(Typed(""), Typed("a@b.com"), Typed("1234567890"), "", false);
    prevented := form.Submit();
    status := form.status;
    errors := [form.name.error, form.email.error, form.message.error];
    invalid := [form.name.ariaInvalid, form.email.ariaInvalid, form.message.ariaInvalid];
  }

  /** A valid submission on a form marked for the form host is let through with status "Sending...". */
  method HandOffScenario() returns (prevented: bool, status: string)
    ensures !prevented && status == SendingStatus
  {
    AddressValid();
    TenCharsValid();
    var form := new ContactForm(Typed("Ada"), Typed("a@b.com"), Typed("1234567890"), "", true);
    prevented := form.Submit();
    status := form.status;
  }

  /** A valid submission without the marker is cancelled, thanked, and the inputs are emptied. */
  method SimulatedScenario() returns (prevented: bool, status: string, values: seq<string>)
    ensures prevented && status == ThanksStatus && values == ["", "", ""]
  {
    AddressValid();
    TenCharsValid();
    var form := new ContactForm(Typed("Ada"), Typed("a@b.com"), Typed("1234567890"), "old", false);
    prevented := form.Submit();
    status := form.status;
    values := [form.name.value, form.email.value, form.message.value];
  }
}
