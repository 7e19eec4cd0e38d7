/** Contact-form validation (src/utils/validation.ts): the emptiness test,
    the e-mail pattern and the per-field error messages. */
module Validation {
  import opened Wrappers
  import opened Text

  /** isEmpty: null, undefined and "" are empty, and so is any string that
      trims to "". */
  function IsEmpty(value: Option<string>): (b: bool)
    ensures b <==> value == None || value.value == [] || Trim(value.value) == []
  {
    match value
    case None => true
    case Some(v) => v == [] || |Trim(v)| == 0
  }

  /** A present value is empty exactly when every character of it is whitespace. */
  lemma IsEmptyIffAllSpace(v: string)
    ensures IsEmpty(Some(v)) <==> forall i :: 0 <= i < |v| ==> IsSpace(v[i])
  {
    TrimEmptyIff(v);
  }

  /** s[lo..hi] is one run of [^\s@]+: non-empty, no whitespace, no '@'. */
  predicate RunBetween(s: string, lo: int, hi: int)
    requires 0 <= lo <= hi <= |s|
  {
    lo < hi && forall i :: lo <= i < hi ==> !IsSpace(s[i]) && s[i] != '@'
  }

  /** isValidEmail: the regular expression ^[^\s@]+@[^\s@]+\.[^\s@]+$,
      read as the ways of cutting the string at an '@' and a later '.' so
      that the three pieces are runs. */
  predicate IsValidEmail(s: string) {
    exists at, dot | 0 <= at < dot < |s| ::
      && s[at] == '@' && s[dot] == '.'
      && RunBetween(s, 0, at) && RunBetween(s, at + 1, dot) && RunBetween(s, dot + 1, |s|)
  }

  /** The shape the pattern accepts, stated without the pattern: no
      whitespace, exactly one '@' with a non-empty part before it, and a '.'
      in the part after it that has text on both sides. */
  ghost predicate EmailShape(s: string) {
    && (forall i :: 0 <= i < |s| ==> !IsSpace(s[i]))
    && exists at | 0 < at < |s| ::
         && s[at] == '@'
         && (forall i :: 0 <= i < |s| && i != at ==> s[i] != '@')
         && exists dot | at + 1 < dot < |s| - 1 :: s[dot] == '.'
  }

  /** The pattern accepts exactly the strings of that shape. */
  lemma IsValidEmailIffShape(s: string)
    ensures IsValidEmail(s) <==> EmailShape(s)
  {
    if IsValidEmail(s) {
      PatternGivesShape(s);
    }
    if EmailShape(s) {
      ShapeGivesPattern(s);
    }
  }

  lemma PatternGivesShape(s: string)
    requires IsValidEmail(s)
    ensures EmailShape(s)
  {
    var at, dot :| 0 <= at < dot < |s| && s[at] == '@' && s[dot] == '.'
      && RunBetween(s, 0, at) && RunBetween(s, at + 1, dot) && RunBetween(s, dot + 1, |s|);
    assert at + 1 < dot < |s| - 1;
    forall i | 0 <= i < |s| ensures !IsSpace(s[i]) && (i != at ==> s[i] != '@') {
      RunsCover(s, at, dot, i);
    }
    assert s[dot] == '.';
  }

  /** Every character of a string cut into three runs at an '@' and a '.'
      is either in a run or one of the two cut characters. */
  lemma RunsCover(s: string, at: int, dot: int, i: int)
    requires 0 <= at < dot < |s| && s[at] == '@' && s[dot] == '.'
    requires RunBetween(s, 0, at) && RunBetween(s, at + 1, dot) && RunBetween(s, dot + 1, |s|)
    requires 0 <= i < |s|
    ensures !IsSpace(s[i]) && (i != at ==> s[i] != '@')
  {
    if i < at {
      assert 0 <= i < at;
    } else if at < i < dot {
      assert at + 1 <= i < dot;
    } else if dot < i {
      assert dot + 1 <= i < |s|;
    }
  }

  lemma ShapeGivesPattern(s: string)
    requires EmailShape(s)
    ensures IsValidEmail(s)
  {
    var at :| 0 < at < |s| && s[at] == '@' && (forall i :: 0 <= i < |s| && i != at ==> s[i] != '@')
              && exists dot | at + 1 < dot < |s| - 1 :: s[dot] == '.';
    var dot :| at + 1 < dot < |s| - 1 && s[dot] == '.';
    assert RunBetween(s, 0, at);
    assert RunBetween(s, at + 1, dot);
    assert RunBetween(s, dot + 1, |s|);
  }

  /** The form fields, all present strings. */
  datatype ContactForm = ContactForm(name: string, email: string, subject: string, message: string)

  const NameRequired := "El nombre es requerido"
  const EmailRequired := "El email es requerido"
  const EmailInvalid := "El email no es válido"
  const SubjectRequired := "El asunto es requerido"
  const MessageRequired := "El mensaje es requerido"
  const MessageTooShort := "El mensaje debe tener al menos 10 caracteres"

  /** The keys of the error record: the form's field names. */
  datatype Field = Name | Email | Subject | Message

  /** validateContactForm: fills the error record field by field and reports
      whether it stayed empty. */
  method ValidateContactForm(data: ContactForm) returns (isValid: bool, errors: map<Field, string>)
    ensures isValid <==> |errors| == 0
    ensures (Name in errors <==> IsEmpty(Some(data.name)))
    ensures Name in errors ==> errors[Name] == NameRequired
    ensures (Subject in errors <==> IsEmpty(Some(data.subject)))
    ensures Subject in errors ==> errors[Subject] == SubjectRequired
    ensures IsEmpty(Some(data.email)) ==> Email in errors && errors[Email] == EmailRequired
    ensures !IsEmpty(Some(data.email)) ==>
              (Email in errors <==> !IsValidEmail(data.email))
              && (Email in errors ==> errors[Email] == EmailInvalid)
    ensures IsEmpty(Some(data.message)) ==> Message in errors && errors[Message] == MessageRequired
    ensures !IsEmpty(Some(data.message)) ==>
              (Message in errors <==> |Trim(data.message)| < 10)
              && (Message in errors ==> errors[Message] == MessageTooShort)
  {
    var nameEmpty, emailEmpty := IsEmpty(Some(data.name)), IsEmpty(Some(data.email));
    var emailValid := IsValidEmail(data.email);
    var subjectEmpty, messageEmpty := IsEmpty(Some(data.subject)), IsEmpty(Some(data.message));
    var messageShort := |Trim(data.message)| < 10;
    isValid, errors := CollectErrors(nameEmpty, emailEmpty, emailValid, subjectEmpty, messageEmpty, messageShort);
  }

  /** The rules of validateContactForm applied in order to the outcomes of
      its tests; the e-mail pattern and the message length only matter for a
      field that is not empty. */
  method CollectErrors(nameEmpty: bool, emailEmpty: bool, emailValid: bool,
                       subjectEmpty: bool, messageEmpty: bool, messageShort: bool)
    returns (isValid: bool, errors: map<Field, string>)
    ensures isValid <==> |errors| == 0
    ensures (Name in errors <==> nameEmpty) && (Name in errors ==> errors[Name] == NameRequired)
    ensures (Subject in errors <==> subjectEmpty) && (Subject in errors ==> errors[Subject] == SubjectRequired)
    ensures emailEmpty ==> Email in errors && errors[Email] == EmailRequired
    ensures !emailEmpty ==> (Email in errors <==> !emailValid) && (Email in errors ==> errors[Email] == EmailInvalid)
    ensures messageEmpty ==> Message in errors && errors[Message] == MessageRequired
    ensures !messageEmpty ==>
              (Message in errors <==> messageShort) && (Message in errors ==> errors[Message] == MessageTooShort)
  {
    errors := map[];
    if nameEmpty {
      errors := errors[Name := NameRequired];
    }
    if emailEmpty {
      errors := errors[Email := EmailRequired];
    } else if !emailValid {
      errors := errors[Email := EmailInvalid];
    }
    if subjectEmpty {
      errors := errors[Subject := SubjectRequired];
    }
    if messageEmpty {
      errors := errors[Message := MessageRequired];
    } else if messageShort {
      errors := errors[Message := MessageTooShort];
    }
    isValid := |errors| == 0;
  }
}
