/** The contact page of js/contact.js: its e-mail and phone validators, the checks
    the form runs on submit and when a field loses focus, the newsletter box, and the
    filter that keeps a phone box to phone characters. */
module Contact {
  import opened Seqs
  import opened Text
  import opened Patterns
  import opened Notices

  // ================================================================ validators

  /** `validateEmail`: the address pattern, tested on the lower-cased text. */
  predicate ValidateEmail(email: string) {
    EmailRegex(Lower(email))
  }

  /** An address passes exactly when it has no white space, exactly one '@' with
      something before it, and after the '@' a '.' that is neither first nor last. */
  lemma ValidateEmailSpec(email: string)
    ensures ValidateEmail(email) <==> EmailShape(email)
  {
    EmailRegexIgnoresCase(email);
    EmailRegexIff(email);
  }

  predicate NotSeparator(c: char) {
    !IsPhoneSeparator(c)
  }

  /** `validatePhone`: white space, '-', '(' and ')' are removed, and what is left
      must be an optional '+' and then ten or more digits. */
  predicate ValidatePhone(phone: string) {
    PlusDigitsRegex(KeepChars(phone, NotSeparator))
  }

  /** The number of digits in `s`. */
  function DigitCount(s: string): nat
    decreases |s|
  {
    if s == [] then 0 else (if IsDigit(s[0]) then 1 else 0) + DigitCount(s[1..])
  }

  /** Only phone characters, and every character ahead of a '+' is a separator: so
      there is at most one '+', and no digit comes before it. */
  predicate PhoneLayout(s: string) {
    && (forall i :: 0 <= i < |s| ==> IsPhoneChar(s[i]))
    && (forall i, j :: 0 <= i < j < |s| && s[j] == '+' ==> IsPhoneSeparator(s[i]))
  }

  /** The numbers `validatePhone` accepts, described on the text as typed: the
      layout above with at least ten digits. */
  predicate PhoneShape(s: string) {
    PhoneLayout(s) && DigitCount(s) >= 10
  }

  /** A phone number passes exactly when it has the shape above; in particular it
      has at most one '+', and no digit ahead of its '+'. */
  lemma ValidatePhoneSpec(phone: string)
    ensures ValidatePhone(phone) <==> PhoneShape(phone)
    ensures ValidatePhone(phone) ==>
              forall i, j :: 0 <= i < j < |phone| ==> !(phone[i] == '+' && phone[j] == '+')
    ensures ValidatePhone(phone) ==>
              forall i, j :: 0 <= i < j < |phone| && IsDigit(phone[i]) ==> phone[j] != '+'
  {
    var cleaned := KeepChars(phone, NotSeparator);
    assert cleaned == Filter(phone, NotSeparator);
    RegexIsPlusDigits(cleaned);
    LayoutOfCleaned(phone);
    DigitsSurviveSeparators(phone);
  }

  /** Digits, with at most a '+' in front. */
  predicate PlusDigitsForm(c: string) {
    forall i :: 0 <= i < |c| ==> IsDigit(c[i]) || (i == 0 && c[i] == '+')
  }

  /** The phone pattern is a '+'-led digit run with at least ten digits. */
  lemma RegexIsPlusDigits(c: string)
    ensures PlusDigitsRegex(c) <==> PlusDigitsForm(c) && DigitCount(c) >= 10
  {
    if c != [] && c[0] == '+' {
      if PlusDigitsForm(c) {
        AllDigitsCount(c[1..]);
        assert DigitCount(c) == |c| - 1;
      }
    } else if PlusDigitsForm(c) {
      AllDigitsCount(c);
    }
  }

  /** A text of digits and separators only. */
  predicate DigitsOrSeparators(s: string) {
    forall i :: 0 <= i < |s| ==> IsDigit(s[i]) || IsPhoneSeparator(s[i])
  }

  /** Removing the separators leaves only digits exactly when the text holds nothing
      but digits and separators. */
  lemma {:induction false} DigitsOfCleaned(s: string)
    ensures AllDigits(Filter(s, NotSeparator)) <==> DigitsOrSeparators(s)
    decreases |s|
  {
    if s != [] {
      var t := s[1..];
      var rest := Filter(t, NotSeparator);
      DigitsOfCleaned(t);
      assert forall i :: 0 <= i < |t| ==> t[i] == s[i + 1];
      if NotSeparator(s[0]) {
        assert Filter(s, NotSeparator) == [s[0]] + rest;
        assert forall i :: 0 <= i < |rest| ==> ([s[0]] + rest)[i + 1] == rest[i];
      } else {
        assert Filter(s, NotSeparator) == rest;
      }
    }
  }

  /** Removing the separators leaves a '+'-led digit run exactly when the text has
      the phone layout. */
  lemma {:induction false} LayoutOfCleaned(s: string)
    ensures PlusDigitsForm(Filter(s, NotSeparator)) <==> PhoneLayout(s)
    decreases |s|
  {
    if s != [] {
      var x := s[0];
      var t := s[1..];
      var rest := Filter(t, NotSeparator);
      assert forall i :: 0 <= i < |t| ==> t[i] == s[i + 1];
      if IsPhoneSeparator(x) {
        assert Filter(s, NotSeparator) == rest;
        LayoutOfCleaned(t);
        SeparatorLayout(s);
      } else {
        assert Filter(s, NotSeparator) == [x] + rest;
        assert forall i :: 0 <= i < |rest| ==> ([x] + rest)[i + 1] == rest[i];
        if IsDigit(x) || x == '+' {
          DigitsOfCleaned(t);
          LeadLayout(s);
        } else {
          assert !PlusDigitsForm([x] + rest) by {
            assert ([x] + rest)[0] == x;
          }
        }
      }
    }
  }

  /** A leading separator does not change the layout. */
  lemma SeparatorLayout(s: string)
    requires s != [] && IsPhoneSeparator(s[0])
    ensures PhoneLayout(s) <==> PhoneLayout(s[1..])
  {
    var t := s[1..];
    assert forall i :: 0 <= i < |t| ==> t[i] == s[i + 1];
    if PhoneLayout(t) {
      forall i, j | 0 <= i < j < |s| && s[j] == '+'
        ensures IsPhoneSeparator(s[i])
      {
        if i > 0 {
          assert t[i - 1] == s[i] && t[j - 1] == s[j];
        }
      }
    }
    if PhoneLayout(s) {
      forall i, j | 0 <= i < j < |t| && t[j] == '+'
        ensures IsPhoneSeparator(t[i])
      {
        assert s[j + 1] == '+';
      }
    }
  }

  /** After a leading digit or '+', the layout asks for digits and separators only. */
  lemma LeadLayout(s: string)
    requires s != [] && (IsDigit(s[0]) || s[0] == '+')
    ensures PhoneLayout(s) <==> DigitsOrSeparators(s[1..])
  {
    var t := s[1..];
    assert forall i :: 0 <= i < |t| ==> t[i] == s[i + 1];
    if PhoneLayout(s) {
      forall i | 0 <= i < |t|
        ensures IsDigit(t[i]) || IsPhoneSeparator(t[i])
      {
        assert IsPhoneChar(s[i + 1]) && !IsPhoneSeparator(s[0]);
      }
    }
  }

  lemma {:induction false} DigitsSurviveSeparators(s: string)
    ensures DigitCount(KeepChars(s, NotSeparator)) == DigitCount(s)
    decreases |s|
  {
    if s != [] {
      DigitsSurviveSeparators(s[1..]);
      var rest := Filter(s[1..], NotSeparator);
      if NotSeparator(s[0]) {
        assert Filter(s, NotSeparator) == [s[0]] + rest;
        assert ([s[0]] + rest)[1..] == rest;
      } else {
        assert Filter(s, NotSeparator) == rest;
      }
    }
  }

  /** In a string the phone pattern accepts, all but an optional leading '+' are digits. */
  lemma DigitCountOfDigits(cleaned: string)
    requires PlusDigitsRegex(cleaned)
    ensures DigitCount(cleaned) >= 10
  {
    if |cleaned| >= 11 && cleaned[0] == '+' && AllDigits(cleaned[1..]) {
      AllDigitsCount(cleaned[1..]);
    } else {
      AllDigitsCount(cleaned);
    }
  }

  lemma {:induction false} AllDigitsCount(s: string)
    requires AllDigits(s)
    ensures DigitCount(s) == |s|
    decreases |s|
  {
    if s != [] {
      AllDigitsCount(s[1..]);
    }
  }

  /** The phone box's input filter: every character other than a digit, white space,
      '-', '(', ')' or '+' is deleted. */
  function FilterPhoneInput(value: string): string {
    KeepChars(value, IsPhoneChar)
  }

  /** The filter keeps exactly the phone characters, in order, and filtering again
      changes nothing. */
  lemma FilterPhoneInputSpec(value: string)
    ensures IsSubsequence(FilterPhoneInput(value), value)
    ensures forall c :: multiset(FilterPhoneInput(value))[c] == if IsPhoneChar(c) then multiset(value)[c] else 0
    ensures FilterPhoneInput(FilterPhoneInput(value)) == FilterPhoneInput(value)
  {
    FilterIsExactSelection(value, IsPhoneChar);
    FilterIdempotent(value, IsPhoneChar);
  }

  // ================================================================ the contact form

  datatype Field = Name | Email | Phone | Message

  /** One error the form shows under a box. */
  datatype FieldError = FieldError(field: Field, message: string)

  /** What the form hands to `submitContactForm`: the four trimmed values. */
  datatype Submission = Submission(name: string, email: string, phone: string, message: string)

  /** The check the submit handler runs on one box's raw value: a blank box is
      required; otherwise a name needs two characters, a message ten, and the e-mail
      and phone validators are given the value as typed, untrimmed. */
  function SubmitError(field: Field, raw: string): Option<string> {
    var value := Trim(raw);
    match field
    case Name =>
      if value == [] then Some("Name is required")
      else if |value| < 2 then Some("Name must be at least 2 characters")
      else None
    case Email =>
      if value == [] then Some("Email is required")
      else if !ValidateEmail(raw) then Some("Please enter a valid email address")
      else None
    case Phone =>
      if value == [] then Some("Phone number is required")
      else if !ValidatePhone(raw) then Some("Please enter a valid phone number (at least 10 digits)")
      else None
    case Message =>
      if value == [] then Some("Message is required")
      else if |value| < 10 then Some("Message must be at least 10 characters")
      else None
  }

  function ErrorsOf(field: Field, raw: string): (r: seq<FieldError>)
    ensures r == [] <==> SubmitError(field, raw).None?
  {
    match SubmitError(field, raw)
    case None => []
    case Some(text) => [FieldError(field, text)]
  }

  /** One box's check on submit: its error, if any, is shown after those already
      shown, and the result says whether the box passed. */
  method CheckBox(field: Field, raw: string, shown: seq<FieldError>)
    returns (errors: seq<FieldError>, passed: bool)
    ensures errors == shown + ErrorsOf(field, raw)
    ensures passed <==> SubmitError(field, raw).None?
  {
    var error := SubmitError(field, raw);
    if error.Some? {
      errors := shown + [FieldError(field, error.value)];
      passed := false;
    } else {
      errors := shown;
      passed := true;
    }
  }

  /** The submit handler: every box is checked, each failing one gets its error, and
      the trimmed values are submitted only when all four pass. */
  method SubmitContactForm(name: string, email: string, phone: string, message: string)
    returns (errors: seq<FieldError>, submitted: Option<Submission>)
    ensures errors == ErrorsOf(Name, name) + ErrorsOf(Email, email) + ErrorsOf(Phone, phone) + ErrorsOf(Message, message)
    ensures submitted.Some? <==>
              SubmitError(Name, name).None? && SubmitError(Email, email).None? &&
              SubmitError(Phone, phone).None? && SubmitError(Message, message).None?
    ensures submitted.Some? ==> submitted.value == Submission(Trim(name), Trim(email), Trim(phone), Trim(message))
    ensures submitted.Some? <==> errors == []
  {
    var isValid := true;
    var passed;
    errors, passed := CheckBox(Name, name, []);
    assert errors == ErrorsOf(Name, name);
    isValid := isValid && passed;
    errors, passed := CheckBox(Email, email, errors);
    isValid := isValid && passed;
    errors, passed := CheckBox(Phone, phone, errors);
    isValid := isValid && passed;
    errors, passed := CheckBox(Message, message, errors);
    isValid := isValid && passed;

    if isValid {
      submitted := Some(Submission(Trim(name), Trim(email), Trim(phone), Trim(message)));
    } else {
      submitted := None;
    }
  }

  /** `validateField` on a box with the given id, when it loses focus: the value is
      trimmed first, the phone message is the short one, and a box with any other id
      passes. The result is whether the box passed and the error it then shows. */
  function ValidateField(id: string, raw: string): (r: (bool, Option<string>))
    ensures r.0 <==> r.1.None?
    ensures id != "name" && id != "email" && id != "phone" && id != "message" ==> r.0
  {
    var value := Trim(raw);
    var error :=
      if id == "name" then
        (if value == [] then Some("Name is required")
         else if |value| < 2 then Some("Name must be at least 2 characters")
         else None)
      else if id == "email" then
        (if value == [] then Some("Email is required")
         else if !ValidateEmail(value) then Some("Please enter a valid email address")
         else None)
      else if id == "phone" then
        (if value == [] then Some("Phone number is required")
         else if !ValidatePhone(value) then Some("Please enter a valid phone number")
         else None)
      else if id == "message" then
        (if value == [] then Some("Message is required")
         else if |value| < 10 then Some("Message must be at least 10 characters")
         else None)
      else None;
    (error.None?, error)
  }

  /** On focus loss each box is judged on its trimmed value: a name passes with two
      characters, a message with ten, an e-mail with the address shape, and a phone
      number with the phone shape. */
  lemma ValidateFieldSpec(raw: string)
    ensures ValidateField("name", raw).0 <==> |Trim(raw)| >= 2
    ensures ValidateField("email", raw).0 <==> EmailShape(Trim(raw))
    ensures ValidateField("phone", raw).0 <==> PhoneShape(Trim(raw))
    ensures ValidateField("message", raw).0 <==> |Trim(raw)| >= 10
  {
    ValidateEmailSpec(Trim(raw));
    ValidatePhoneSpec(Trim(raw));
  }

  /** On focus loss and on submit, a blank box gets the same "is required" error, and
      the name and message boxes give the same verdict with the same message. */
  lemma FieldChecksAgree(raw: string)
    ensures Trim(raw) == [] ==>
              ValidateField("name", raw).1 == SubmitError(Name, raw) &&
              ValidateField("email", raw).1 == SubmitError(Email, raw) &&
              ValidateField("phone", raw).1 == SubmitError(Phone, raw) &&
              ValidateField("message", raw).1 == SubmitError(Message, raw)
    ensures ValidateField("name", raw).1 == SubmitError(Name, raw)
    ensures ValidateField("message", raw).1 == SubmitError(Message, raw)
  {
  }

  lemma TrimPadded()
    ensures Trim(" a@b.co") == "a@b.co"
  {
    var t := "a@b.co";
    assert NoSpace(t);
    assert " a@b.co" == [' '] + t;
    LeadingSpaceTrimmed(t);
  }

  /** Trimming a text that is one space and then a nonempty text without white space
      gives that text. */
  lemma LeadingSpaceTrimmed(t: string)
    requires t != [] && NoSpace(t)
    ensures Trim([' '] + t) == t
  {
    var s := [' '] + t;
    assert IsSpace(s[0]) && s[1] == t[0] && !IsSpace(t[0]);
    assert TrimOffset(s) == 1;
    assert s[|s| - 1] == t[|t| - 1] && !IsSpace(t[|t| - 1]);
    assert s[1..|s|] == t;
  }

  lemma SampleAddressValid()
    ensures ValidateEmail("a@b.co")
  {
    assert Lower("a@b.co") == "a@b.co";
    assert EmailSplit("a@b.co", 1, 3);
  }

  lemma PaddedAddressInvalid()
    ensures !ValidateEmail(" a@b.co")
  {
    ValidateEmailSpec(" a@b.co");
    assert !NoSpace(" a@b.co") by {
      assert IsSpace(" a@b.co"[0]);
    }
  }

  /** The e-mail validator is handed the raw value on submit but the trimmed value on
      focus loss, so an address with a leading space passes when the box loses focus
      and is refused on submit. */
  lemma PaddedEmailRefusedOnlyOnSubmit()
    ensures ValidateField("email", " a@b.co").0
    ensures SubmitError(Email, " a@b.co") == Some("Please enter a valid email address")
  {
    TrimPadded();
    SampleAddressValid();
    PaddedAddressInvalid();
  }

  /** On submit an e-mail box passes exactly when its raw value has the address
      shape; a name box when the trimmed name has two characters; a message box when
      the trimmed message has ten. */
  lemma SubmitErrorSpec(raw: string)
    ensures SubmitError(Email, raw).None? <==> EmailShape(raw)
    ensures SubmitError(Name, raw).None? <==> |Trim(raw)| >= 2
    ensures SubmitError(Message, raw).None? <==> |Trim(raw)| >= 10
    ensures SubmitError(Phone, raw).None? <==> Trim(raw) != [] && PhoneShape(raw)
  {
    ValidateEmailSpec(raw);
    if EmailShape(raw) {
      NoSpaceTrimmed(raw);
    }
    ValidatePhoneSpec(raw);
  }

  /** Trimming leaves a nonempty text without white space as it is. */
  lemma NoSpaceTrimmed(s: string)
    requires s != [] && NoSpace(s)
    ensures Trim(s) == s
  {
    assert !IsSpace(s[0]) && TrimOffset(s) == 0;
    assert !IsSpace(s[|s| - 1]);
    assert s[0..|s|] == s;
  }

  // ================================================================ newsletter

  /** What the newsletter button leaves behind: the notification raised, and the
      content of the e-mail box. */
  datatype NewsletterOutcome = NewsletterOutcome(notice: Option<Notice>, box: Option<string>)

  /** `subscribeNewsletter` on the content of the e-mail box (`None` when the page has
      no such box): a blank or invalid address is reported and left in place; a valid
      one is thanked and the box emptied. */
  function SubscribeNewsletter(box: Option<string>): (r: NewsletterOutcome)
    ensures box.None? ==> r == NewsletterOutcome(None, None)
    ensures box.Some? ==> r.notice.Some?
    ensures box.Some? ==>
              (r.notice.value.kind == Success <==> ValidateEmail(Trim(box.value)))
    ensures box.Some? && r.notice.value.kind == Success ==> r.box == Some("")
    ensures box.Some? && r.notice.value.kind != Success ==> r.box == box && r.notice.value.kind == Error
  {
    if box.None? then NewsletterOutcome(None, None)
    else
      var email := Trim(box.value);
      if email == [] then
        NewsletterOutcome(Some(Notice(Error, "Please enter your email address")), box)
      else if !ValidateEmail(email) then
        NewsletterOutcome(Some(Notice(Error, "Please enter a valid email address")), box)
      else
        NewsletterOutcome(Some(Notice(Success, "Successfully subscribed to our newsletter!")), Some(""))
  }
}
