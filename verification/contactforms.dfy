/** The two add-contact forms and the phone-number screen. Each form checks
    its fields in order, raises one error toast for the first empty one, and
    otherwise sends exactly one contact draft and clears some of its fields. */
module ContactForms {
  import opened Wrappers
  import opened Strings
  import opened Protocol
  import opened Toasts
  import Hooks

  /** The result of pressing a form's save button. */
  datatype Submit<F> = Rejected(toast: Toast) | Submitted(draft: ContactDraft, next: F)

  /** `onCountrySelect`: the calling code becomes the country's first
      calling code, undefined when the country lists none. */
  function FirstCallingCode(callingCodes: seq<string>): (c: Option<string>)
    ensures c.Some? <==> |callingCodes| > 0
    ensures c.Some? ==> c.value == callingCodes[0]
  {
    if |callingCodes| > 0 then Some(callingCodes[0]) else None
  }

  const DefaultCallingCode: string := "+94"
  const ActiveStatus: string := "ACTIVE"

  // -----------------------------------------------------------------------
  // The stand-alone form: first name, last name, phone number

  datatype NameForm = NameForm(firstName: string, lastName: string, phoneNo: string, callingCode: Option<string>)

  const NameFormInitial: NameForm := NameForm("", "", "", Some(DefaultCallingCode))

  function SelectCountry(f: NameForm, callingCodes: seq<string>): (r: NameForm)
    ensures r.callingCode == FirstCallingCode(callingCodes)
    ensures r.(callingCode := f.callingCode) == f
  {
    f.(callingCode := FirstCallingCode(callingCodes))
  }

  function SendNameForm(f: NameForm): (o: Submit<NameForm>)
    ensures o.Submitted? <==> f.firstName != [] && f.lastName != [] && f.phoneNo != []
    ensures f.firstName == [] ==> o == Rejected(ErrorToast("Please enter first name"))
    ensures f.firstName != [] && f.lastName == [] ==> o == Rejected(ErrorToast("Please enter last name"))
    ensures f.firstName != [] && f.lastName != [] && f.phoneNo == [] ==> o == Rejected(ErrorToast("Please enter phone number"))
    ensures o.Submitted? ==> o.draft == ContactDraft(0, f.firstName, f.lastName, None, f.callingCode, f.phoneNo, ActiveStatus)
    ensures o.Submitted? ==> o.next == NameForm("", "", "", Some(""))
  {
    if f.firstName == [] then Rejected(ErrorToast("Please enter first name"))
    else if f.lastName == [] then Rejected(ErrorToast("Please enter last name"))
    else if f.phoneNo == [] then Rejected(ErrorToast("Please enter phone number"))
    else Submitted(ContactDraft(0, f.firstName, f.lastName, None, f.callingCode, f.phoneNo, ActiveStatus),
              NameForm("", "", "", Some("")))
  }

  /** Because a send also clears the calling code, a second contact sent
      without picking a country again goes out with an empty country code. */
  lemma SecondSendLosesCallingCode(f: NameForm, first: string, last: string, phone: string)
    requires SendNameForm(f).Submitted?
    requires first != [] && last != [] && phone != []
    ensures var g := SendNameForm(f).next.(firstName := first, lastName := last, phoneNo := phone);
            SendNameForm(g).Submitted? && SendNameForm(g).draft.countryCode == Some("")
  {
  }

  /** A successful send issues exactly one `save_new_contact` request. */
  lemma NameFormSendsOneRequest(f: NameForm)
    requires SendNameForm(f).Submitted?
    ensures Hooks.SendNewContactRequests(SendNameForm(f).draft) == [SaveNewContact(SendNameForm(f).draft)]
  {
  }

  // -----------------------------------------------------------------------
  // The tab form: display name and phone number

  datatype DisplayNameForm = DisplayNameForm(displayName: string, phoneNo: string, callingCode: Option<string>)

  const DisplayNameFormInitial: DisplayNameForm := DisplayNameForm("", "", Some(DefaultCallingCode))

  function SendDisplayNameForm(f: DisplayNameForm): (o: Submit<DisplayNameForm>)
    ensures o.Submitted? <==> f.displayName != [] && f.phoneNo != []
    ensures f.displayName == [] ==> o == Rejected(ErrorToast("Please enter display name"))
    ensures f.displayName != [] && f.phoneNo == [] ==> o == Rejected(ErrorToast("Please enter phone number"))
    ensures o.Submitted? ==> o.draft == ContactDraft(0, "", "", Some(f.displayName), f.callingCode, f.phoneNo, ActiveStatus)
    ensures o.Submitted? ==> o.next == DisplayNameForm("", "", f.callingCode)
  {
    if f.displayName == [] then Rejected(ErrorToast("Please enter display name"))
    else if f.phoneNo == [] then Rejected(ErrorToast("Please enter phone number"))
    else Submitted(ContactDraft(0, "", "", Some(f.displayName), f.callingCode, f.phoneNo, ActiveStatus),
              DisplayNameForm("", "", f.callingCode))
  }

  /** Unlike the stand-alone form, the tab form keeps the calling code, so
      without a country pick every contact goes out with "+94". */
  lemma TabFormKeepsDefaultCode(name: string, phone: string)
    requires name != [] && phone != []
    ensures var f := DisplayNameFormInitial.(displayName := name, phoneNo := phone);
            && SendDisplayNameForm(f).Submitted?
            && SendDisplayNameForm(f).draft.countryCode == Some(DefaultCallingCode)
            && SendDisplayNameForm(SendDisplayNameForm(f).next.(displayName := name, phoneNo := phone)).draft.countryCode
               == Some(DefaultCallingCode)
  {
  }

  const SavedDefault: string := "Contact saved successfully"
  const FailedDefault: string := "Failed to save contact"

  /** The tab form's effect on the save result: nothing while the status is
      null, otherwise a success or error toast with the server's text, or a
      default text when the server's is empty. */
  function ResponseToast(res: Hooks.ContactResult): (t: Option<Toast>)
    ensures t.None? <==> res.responseStatus.None?
    ensures t.Some? ==> (t.value.kind == Success <==> res.responseStatus.value)
    ensures t.Some? && res.responseText != [] ==> t.value.body == res.responseText
    ensures t.Some? && res.responseText == [] ==> t.value.body == (if res.responseStatus.value then SavedDefault else FailedDefault)
  {
    match res.responseStatus
    case None => None
    case Some(ok) =>
      if ok then Some(Toast(Success, Some("Success"), if res.responseText != [] then res.responseText else SavedDefault))
      else Some(ErrorToast(if res.responseText != [] then res.responseText else FailedDefault))
  }

  /** A server reply with a message shows exactly that message, as a success
      or an error toast according to its status. */
  lemma ToastShowsServerReply(res: Hooks.ContactResult, message: string, ok: bool)
    requires message != []
    ensures var t := ResponseToast(Hooks.ContactResultReduce(res, NewContactResponse(message, ok)));
            t.Some? && t.value.body == message && (t.value.kind == Success <==> ok)
  {
  }

  // -----------------------------------------------------------------------
  // The phone-number screen

  const MaxPhoneLength: nat := 10

  /** The text input's `maxLength`: typed text beyond ten characters is cut. */
  function CapLength(text: string): (r: string)
    ensures |r| <= MaxPhoneLength && |r| <= |text|
    ensures r == text[..|r|]
    ensures |text| <= MaxPhoneLength ==> r == text
  {
    if |text| <= MaxPhoneLength then text else text[..MaxPhoneLength]
  }

  /** `text.length >= 9 && /^\d+$/.test(text)`: the length test already
      makes the pattern's "one or more" hold. */
  function ContinueEnabled(text: string): (b: bool)
    ensures b <==> |text| >= 9 && AllDigits(text)
    ensures b ==> text != []
  {
    |text| >= 9 && AllDigits(text)
  }

  datatype PhoneEntry = PhoneEntry(phoneNumber: string, isNextEnabled: bool)

  const PhoneEntryInitial: PhoneEntry := PhoneEntry("", false)

  /** `handlePhoneChange` applied to what the input lets through. */
  function HandlePhoneChange(typed: string): (r: PhoneEntry)
    ensures r.phoneNumber == CapLength(typed)
    ensures r.isNextEnabled <==> 9 <= |r.phoneNumber| <= 10 && AllDigits(r.phoneNumber)
  {
    var text := CapLength(typed);
    PhoneEntry(text, ContinueEnabled(text))
  }

  /** The Continue button's `disabled` flag. */
  function ContinueDisabled(e: PhoneEntry): (d: bool)
    ensures d <==> !e.isNextEnabled
  {
    !e.isNextEnabled
  }

  const ValidHint: string := "\U{2713} Valid number"

  /** The hint under the input: none while empty, the success text when the
      number enables Continue, otherwise how many characters remain to ten. */
  function Hint(phone: string): (h: Option<string>)
    ensures h.None? <==> phone == []
    ensures h.Some? ==> (h.value == ValidHint <==> ContinueEnabled(phone))
    ensures h.Some? && !ContinueEnabled(phone) ==> h.value == "Enter " + IntToString(10 - |phone|) + " more digits"
  {
    if |phone| == 0 then None
    else if ContinueEnabled(phone) then Some(ValidHint)
    else Some("Enter " + IntToString(10 - |phone|) + " more digits")
  }

  /** The hint and the button always agree, and a ten-character entry that is
      not all digits is told it needs zero more digits. */
  lemma HintAgreesWithButton(typed: string)
    ensures var e := HandlePhoneChange(typed);
            e.phoneNumber != [] ==> (Hint(e.phoneNumber) == Some(ValidHint) <==> !ContinueDisabled(e))
    ensures Hint("123456789x") == Some("Enter 0 more digits")
  {
    var s := "123456789x";
    assert !IsDigit(s[9]);
    assert DigitChar(0) == '0';
    assert |s| == 10 && !ContinueEnabled(s);
    assert IntToString(0) == "0";
    assert Hint(s) == Some("Enter " + "0" + " more digits");
    assert "Enter " + "0" + " more digits" == "Enter 0 more digits";
  }
}
