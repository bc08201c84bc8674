/** The sign-up screen: the registration record the screens share, the two
    name fields' update lambdas and the button's validate-or-navigate
    decision. */
module SignUp {
  import opened Wrappers
  import opened Validation
  import opened Toasts

  /** The registration context's `userData`. */
  datatype Registration = Registration(
    firstName: string,
    lastName: string,
    countryCode: string,
    contactNo: string,
    profileImage: Option<string>)

  /** `{ ...previous, firstName: text }`. */
  function SetFirstName(u: Registration, text: string): (r: Registration)
    ensures r.firstName == text
    ensures r.(firstName := u.firstName) == u
  {
    u.(firstName := text)
  }

  /** `{ ...previous, lastName: text }`. */
  function SetLastName(u: Registration, text: string): (r: Registration)
    ensures r.lastName == text
    ensures r.(lastName := u.lastName) == u
  {
    u.(lastName := text)
  }

  /** Edits to different fields do not interfere: their order is irrelevant. */
  lemma NameEditsCommute(u: Registration, first: string, last: string)
    ensures SetLastName(SetFirstName(u, first), last) == SetFirstName(SetLastName(u, last), first)
  {
  }

  datatype SignUpOutcome = Warn(toast: Toast) | GoToContactScreen

  /** The Sign Up button: a warning for the first failing name, otherwise
      navigation to the phone-number screen. */
  function SignUpPress(u: Registration): (o: SignUpOutcome)
    ensures o.GoToContactScreen? <==> ValidateFirstName(u.firstName).None? && ValidateLastName(u.lastName).None?
    ensures o.GoToContactScreen? <==> u.firstName != [] && u.lastName != []
    ensures u.firstName == [] ==> o == Warn(Toast(Warning, None, FirstNameRequired))
    ensures u.firstName != [] && u.lastName == [] ==> o == Warn(Toast(Warning, None, LastNameRequired))
  {
    var first := ValidateFirstName(u.firstName);
    var last := ValidateLastName(u.lastName);
    if first.Some? then Warn(Toast(Warning, None, first.value))
    else if last.Some? then Warn(Toast(Warning, None, last.value))
    else GoToContactScreen
  }

  /** Filling the two names, in either order, is enough to get past the
      screen; the other fields play no part. */
  lemma FilledNamesNavigate(u: Registration, first: string, last: string)
    requires first != [] && last != []
    ensures SignUpPress(SetLastName(SetFirstName(u, first), last)) == GoToContactScreen
  {
  }
}
