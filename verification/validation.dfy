/** The client's form validators. Each returns `None` (null) or exactly one
    message; checks run in order and the first failure wins. The two
    regular expressions are matched by small scanners, proved equal to
    their character-level meaning. */
module Validation {
  import opened Wrappers
  import opened Strings

  const FirstNameRequired: string := "First name is requierd"
  const LastNameRequired: string := "Last name is required"
  const CountryCodeEmpty: string := "Country code is empty"
  const CountryCodeInvalid: string := "Invalid Country code"
  const PhoneRequired: string := "Contact Number is requierd"
  const PhoneInvalid: string := "Invalid Contact Number"
  const ImageRequired: string := "Profile Image is required"
  const ImageUriRequired: string := "Profile Image URI is required"
  const ImageTypeRequired: string := "Profile Image type is required"
  const ImageSizeRequired: string := "Profile Image file size is required"

  /** Both name validators test `!name && name.trim().length === 0`: only the
      empty string fails, so a name of spaces passes. */
  function ValidateFirstName(name: string): (r: Option<string>)
    ensures r.Some? <==> name == []
    ensures r.Some? ==> r.value == FirstNameRequired
  {
    if name == [] && |JsTrim(name)| == 0 then Some(FirstNameRequired) else None
  }

  function ValidateLastName(name: string): (r: Option<string>)
    ensures r.Some? <==> name == []
    ensures r.Some? ==> r.value == LastNameRequired
  {
    if name == [] && |JsTrim(name)| == 0 then Some(LastNameRequired) else None
  }

  /** A name made only of white space is accepted by both validators. */
  lemma BlankNamesPass(s: string)
    requires s != [] && JsBlank(s)
    ensures ValidateFirstName(s).None? && ValidateLastName(s).None?
  {
  }

  // -----------------------------------------------------------------------
  // Regular expressions

  /** `\d{lo,hi}$` at the start of `t`, scanned one character at a time. */
  function DigitRun(t: string, lo: nat, hi: nat): bool
    decreases |t|
  {
    if t == [] then lo == 0
    else hi > 0 && IsDigit(t[0]) && DigitRun(t[1..], if lo > 0 then lo - 1 else 0, hi - 1)
  }

  lemma {:induction false} DigitRunMeaning(t: string, lo: nat, hi: nat)
    ensures DigitRun(t, lo, hi) <==> lo <= |t| <= hi && AllDigits(t)
    decreases |t|
  {
    if t != [] && hi > 0 {
      DigitRunMeaning(t[1..], if lo > 0 then lo - 1 else 0, hi - 1);
      if AllDigits(t) {
        assert AllDigits(t[1..]) by {
          forall i | 0 <= i < |t[1..]| ensures IsDigit(t[1..][i]) { assert t[1..][i] == t[i + 1]; }
        }
      }
      if IsDigit(t[0]) && AllDigits(t[1..]) {
        assert AllDigits(t) by {
          forall i | 0 <= i < |t| ensures IsDigit(t[i]) { if i > 0 { assert t[i] == t[1..][i - 1]; } }
        }
      }
    }
  }

  predicate IsNonZeroDigit(c: char) {
    '1' <= c <= '9'
  }

  /** `/^\+[1-9]\d{0,3}$/`: '+', a digit 1-9, then at most three digits. */
  function MatchesCountryCode(s: string): (m: bool)
    ensures m <==> 2 <= |s| <= 5 && s[0] == '+' && IsNonZeroDigit(s[1]) && AllDigits(s[2..])
  {
    var tail := if |s| >= 2 then s[2..] else [];
    DigitRunMeaning(tail, 0, 3);
    |s| >= 2 && s[0] == '+' && IsNonZeroDigit(s[1]) && DigitRun(s[2..], 0, 3)
  }

  /** `/^[1-9][0-9]{6,14}$/`: seven to fifteen digits, the first not '0'. */
  function MatchesPhoneNo(s: string): (m: bool)
    ensures m <==> 7 <= |s| <= 15 && IsNonZeroDigit(s[0]) && AllDigits(s)
  {
    var tail := if |s| >= 1 then s[1..] else [];
    DigitRunMeaning(tail, 6, 14);
    PhoneDigits(s);
    |s| >= 1 && IsNonZeroDigit(s[0]) && DigitRun(s[1..], 6, 14)
  }

  /** A country code is accepted iff it is '+' and one to four digits, the
      first of them not '0'. */
  function ValidateCountryCode(code: string): (r: Option<string>)
    ensures code == [] ==> r == Some(CountryCodeEmpty)
    ensures code != [] && r.Some? ==> r.value == CountryCodeInvalid
    ensures r.None? <==> 2 <= |code| <= 5 && code[0] == '+' && IsNonZeroDigit(code[1]) && AllDigits(code[2..])
  {
    if code == [] then Some(CountryCodeEmpty)
    else
      if !MatchesCountryCode(code) then Some(CountryCodeInvalid) else None
  }

  /** A phone number is accepted iff it is 7 to 15 digits, the first not '0'. */
  function ValidatePhoneNo(phone: string): (r: Option<string>)
    ensures phone == [] ==> r == Some(PhoneRequired)
    ensures phone != [] && r.Some? ==> r.value == PhoneInvalid
    ensures r.None? <==> 7 <= |phone| <= 15 && IsNonZeroDigit(phone[0]) && AllDigits(phone)
  {
    if phone == [] then Some(PhoneRequired)
    else
      if !MatchesPhoneNo(phone) then Some(PhoneInvalid) else None
  }

  lemma PhoneDigits(s: string)
    ensures s != [] ==> (IsDigit(s[0]) && AllDigits(s[1..]) <==> AllDigits(s))
  {
    if s != [] && IsDigit(s[0]) && AllDigits(s[1..]) {
      forall i | 0 <= i < |s| ensures IsDigit(s[i]) { if i > 0 { assert s[i] == s[1..][i - 1]; } }
    }
    if s != [] && AllDigits(s) {
      forall i | 0 <= i < |s[1..]| ensures IsDigit(s[1..][i]) { assert s[1..][i] == s[i + 1]; }
    }
  }

  // -----------------------------------------------------------------------
  // Profile image

  /** The picked image as the validator receives it; `type` and `fileSize`
      may be absent. */
  datatype ImageInfo = ImageInfo(uri: string, mimeType: Option<string>, fileSize: Option<int>)

  const AcceptedTypes: seq<string> := ["image/jpeg", "image/png", "image/jpg"]
  const MaxImageBytes: int := 5 * 1024 * 1024

  /** The image checks as written: the type check `!type && !includes(type || "")`
      fires only for a missing or empty type, and the size check
      `!fileSize && fileSize > 5 MiB` needs a size that is both falsy and
      large. */
  function ValidateProfileImage(image: Option<ImageInfo>): (r: Option<string>)
    ensures image.None? <==> r == Some(ImageRequired)
    ensures image.Some? && image.value.uri == [] ==> r == Some(ImageUriRequired)
    ensures image.Some? && image.value.uri != [] ==>
              (r == Some(ImageTypeRequired) <==> image.value.mimeType.None? || image.value.mimeType.value == [])
  {
    match image
    case None => Some(ImageRequired)
    case Some(img) =>
      if img.uri == [] then Some(ImageUriRequired)
      else
        var typeFalsy := img.mimeType.None? || img.mimeType.value == [];
        var typeOrEmpty := img.mimeType.GetOr("");
        if typeFalsy && typeOrEmpty !in AcceptedTypes then Some(ImageTypeRequired)
        else
          var sizeFalsy := img.fileSize.None? || img.fileSize.value == 0;
          if sizeFalsy && img.fileSize.Some? && img.fileSize.value > MaxImageBytes then Some(ImageSizeRequired)
          else None
  }

  /** The size message can never be produced, and any present type passes,
      listed or not. */
  lemma ImageSizeNeverReported(image: Option<ImageInfo>)
    ensures ValidateProfileImage(image) != Some(ImageSizeRequired)
    ensures image.Some? && image.value.uri != [] && image.value.mimeType.Some? && image.value.mimeType.value != [] ==>
              ValidateProfileImage(image).None?
  {
  }
}
