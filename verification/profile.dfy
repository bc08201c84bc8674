/** The two profile screens: the image-URL normalisation and upload-failure
    rollback of the tab screen, and the edit/save/cancel state machine of the
    stand-alone screen. Both work on the shared registration record. */
module Profile {
  import opened Wrappers
  import opened Strings
  import opened SignUp

  // -----------------------------------------------------------------------
  // Profile image URL

  /** The characters JavaScript's `.` does not match. */
  predicate IsLineTerminator(c: char) {
    c == '\n' || c == '\r' || c == '\U{2028}' || c == '\U{2029}'
  }

  /** `/:\d+(.*)$/` can match starting at `i`: a colon, at least one digit,
      and no line terminator up to the end of the text. */
  predicate PortMatchAt(s: string, i: nat) {
    && i + 1 < |s| && s[i] == ':' && IsDigit(s[i + 1])
    && forall j | i < j < |s| :: !IsLineTerminator(s[j])
  }

  /** The leftmost position at or after `from` where the pattern matches. */
  function FirstPortMatch(s: string, from: nat): (r: Option<nat>)
    requires from <= |s|
    ensures r.None? <==> forall i | from <= i < |s| :: !PortMatchAt(s, i)
    ensures r.Some? ==> from <= r.value < |s| && PortMatchAt(s, r.value)
    ensures r.Some? ==> forall i | from <= i < r.value :: !PortMatchAt(s, i)
    decreases |s| - from
  {
    if from == |s| then None
    else if PortMatchAt(s, from) then Some(from)
    else FirstPortMatch(s, from + 1)
  }

  /** The capture group: everything after the (greedy) digit run of the
      leftmost match. */
  function PathAfterPort(s: string): (r: Option<string>)
    ensures r.None? <==> forall i | 0 <= i < |s| :: !PortMatchAt(s, i)
    ensures r.Some? ==> |r.value| < |s| && r.value == s[|s| - |r.value|..]
  {
    match FirstPortMatch(s, 0)
    case None => None
    case Some(i) =>
      var k := DigitPrefixLength(s[i + 1..]);
      Some(s[i + 1 + k..])
  }

  predicate IsHttpUrl(image: string) {
    StartsWith(image, "http://") || StartsWith(image, "https://")
  }

  predicate NamesLocalHost(image: string) {
    Contains(image, "localhost") || Contains(image, "127.0.0.1")
  }

  /** The configured server base as the template literal renders it: an
      unset setting prints as "undefined". */
  function BaseText(apiBase: Option<string>): string {
    apiBase.GetOr("undefined")
  }

  /** `user.id || auth?.userId`, rendered: the record's id when non-zero,
      else the signed-in id when non-empty. */
  function FallbackId(userId: int, authUserId: Option<string>): (r: Option<string>)
    ensures userId != 0 ==> r == Some(IntToString(userId))
    ensures userId == 0 ==> (r.Some? <==> authUserId.Some? && authUserId.value != [])
    ensures userId == 0 && r.Some? ==> r.value == authUserId.value
  {
    if userId != 0 then Some(IntToString(userId))
    else if authUserId.Some? && authUserId.value != [] then authUserId
    else None
  }

  /** The URL for a non-blank stored image: a full URL is kept, except that
      a local development URL with a port is moved onto the configured base;
      an absolute path, or one mentioning the uploads folder, is put under the
      base; a bare file name is looked up in the uploads folder. */
  function StoredImageUrl(img: string, base: string): (r: string)
    ensures IsHttpUrl(img) && NamesLocalHost(img) && PathAfterPort(img).Some? ==> r == base + PathAfterPort(img).value
    ensures IsHttpUrl(img) && !(NamesLocalHost(img) && PathAfterPort(img).Some?) ==> r == img
    ensures !IsHttpUrl(img) && StartsWith(img, "/") ==> r == base + img
    ensures !IsHttpUrl(img) && !StartsWith(img, "/") && Contains(img, "uploads/") ==> r == base + "/" + img
    ensures !IsHttpUrl(img) && !StartsWith(img, "/") && !Contains(img, "uploads/") ==> r == base + "/ChatApp/uploads/" + img
  {
    if IsHttpUrl(img) then
      if NamesLocalHost(img) && PathAfterPort(img).Some? then base + PathAfterPort(img).value
      else img
    else if StartsWith(img, "/") || Contains(img, "uploads/") then
      base + (if StartsWith(img, "/") then img else "/" + img)
    else base + "/ChatApp/uploads/" + img
  }

  /** `getProfileImageUrl`: a stored non-blank image is normalised; without
      one, the per-user upload location is guessed from the id, and there is
      no URL when no id is known either. */
  function ProfileImageUrl(image: Option<string>, userId: int, authUserId: Option<string>, apiBase: Option<string>)
    : (r: Option<string>)
    ensures image.Some? && !JsBlank(image.value) ==> r == Some(StoredImageUrl(image.value, BaseText(apiBase)))
    ensures (image.None? || JsBlank(image.value)) ==> (r.Some? <==> FallbackId(userId, authUserId).Some?)
    ensures (image.None? || JsBlank(image.value)) && r.Some? ==>
              r.value == BaseText(apiBase) + "/ChatApp/profile-images/" + FallbackId(userId, authUserId).value + "/profile1.png"
  {
    if image.Some? && !JsBlank(image.value) then Some(StoredImageUrl(image.value, BaseText(apiBase)))
    else
      match FallbackId(userId, authUserId)
      case Some(id) => Some(BaseText(apiBase) + "/ChatApp/profile-images/" + id + "/profile1.png")
      case None => None
  }

  /** Every non-blank image that is not a full URL is served from the
      configured base. */
  lemma RelativeImagesUseBase(img: string, base: string)
    requires !IsHttpUrl(img) && img != []
    ensures StartsWith(StoredImageUrl(img, base), base) && |StoredImageUrl(img, base)| > |base|
  {
    var r := StoredImageUrl(img, base);
    assert r[..|base|] == base;
  }

  /** A local development URL with a port is moved onto the configured base. */
  lemma LocalUrlWithPortRebased(base: string)
    ensures StoredImageUrl("http://localhost:8080/a.png", base) == base + "/a.png"
  {
    var s := "http://localhost:8080/a.png";
    assert IsHttpUrl(s) by { assert s[..7] == "http://"; }
    assert NamesLocalHost(s) by { assert s[7..][..9] == "localhost"; }
    PortOfLocalUrl();
  }

  lemma PortOfLocalUrl()
    ensures PathAfterPort("http://localhost:8080/a.png") == Some("/a.png")
  {
    var s := "http://localhost:8080/a.png";
    LocalUrlFirstMatch();
    LocalUrlAfterColon(s);
    LocalUrlPortDigits(s[17..]);
    LocalUrlTail(s);
    assert PathAfterPort(s) == Some(s[17 + 4..]);
  }

  lemma LocalUrlAfterColon(s: string)
    requires s == "http://localhost:8080/a.png"
    ensures s[17..] == "8080/a.png"
  {
  }

  lemma LocalUrlTail(s: string)
    requires s == "http://localhost:8080/a.png"
    ensures s[17 + 4..] == "/a.png"
  {
  }

  lemma LocalUrlFirstMatch()
    ensures FirstPortMatch("http://localhost:8080/a.png", 0) == Some(16)
  {
    var s := "http://localhost:8080/a.png";
    LocalUrlPortAt16(s);
    forall i | 0 <= i < 16 ensures !PortMatchAt(s, i) {
      LocalUrlNoMatchBefore16(s, i);
    }
  }

  lemma LocalUrlPortAt16(s: string)
    requires s == "http://localhost:8080/a.png"
    ensures PortMatchAt(s, 16)
  {
  }

  lemma LocalUrlNoMatchBefore16(s: string, i: nat)
    requires s == "http://localhost:8080/a.png"
    requires i < 16
    ensures !PortMatchAt(s, i)
  {
    if i != 4 {
      assert s[i] != ':';
    } else {
      assert !IsDigit(s[5]);
    }
  }

  lemma LocalUrlPortDigits(d: string)
    requires d == "8080/a.png"
    ensures DigitPrefixLength(d) == 4
  {
    assert !IsDigit(d[4]);
  }

  /** A local development URL without a port is kept as it is. */
  lemma LocalUrlWithoutPortKept(base: string)
    ensures StoredImageUrl("http://localhost/a.png", base) == "http://localhost/a.png"
  {
    var t := "http://localhost/a.png";
    assert StartsWith(t, "http://");
    assert forall i | 0 <= i < |t| :: t[i] != ':' || i == 4;
    assert !PortMatchAt(t, 4);
    assert PathAfterPort(t).None?;
  }

  /** On a failed upload, the picked image is withdrawn only if it is still
      the one shown; a newer pick survives. */
  function RollbackImage(u: Registration, uploaded: string): (r: Registration)
    ensures u.profileImage == Some(uploaded) ==> r.profileImage.None?
    ensures u.profileImage != Some(uploaded) ==> r == u
    ensures r.(profileImage := u.profileImage) == u
  {
    u.(profileImage := if u.profileImage == Some(uploaded) then None else u.profileImage)
  }

  /** Only a failed upload of the image currently shown clears it. */
  lemma RollbackKeepsNewerPick(u: Registration, first: string, second: string)
    requires first != second
    ensures RollbackImage(u.(profileImage := Some(first)), first).profileImage.None?
    ensures RollbackImage(u.(profileImage := Some(second)), first).profileImage == Some(second)
  {
  }

  // -----------------------------------------------------------------------
  // Edit / save / cancel

  /** The three editable fields. */
  datatype EditBuffer = EditBuffer(firstName: string, lastName: string, contactNo: string)

  datatype ProfileView = ProfileView(userData: Registration, editing: bool, buffer: EditBuffer)

  function Seed(u: Registration): (b: EditBuffer)
    ensures b.firstName == u.firstName && b.lastName == u.lastName && b.contactNo == u.contactNo
  {
    EditBuffer(u.firstName, u.lastName, u.contactNo)
  }

  /** The screen mounts out of edit mode with the buffer seeded from the
      registration. */
  function MountProfile(u: Registration): (v: ProfileView)
    ensures v.userData == u && !v.editing && v.buffer == Seed(u)
  {
    ProfileView(u, false, Seed(u))
  }

  /** The registration changing elsewhere does not reseed the buffer. */
  function RegistrationChanged(v: ProfileView, u: Registration): (r: ProfileView)
    ensures r.userData == u && r.buffer == v.buffer && r.editing == v.editing
  {
    v.(userData := u)
  }

  /** `handleSave`: the buffer's three fields overwrite the registration's. */
  function HandleSave(v: ProfileView): (r: ProfileView)
    ensures !r.editing && r.buffer == v.buffer
    ensures Seed(r.userData) == v.buffer
    ensures r.userData.countryCode == v.userData.countryCode && r.userData.profileImage == v.userData.profileImage
  {
    ProfileView(v.userData.(firstName := v.buffer.firstName, lastName := v.buffer.lastName, contactNo := v.buffer.contactNo),
                false, v.buffer)
  }

  /** `handleCancel`: the buffer is reset from the registration, which is kept. */
  function HandleCancel(v: ProfileView): (r: ProfileView)
    ensures !r.editing && r.userData == v.userData
    ensures r.buffer == Seed(v.userData)
  {
    ProfileView(v.userData, false, Seed(v.userData))
  }

  /** The header button: cancel while editing, otherwise start editing. */
  function HeaderPress(v: ProfileView): (r: ProfileView)
    ensures v.editing ==> r == HandleCancel(v)
    ensures !v.editing ==> r == v.(editing := true)
  {
    if v.editing then HandleCancel(v) else v.(editing := true)
  }

  function EditFirstName(v: ProfileView, text: string): (r: ProfileView)
    ensures r.buffer.firstName == text
    ensures r.(buffer := v.buffer) == v && r.buffer.(firstName := v.buffer.firstName) == v.buffer
  {
    v.(buffer := v.buffer.(firstName := text))
  }

  function EditLastName(v: ProfileView, text: string): (r: ProfileView)
    ensures r.buffer.lastName == text
    ensures r.(buffer := v.buffer) == v && r.buffer.(lastName := v.buffer.lastName) == v.buffer
  {
    v.(buffer := v.buffer.(lastName := text))
  }

  function EditContactNo(v: ProfileView, text: string): (r: ProfileView)
    ensures r.buffer.contactNo == text
    ensures r.(buffer := v.buffer) == v && r.buffer.(contactNo := v.buffer.contactNo) == v.buffer
  {
    v.(buffer := v.buffer.(contactNo := text))
  }

  /** A camera or gallery pick: a cancelled pick changes nothing; otherwise
      only the registration's image changes. */
  function PickImage(v: ProfileView, picked: Option<string>): (r: ProfileView)
    ensures picked.None? ==> r == v
    ensures picked.Some? ==> r.userData == v.userData.(profileImage := picked) && r.editing == v.editing && r.buffer == v.buffer
  {
    if picked.Some? then v.(userData := v.userData.(profileImage := picked)) else v
  }

  /** Starting an edit, typing, and pressing the header button again
      discards the typing and leaves the registration untouched. */
  lemma CancelDiscardsEdits(v: ProfileView, first: string, last: string, phone: string)
    requires !v.editing
    ensures var typed := EditContactNo(EditLastName(EditFirstName(HeaderPress(v), first), last), phone);
            var r := HeaderPress(typed);
            !r.editing && r.userData == v.userData && r.buffer == Seed(v.userData)
  {
  }

  /** Saving the typed fields makes the registration show exactly them and
      keeps everything else, including an image picked while editing. */
  lemma SaveKeepsOtherFields(v: ProfileView, first: string, last: string, phone: string, picked: string)
    ensures var typed := PickImage(EditContactNo(EditLastName(EditFirstName(v, first), last), phone), Some(picked));
            var r := HandleSave(typed);
            && r.userData == Registration(first, last, v.userData.countryCode, phone, Some(picked))
            && !r.editing
  {
  }
}
