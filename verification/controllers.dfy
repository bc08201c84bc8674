/** The two HTTP servlets: user lookup and registration, and the profile
    image upload. Request parameters arrive as optional strings, an
    uploaded part as its size, and the file system as the set of user
    folders that hold a `profile1.png`. */
module Controllers {
  import opened Wrappers
  import opened Strings
  import opened Protocol
  import opened Store

  /** The JSON object a user servlet writes: `status`, `message`, the new
      user's id (registration only) and the user object. */
  datatype UserReply = UserReply(status: bool, message: string, userId: Option<int>, user: Option<WireUser>)

  function Failure(message: string): UserReply {
    UserReply(false, message, None, None)
  }

  // -----------------------------------------------------------------------
  // GET /UserController/{id}

  const IdRequired: string := "User ID is required"
  const InvalidId: string := "Invalid user ID"
  const InvalidIdFormat: string := "Invalid user ID format"
  const UserNotFound: string := "User not found"
  const UserRetrieved: string := "User details retrieved successfully"

  /** The image URL both servlets build. It uses the id exactly as the
      client wrote it, not the parsed number. */
  function ImageUrl(base: string, idText: string): (url: string)
    ensures var folder := "/profile-images/" + idText + "/profile1.png";
            && |url| == |base| + |folder| && url[..|base|] == base && url[|base|..] == folder
  {
    var folder := "/profile-images/" + idText + "/profile1.png";
    var url := base + folder;
    assert url[|base|..] == folder;
    url
  }

  /** `doGet`: the id is the path after its leading slash. A missing path or
      a bare slash asks for an id; an empty path makes the substring throw
      before any reply is written (`None`). The image URL is added only
      when the folder named by the raw id text holds the picture. */
  function GetUser(db: Db, pathInfo: Option<string>, imageFolders: set<string>, base: string): (r: Option<UserReply>)
    ensures pathInfo == None || pathInfo == Some("/") ==> r == Some(Failure(IdRequired))
    ensures pathInfo == Some("") ==> r.None?
    ensures r.Some? && r.value.status ==> r.value.message == UserRetrieved && r.value.userId.None? && r.value.user.Some?
    ensures pathInfo.Some? && |pathInfo.value| > 1 ==>
              var idText := pathInfo.value[1..];
              && (JavaBlank(idText) ==> r == Some(Failure(InvalidId)))
              && (!JavaBlank(idText) && JavaParseInt(idText).None? ==> r == Some(Failure(InvalidIdFormat)))
              && (!JavaBlank(idText) && JavaParseInt(idText).Some? ==>
                    var id := JavaParseInt(idText).value;
                    && (FindUser(db, id).None? ==> r == Some(Failure(UserNotFound)))
                    && (FindUser(db, id).Some? ==>
                          r == Some(UserReply(true, UserRetrieved, None,
                                              Some(WireUserOf(FindUser(db, id).value,
                                                              if idText in imageFolders then Some(ImageUrl(base, idText)) else None))))))
  {
    match pathInfo
    case None => Some(Failure(IdRequired))
    case Some(path) =>
      if path == "/" then Some(Failure(IdRequired))
      else if path == "" then None
      else
        var idText := path[1..];
        if JavaBlank(idText) then Some(Failure(InvalidId))
        else match JavaParseInt(idText)
          case None => Some(Failure(InvalidIdFormat))
          case Some(id) =>
            match FindUser(db, id)
            case None => Some(Failure(UserNotFound))
            case Some(u) =>
              var image := if idText in imageFolders then Some(ImageUrl(base, idText)) else None;
              Some(UserReply(true, UserRetrieved, None, Some(WireUserOf(u, image))))
  }

  /** `Integer.parseInt` skips leading zeros, so an id text with one parses
      like the text without it, and is never the decimal rendering of the
      id it parses to. */
  lemma ParseWithLeadingZeros(t: string)
    requires |t| > 1 && t[0] == '0' && AllDigits(t)
    ensures JavaParseInt(t) == JavaParseInt(t[1..])
    ensures JavaParseInt(t).Some? ==> t != IntToString(JavaParseInt(t).value)
  {
    var rest := t[1..];
    assert AllDigits(rest) by {
      forall i | 0 <= i < |rest| ensures IsDigit(rest[i]) { assert rest[i] == t[i + 1]; }
    }
    assert t == "0" + rest;
    ZeroPrefixValue(rest);
    assert Unsigned(t) == t;
    assert rest[0] != '-' && rest[0] != '+' by { assert IsDigit(rest[0]); }
    assert Unsigned(rest) == rest;
    if JavaParseInt(t).Some? {
      var v := JavaParseInt(t).value;
      assert v >= 0;
      assert IntToString(v) == NatToString(v);
    }
  }

  /** Leading zeros reach the user but not the picture: `/007` finds user 7
      but looks for the folder `007`, so a picture stored under `7` is not
      found. The same holds for every id text with a leading zero. */
  lemma LeadingZerosNameAnotherFolder(db: Db, t: string, base: string)
    requires |t| > 1 && t[0] == '0' && AllDigits(t)
    requires JavaParseInt(t).Some? && FindUser(db, JavaParseInt(t).value).Some?
    ensures var id := JavaParseInt(t).value;
            var r := GetUser(db, Some("/" + t), {IntToString(id)}, base);
            r.Some? && r.value.status && r.value.user.value.id == id && r.value.user.value.profileImage.None?
  {
    var id := JavaParseInt(t).value;
    var path := "/" + t;
    assert path[1..] == t && |path| > 1;
    assert !JavaBlank(t) by {
      assert IsDigit(t[0]);
      assert !IsJavaSpace(t[0]);
    }
    ParseWithLeadingZeros(t);
    assert t !in {IntToString(id)};
    var u := FindUser(db, id).value;
    assert GetUser(db, Some(path), {IntToString(id)}, base) == Some(UserReply(true, UserRetrieved, None, Some(WireUserOf(u, None))));
  }

  /** The first instance: "007" is user 7. */
  lemma SevenWithZeros()
    ensures JavaParseInt("007") == Some(7) && "007" != IntToString(7)
  {
    var t := "007";
    assert AllDigits(t) by { assert IsDigit(t[0]) && IsDigit(t[1]) && IsDigit(t[2]); }
    ParseWithLeadingZeros(t);
    assert t[1..] == "07";
    ParseWithLeadingZeros("07");
    assert "07"[1..] == "7";
    assert Unsigned("7") == "7" && "7"[..0] == [];
  }

  // -----------------------------------------------------------------------
  // POST /UserController (registration)

  const FirstNameRequired: string := "First name is required"
  const LastNameRequired: string := "Last name is required"
  const CountryCodeRequired: string := "Country code is required"
  const ContactRequired: string := "Contact number is required"
  const ImageRequired: string := "Profile image is required"
  const NumberExists: string := "This number already exists!"
  const ErrorPrefix: string := "Error: "
  const Registered: string := "User registered successfully"

  /** A required parameter: present and not blank after Java's trim. */
  predicate Given(p: Option<string>) {
    p.Some? && !JavaBlank(p.value)
  }

  /** An uploaded part: present and not empty. */
  predicate Uploaded(size: Option<nat>) {
    size.Some? && size.value > 0
  }

  /** The message of the first failing check, in the servlet's order. */
  function MissingField(firstName: Option<string>, lastName: Option<string>, countryCode: Option<string>,
                        contactNo: Option<string>, imageSize: Option<nat>): (m: Option<string>)
    ensures m.None? <==> Given(firstName) && Given(lastName) && Given(countryCode) && Given(contactNo) && Uploaded(imageSize)
    ensures !Given(firstName) ==> m == Some(FirstNameRequired)
    ensures Given(firstName) && !Given(lastName) ==> m == Some(LastNameRequired)
    ensures Given(firstName) && Given(lastName) && !Given(countryCode) ==> m == Some(CountryCodeRequired)
    ensures Given(firstName) && Given(lastName) && Given(countryCode) && !Given(contactNo) ==> m == Some(ContactRequired)
    ensures Given(firstName) && Given(lastName) && Given(countryCode) && Given(contactNo) && !Uploaded(imageSize)
            ==> m == Some(ImageRequired)
  {
    if !Given(firstName) then Some(FirstNameRequired)
    else if !Given(lastName) then Some(LastNameRequired)
    else if !Given(countryCode) then Some(CountryCodeRequired)
    else if !Given(contactNo) then Some(ContactRequired)
    else if !Uploaded(imageSize) then Some(ImageRequired)
    else None
  }

  /** The users the duplicate check finds: same country code and number. */
  function SameNumber(users: seq<User>, countryCode: string, contactNo: string): nat {
    Count(users, (u: User) => u.countryCode == countryCode && u.contactNo == contactNo)
  }

  /** The column's unique constraint: some user already has the number,
      under any country code. */
  predicate NumberTaken(users: seq<User>, contactNo: string) {
    exists i | 0 <= i < |users| :: users[i].contactNo == contactNo
  }

  /** No two users share a contact number, as the column's unique
      constraint guarantees. */
  predicate UniqueContacts(db: Db) {
    forall i, j | 0 <= i < j < |db.users| :: db.users[i].contactNo != db.users[j].contactNo
  }

  /** The insert that completes a registration: a fresh positive id, a new
      ONLINE user at the end of the table, and the reply that echoes it. */
  function Insert(db: Db, first: string, last: string, code: string, number: string, now: int): (r: (Db, UserReply))
    requires Valid(db)
    ensures r.1.status && r.1.message == Registered
    ensures r.1.userId.Some? && r.1.userId.value > 0 && !HasUser(db, r.1.userId.value)
    ensures r.0 == db.(users := db.users + [NewUser(r.1.userId.value, first, last, code, number, now)])
    ensures r.1.user == Some(WireUserOf(r.0.users[|db.users|], None))
    ensures Valid(r.0)
  {
    var id := FreshId(db.users, UserKey);
    var u := NewUser(id, first, last, code, number, now);
    RegisterKeepsValid(db, u);
    var db2 := db.(users := db.users + [u]);
    assert db2.users[|db.users|] == u;
    (db2, UserReply(true, Registered, Some(id), Some(WireUserOf(u, None))))
  }

  /** `doPost`: the validation cascade, then the duplicate check, then the
      insert. A duplicate lookup that finds several rows, or an insert the
      unique constraint rejects, fails with an exception message (only its
      prefix is modelled) and stores nothing. The stored values are the
      parameters as sent, untrimmed; the `status` parameter is not read. */
  function Register(db: Db, firstName: Option<string>, lastName: Option<string>, countryCode: Option<string>,
                    contactNo: Option<string>, imageSize: Option<nat>, now: int): (r: (Db, UserReply))
    requires Valid(db)
    ensures MissingField(firstName, lastName, countryCode, contactNo, imageSize).Some? ==>
              r == (db, Failure(MissingField(firstName, lastName, countryCode, contactNo, imageSize).value))
    ensures !r.1.status ==> r.0 == db && r.1.userId.None? && r.1.user.None?
    ensures MissingField(firstName, lastName, countryCode, contactNo, imageSize).None? ==>
              var n := SameNumber(db.users, countryCode.value, contactNo.value);
              && (n == 1 ==> r == (db, Failure(NumberExists)))
              && (n > 1 ==> r == (db, Failure(ErrorPrefix)))
              && (n == 0 && NumberTaken(db.users, contactNo.value) ==> r == (db, Failure(ErrorPrefix)))
              && (n == 0 && !NumberTaken(db.users, contactNo.value) ==>
                    r == Insert(db, firstName.value, lastName.value, countryCode.value, contactNo.value, now))
    ensures r.1.status ==> r == Insert(db, firstName.value, lastName.value, countryCode.value, contactNo.value, now)
    ensures r.1.status ==> !NumberTaken(db.users, contactNo.value)
    ensures Valid(r.0)
  {
    match MissingField(firstName, lastName, countryCode, contactNo, imageSize)
    case Some(m) => (db, Failure(m))
    case None =>
      var n := SameNumber(db.users, countryCode.value, contactNo.value);
      if n == 1 then (db, Failure(NumberExists))
      else if n > 1 || NumberTaken(db.users, contactNo.value) then (db, Failure(ErrorPrefix))
      else Insert(db, firstName.value, lastName.value, countryCode.value, contactNo.value, now)
  }

  lemma RegisterKeepsValid(db: Db, u: User)
    requires Valid(db) && u.id > 0
    requires forall i | 0 <= i < |db.users| :: db.users[i].id < u.id
    ensures Valid(db.(users := db.users + [u]))
    ensures !HasUser(db, u.id)
  {
    var db2 := db.(users := db.users + [u]);
    forall id | HasUser(db, id) ensures HasUser(db2, id) {
      var i :| 0 <= i < |db.users| && db.users[i].id == id;
      assert db2.users[i].id == id;
    }
  }

  /** Registration keeps contact numbers unique. */
  lemma RegisterKeepsContactsUnique(db: Db, firstName: Option<string>, lastName: Option<string>,
                                    countryCode: Option<string>, contactNo: Option<string>, imageSize: Option<nat>, now: int)
    requires Valid(db) && UniqueContacts(db)
    ensures UniqueContacts(Register(db, firstName, lastName, countryCode, contactNo, imageSize, now).0)
  {
    var r := Register(db, firstName, lastName, countryCode, contactNo, imageSize, now);
    if r.1.status {
      InsertKeepsContactsUnique(db, firstName.value, lastName.value, countryCode.value, contactNo.value, now);
    }
  }

  lemma InsertKeepsContactsUnique(db: Db, first: string, last: string, code: string, number: string, now: int)
    requires Valid(db) && UniqueContacts(db) && !NumberTaken(db.users, number)
    ensures UniqueContacts(Insert(db, first, last, code, number, now).0)
  {
    var users := Insert(db, first, last, code, number, now).0.users;
    assert users[|db.users|].contactNo == number;
    forall i, j | 0 <= i < j < |users| ensures users[i].contactNo != users[j].contactNo {
      assert users[i] == db.users[i];
      if j < |db.users| {
        assert users[j] == db.users[j];
      }
    }
  }

  /** A stored user is found by the decimal text of its id. */
  lemma GetUserByIdText(db: Db, id: int, folders: set<string>, base: string)
    requires InInt32(id) && FindUser(db, id).Some?
    ensures var r := GetUser(db, Some("/" + IntToString(id)), folders, base);
            && r.Some? && r.value.status
            && r.value.user.value.id == id
            && r.value.user.value == WireUserOf(FindUser(db, id).value, r.value.user.value.profileImage)
  {
    var path := "/" + IntToString(id);
    assert path[1..] == IntToString(id);
    JavaParseIntOfIntToString(id);
    var t := IntToString(id);
    assert !JavaBlank(t) by {
      if id < 0 {
        assert t[0] == '-';
      } else {
        assert t == NatToString(id) && IsDigit(t[0]);
      }
    }
  }

  /** A registered user can be fetched back at once by its id, with the
      values it was registered with. */
  lemma InsertReadsBack(db: Db, first: string, last: string, code: string, number: string, now: int,
                        folders: set<string>, base: string)
    requires Valid(db) && InInt32(Insert(db, first, last, code, number, now).1.userId.value)
    ensures var r := Insert(db, first, last, code, number, now);
            var got := GetUser(r.0, Some("/" + IntToString(r.1.userId.value)), folders, base);
            && got.Some? && got.value.status
            && got.value.user.value == WireUserOf(NewUser(r.1.userId.value, first, last, code, number, now), got.value.user.value.profileImage)
  {
    var r := Insert(db, first, last, code, number, now);
    var id := r.1.userId.value;
    var after := r.0;
    var u := NewUser(id, first, last, code, number, now);
    assert after.users[|db.users|] == u;
    FindUserUnique(after, |db.users|);
    GetUserByIdText(after, id, folders, base);
  }

  lemma RegisteredUserReadsBack(db: Db, firstName: Option<string>, lastName: Option<string>, countryCode: Option<string>,
                                contactNo: Option<string>, size: Option<nat>, now: int, folders: set<string>, base: string)
    requires Valid(db)
    requires var r := Register(db, firstName, lastName, countryCode, contactNo, size, now);
             r.1.status && InInt32(r.1.userId.value)
    ensures var r := Register(db, firstName, lastName, countryCode, contactNo, size, now);
            var got := GetUser(r.0, Some("/" + IntToString(r.1.userId.value)), folders, base);
            && got.Some? && got.value.status
            && got.value.user.value.id == r.1.userId.value
            && got.value.user.value.firstName == firstName.value && got.value.user.value.lastName == lastName.value
            && got.value.user.value.countryCode == countryCode.value && got.value.user.value.contactNo == contactNo.value
            && got.value.user.value.status == "ONLINE"
  {
    InsertReadsBack(db, firstName.value, lastName.value, countryCode.value, contactNo.value, now, folders, base);
  }

  /** Registering the same country code and number again is refused and
      changes nothing. */
  lemma SecondRegistrationRefused(db: Db, firstName: string, lastName: string, countryCode: string, contactNo: string,
                                  size: nat, now: int, later: int)
    requires Valid(db) && UniqueContacts(db)
    requires Register(db, Some(firstName), Some(lastName), Some(countryCode), Some(contactNo), Some(size), now).1.status
    ensures var db2 := Register(db, Some(firstName), Some(lastName), Some(countryCode), Some(contactNo), Some(size), now).0;
            Register(db2, Some(firstName), Some(lastName), Some(countryCode), Some(contactNo), Some(size), later)
              == (db2, Failure(NumberExists))
  {
    var db2 := Register(db, Some(firstName), Some(lastName), Some(countryCode), Some(contactNo), Some(size), now).0;
    var u := db2.users[|db.users|];
    var keep := (x: User) => x.countryCode == countryCode && x.contactNo == contactNo;
    CountAppendOne(db.users, u, keep);
    assert db2.users == db.users + [u];
    assert SameNumber(db.users, countryCode, contactNo) == 0;
  }

  // -----------------------------------------------------------------------
  // /ProfileController

  /** The user object the upload reply carries. */
  datatype ProfileUser = ProfileUser(id: int, firstName: string, lastName: string, profileImage: string)

  datatype ProfileReply = ProfileReply(status: bool, message: string, profileImageUrl: Option<string>,
                                       user: Option<ProfileUser>)

  const ImageUpdated: string := "Profile image updated successfully"
  const GetNotSupported: string := "GET method not supported for profile operations. Use POST to upload profile images."

  function ProfileFailure(message: string): ProfileReply {
    ProfileReply(false, message, None, None)
  }

  /** `doPost`: user id present, then an image, then a parsable id, then an
      existing user, each with its own message; success echoes the image URL
      built from the id text in the user object. The store is not changed. */
  function UploadImage(db: Db, userId: Option<string>, imageSize: Option<nat>, base: string): (r: ProfileReply)
    ensures !Given(userId) ==> r == ProfileFailure(IdRequired)
    ensures Given(userId) && !Uploaded(imageSize) ==> r == ProfileFailure(ImageRequired)
    ensures Given(userId) && Uploaded(imageSize) && JavaParseInt(userId.value).None? ==> r == ProfileFailure(InvalidIdFormat)
    ensures Given(userId) && Uploaded(imageSize) && JavaParseInt(userId.value).Some? ==>
              var found := FindUser(db, JavaParseInt(userId.value).value);
              && (found.None? ==> r == ProfileFailure(UserNotFound))
              && (found.Some? ==>
                    && r.status && r.message == ImageUpdated
                    && r.profileImageUrl == Some(ImageUrl(base, userId.value))
                    && r.user == Some(ProfileUser(found.value.id, found.value.firstName, found.value.lastName,
                                                  ImageUrl(base, userId.value))))
    ensures r.status <==> Given(userId) && Uploaded(imageSize) && JavaParseInt(userId.value).Some?
                          && FindUser(db, JavaParseInt(userId.value).value).Some?
  {
    if !Given(userId) then ProfileFailure(IdRequired)
    else if !Uploaded(imageSize) then ProfileFailure(ImageRequired)
    else match JavaParseInt(userId.value)
      case None => ProfileFailure(InvalidIdFormat)
      case Some(id) =>
        match FindUser(db, id)
        case None => ProfileFailure(UserNotFound)
        case Some(u) =>
          var url := ImageUrl(base, userId.value);
          ProfileReply(true, ImageUpdated, Some(url), Some(ProfileUser(u.id, u.firstName, u.lastName, url)))
  }

  /** After a successful upload has saved the picture in the folder named by
      the id text, looking the user up under the same text finds the user
      with the URL the upload returned; the id as parsed names the same user. */
  lemma UploadThenGetUser(db: Db, userId: string, size: nat, folders: set<string>, base: string)
    requires UploadImage(db, Some(userId), Some(size), base).status
    ensures var up := UploadImage(db, Some(userId), Some(size), base);
            var got := GetUser(db, Some("/" + userId), folders + {userId}, base);
            && got.Some? && got.value.status
            && got.value.user.value.id == up.user.value.id
            && got.value.user.value.profileImage == up.profileImageUrl
  {
    var path := "/" + userId;
    assert path[1..] == userId;
    assert |path| > 1 by { assert userId != [] by { assert !JavaBlank(userId); } }
  }

  /** `doGet` refuses every request. */
  function ProfileGet(): (r: ProfileReply)
    ensures !r.status && r.message == GetNotSupported && r.user.None?
  {
    ProfileFailure(GetNotSupported)
  }
}
