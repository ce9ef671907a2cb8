/** The user record of backend/models/userModel.js: field constraints, the pre-save password
    hashing rule, and `toJSON`, which strips the secrets. The bcrypt hash is a function
    parameter; its random salt is not modelled. */
module UserModel {
  import opened Common
  import opened Text

  datatype User = User(
    name: string,
    email: string,
    password: string,
    universityId: string,
    role: string,
    profileImage: Option<string>,
    bio: Option<string>,
    department: string,
    uploadedVideos: seq<Id>,
    playlists: seq<Id>,
    likedVideos: seq<Id>,
    bookmarkedPlaylists: seq<Id>,
    isVerified: bool,
    verificationToken: Option<string>,
    verificationTokenExpires: Option<int>,
    lastLogin: Option<int>,
    accountStatus: string,
    createdAt: int)

  /** The object `toJSON` returns: every field of the record but `password` and
      `verificationToken`. */
  datatype PublicUser = PublicUser(
    name: string,
    email: string,
    universityId: string,
    role: string,
    profileImage: Option<string>,
    bio: Option<string>,
    department: string,
    uploadedVideos: seq<Id>,
    playlists: seq<Id>,
    likedVideos: seq<Id>,
    bookmarkedPlaylists: seq<Id>,
    isVerified: bool,
    verificationTokenExpires: Option<int>,
    lastLogin: Option<int>,
    accountStatus: string,
    createdAt: int)

  const Roles: set<string> := {"student", "faculty", "admin"}
  const Departments: set<string> := {"Engineering", "Science", "Arts", "Commerce", "Medicine", "Law"}
  const AccountStates: set<string> := {"active", "suspended", "deleted"}

  /** `\w`: an ASCII letter, digit or underscore. */
  predicate IsWordChar(c: char)
  {
    ('a' <= c <= 'z') || ('A' <= c <= 'Z') || ('0' <= c <= '9') || c == '_'
  }

  /** `\w+(-?\w+)*`: word characters with single dashes between them. */
  predicate IsDashedWord(s: string)
  {
    && s != [] && IsWordChar(s[0]) && IsWordChar(s[|s| - 1])
    && (forall i :: 0 <= i < |s| ==> IsWordChar(s[i]) || s[i] == '-')
    && (forall i :: 0 <= i < |s| - 1 ==> IsWordChar(s[i]) || IsWordChar(s[i + 1]))
  }

  /** The email pattern of the schema, `^\w+([\.-]?\w+)*@\w+([\.-]?\w+)*(\.\w{2,3})+$`. Neither
      `\w` nor `[\.-]` matches '@', so the address has exactly one; `\w+([\.-]?\w+)*` is a
      sequence of dashed words joined by single dots; and the trailing `(\.\w{2,3})+` means the
      domain has at least two dot-separated pieces, the last of two or three word characters. */
  predicate IsEmail(s: string)
  {
    var at := Split(s, '@');
    && |at| == 2
    && (forall k :: 0 <= k < |Split(at[0], '.')| ==> IsDashedWord(Split(at[0], '.')[k]))
    && var dom := Split(at[1], '.');
       && |dom| >= 2
       && (forall k :: 0 <= k < |dom| ==> IsDashedWord(dom[k]))
       && var tld := dom[|dom| - 1];
          2 <= |tld| <= 3 && forall i :: 0 <= i < |tld| ==> IsWordChar(tld[i])
  }

  /** `^KLH\d{3,}$`. */
  predicate IsUniversityId(s: string)
  {
    |s| >= 6 && s[..3] == "KLH" && AllDigits(s[3..])
  }

  /** What `save()` validates on a user, the password apart (see `PasswordLongEnough`): the
      trimmed name of 1 to 50 UTF-16 units, the email pattern, the university id pattern, the
      enums and the bio bound. */
  predicate Valid(u: User)
  {
    && u.name != [] && Utf16Length(u.name) <= 50
    && IsEmail(u.email)
    && IsUniversityId(u.universityId)
    && u.role in Roles
    && (u.bio.Some? ==> Utf16Length(u.bio.value) <= 500)
    && u.department in Departments
    && u.accountStatus in AccountStates
  }

  /** The password's `minlength: 6`. Validation runs before the pre-save hook, so it applies to
      the password as given. */
  predicate PasswordLongEnough(password: string)
  {
    Utf16Length(password) >= 6
  }

  /** `new User({ name, email, password, universityId, department, role: 'student' })`: the name
      is trimmed and the email lower-cased by their setters; the rest takes its defaults. */
  function NewStudent(name: string, email: string, password: string, universityId: string,
                      department: string, createdAt: int): User
  {
    User(Trim(name), ToLower(email), password, universityId, "student", None, None, department,
         [], [], [], [], false, None, None, None, "active", createdAt)
  }

  /** A new account is an active, unverified student with nothing uploaded and no profile image. */
  lemma NewStudentDefaults(name: string, email: string, password: string, universityId: string,
                           department: string, createdAt: int)
    ensures var u := NewStudent(name, email, password, universityId, department, createdAt);
      && u.role == "student" && u.accountStatus == "active" && !u.isVerified
      && u.profileImage.None? && u.bio.None? && u.lastLogin.None?
      && u.uploadedVideos == [] && u.playlists == []
      && u.email == ToLower(email)
  {
  }

  /** A new account validates exactly when the trimmed name is 1 to 50 UTF-16 units, the
      lower-cased email has the schema's shape, the university id matches and the department
      is one of the six. */
  lemma NewStudentValidIff(name: string, email: string, password: string, universityId: string,
                           department: string, createdAt: int)
    ensures Valid(NewStudent(name, email, password, universityId, department, createdAt)) <==>
      && Trim(name) != [] && Utf16Length(Trim(name)) <= 50
      && IsEmail(ToLower(email)) && IsUniversityId(universityId) && department in Departments
  {
  }

  /** The password and the last login time play no part in `Valid`. */
  lemma ValidIgnoresSecrets(u: User, password: string, lastLogin: Option<int>)
    ensures Valid(u.(password := password, lastLogin := lastLogin)) <==> Valid(u)
  {
  }

  /** The pre-save hook: the password is replaced by its hash only when it was modified. */
  function PreSave(u: User, passwordModified: bool, hash: string -> string): (r: User)
    ensures passwordModified ==> r == u.(password := hash(u.password))
    ensures !passwordModified ==> r == u
  {
    if !passwordModified then u else u.(password := hash(u.password))
  }

  /** `toJSON`: the record without `password` and `verificationToken`. */
  function ToJson(u: User): PublicUser
  {
    PublicUser(u.name, u.email, u.universityId, u.role, u.profileImage, u.bio, u.department,
               u.uploadedVideos, u.playlists, u.likedVideos, u.bookmarkedPlaylists, u.isVerified,
               u.verificationTokenExpires, u.lastLogin, u.accountStatus, u.createdAt)
  }

  /** The record a public object and the two stripped secrets came from. */
  function WithSecrets(p: PublicUser, password: string, verificationToken: Option<string>): User
  {
    User(p.name, p.email, password, p.universityId, p.role, p.profileImage, p.bio, p.department,
         p.uploadedVideos, p.playlists, p.likedVideos, p.bookmarkedPlaylists, p.isVerified,
         verificationToken, p.verificationTokenExpires, p.lastLogin, p.accountStatus, p.createdAt)
  }

  /** `toJSON` loses exactly the two secrets: putting them back gives the record again, and
      stripping a record rebuilt from a public object gives that object again. So the output
      depends on no secret, and every other field comes through unchanged. */
  lemma ToJsonStripsOnlySecrets(u: User, p: PublicUser, password: string, token: Option<string>)
    ensures WithSecrets(ToJson(u), u.password, u.verificationToken) == u
    ensures ToJson(WithSecrets(p, password, token)) == p
    ensures ToJson(u.(password := password, verificationToken := token)) == ToJson(u)
  {
  }
}
