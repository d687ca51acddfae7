/**
 * The user directory: the `User` record, resolving the caller from a
 * verified token, sign-up's uniqueness rule, profile updates and the
 * `/me` view.
 */
module Directory {
  import opened Http
  import opened Images
  import opened Skills

  datatype Role = Mentor | Mentee

  /** One row of the `users` table. */
  datatype User = User(
    id: int,
    email: string,
    passwordHash: string,
    name: string,
    role: Role,
    bio: string,
    image: Option<seq<byte>>,
    imageType: Option<ImageType>,
    skills: string)

  function RoleName(role: Role): string {
    match role
    case Mentor => "mentor"
    case Mentee => "mentee"
  }

  function DigitChar(d: nat): char
    requires d < 10
  {
    "0123456789"[d]
  }

  /** Python's `str(n)` for a non-negative integer. */
  function Digits(n: nat): string
    decreases n
  {
    if n < 10 then [DigitChar(n)] else Digits(n / 10) + [DigitChar(n % 10)]
  }

  function DecimalString(n: int): string {
    if n < 0 then "-" + Digits(-n) else Digits(n)
  }

  function ImageUrl(role: Role, id: int): string {
    "/api/images/" + RoleName(role) + "/" + DecimalString(id)
  }

  /** The `profile` object of a response; `skills` is present only for mentors. */
  datatype Profile = Profile(name: string, bio: string, imageUrl: string, skills: Option<seq<string>>)

  /** A user as the API returns it: no password hash, no image bytes. */
  datatype UserView = UserView(id: int, email: string, role: Role, profile: Profile)

  /** The body returned by `/me` and by a successful profile update. */
  function MeView(u: User): (v: UserView)
    ensures v.id == u.id && v.email == u.email && v.role == u.role
    ensures v.profile.name == u.name && v.profile.bio == u.bio
    ensures v.profile.imageUrl == ImageUrl(u.role, u.id)
    ensures v.profile.skills.Some? <==> u.role == Mentor
    ensures u.role == Mentor ==> v.profile.skills == Some(Decode(u.skills))
    ensures u.role == Mentor ==> Join(v.profile.skills.value) == u.skills
  {
    EncodeDecode(u.skills);
    var skills := if u.role == Mentor then Some(Decode(u.skills)) else None;
    UserView(u.id, u.email, u.role, Profile(u.name, u.bio, ImageUrl(u.role, u.id), skills))
  }

  /* ---------------- Stored invariants ---------------- */

  /** A stored image and its declared type are present together, and the type is the sniffed one. */
  predicate ImageConsistent(u: User) {
    || (u.image.None? && u.imageType.None?)
    || (u.image.Some? && u.imageType.Some? && CheckImage(u.image.value) == Ok(u.imageType.value))
  }

  /** What every stored user satisfies: a mentee never has skills, and any image is a valid one. */
  predicate UserInvariant(u: User) {
    (u.role == Mentee ==> u.skills == "") && ImageConsistent(u)
  }

  predicate EmailTaken(users: seq<User>, email: string) {
    exists i :: 0 <= i < |users| && users[i].email == email
  }

  predicate EmailsUnique(users: seq<User>) {
    forall i, j :: 0 <= i < j < |users| ==> users[i].email != users[j].email
  }

  /**
   * The `users` table: ids are positive, below the next id to hand out and
   * increasing in storage order, e-mails are unique and every row keeps
   * `UserInvariant`.
   */
  predicate UsersWellFormed(users: seq<User>, nextId: int) {
    && 1 <= nextId
    && (forall i :: 0 <= i < |users| ==> 1 <= users[i].id < nextId && UserInvariant(users[i]))
    && (forall i, j :: 0 <= i < j < |users| ==> users[i].id < users[j].id)
    && EmailsUnique(users)
  }

  predicate IsUserWithRole(users: seq<User>, id: int, role: Role) {
    exists i :: 0 <= i < |users| && users[i].id == id && users[i].role == role
  }

  /* ---------------- Lookup and authentication ---------------- */

  /** The first stored user with this id (`filter(User.id == id).first()`). */
  function FindUser(users: seq<User>, id: int): (r: Option<nat>)
    ensures r.Some? ==> r.value < |users| && users[r.value].id == id
    ensures r.Some? ==> forall j :: 0 <= j < r.value ==> users[j].id != id
    ensures r.None? ==> forall j :: 0 <= j < |users| ==> users[j].id != id
  {
    if users == [] then None
    else if users[0].id == id then Some(0)
    else match FindUser(users[1..], id)
      case None => None
      case Some(k) => Some(k + 1)
  }

  /**
   * The current user of a request. `subject` is what verifying the bearer
   * token yielded: `None` for a missing, malformed, expired or wrongly signed
   * token or one without a subject. Both that and an unknown id are 401.
   */
  function Authenticate(users: seq<User>, subject: Option<int>): (r: Result<nat>)
    ensures r.Ok? <==> subject.Some? && exists i :: 0 <= i < |users| && users[i].id == subject.value
    ensures r.Ok? ==> r.value < |users| && users[r.value].id == subject.value
    ensures r.Err? ==> r.error == Unauthorized
  {
    match subject
    case None => Err(Unauthorized)
    case Some(id) =>
      match FindUser(users, id)
      case None => Err(Unauthorized)
      case Some(i) => Ok(i)
  }

  /** `GET /me`: any authenticated user sees their own record. */
  function GetMe(users: seq<User>, subject: Option<int>): (r: Result<UserView>)
    ensures r.Err? <==> Authenticate(users, subject).Err?
    ensures r.Err? ==> r.error == Unauthorized
    ensures r.Ok? ==> r.value.id == subject.value && exists u :: u in users && r.value == MeView(u)
  {
    match Authenticate(users, subject)
    case Err(e) => Err(e)
    case Ok(i) => Ok(MeView(users[i]))
  }

  /* ---------------- Sign-up ---------------- */

  /** The row sign-up inserts: empty bio and skills, no image. */
  function NewUser(id: int, email: string, passwordHash: string, name: string, role: Role): (u: User)
    ensures u.id == id && u.email == email && u.passwordHash == passwordHash && u.name == name && u.role == role
    ensures u.bio == "" && u.skills == "" && u.image.None?
    ensures UserInvariant(u)
  {
    User(id, email, passwordHash, name, role, "", None, None, "")
  }

  /** Sign-up into a free e-mail keeps the table well formed, e-mail uniqueness included. */
  lemma SignupKeepsWellFormed(users: seq<User>, nextId: int, email: string, passwordHash: string, name: string, role: Role)
    requires UsersWellFormed(users, nextId)
    requires !EmailTaken(users, email)
    ensures UsersWellFormed(users + [NewUser(nextId, email, passwordHash, name, role)], nextId + 1)
  {
    var u := NewUser(nextId, email, passwordHash, name, role);
    var users' := users + [u];
    forall i, j | 0 <= i < j < |users'|
      ensures users'[i].email != users'[j].email
    {
      if j == |users| {
        assert users'[i] == users[i];
      }
    }
  }

  /* ---------------- Profile update ---------------- */

  /**
   * The `image` field of a profile update after base64 decoding: absent
   * (missing or the empty string), not valid base64, or the decoded bytes.
   */
  datatype ImageField = NoImage | Undecodable | Decoded(data: seq<byte>)

  /** The body of `PUT /profile`. */
  datatype ProfileUpdate = ProfileUpdate(
    id: int,
    name: string,
    role: Role,
    bio: string,
    image: ImageField,
    skills: Option<seq<string>>)

  predicate ImageAcceptable(f: ImageField) {
    f.NoImage? || (f.Decoded? && CheckImage(f.data).Ok?)
  }

  /**
   * The caller's record after `PUT /profile`, or the 400 it raises: a
   * mismatched id or role, an undecodable, oversized or unsigned image.
   * A mentor's skills are replaced by the joined list (omitted means none).
   */
  function ApplyProfileUpdate(u: User, req: ProfileUpdate): (r: Result<User>)
    ensures r.Ok? <==> req.id == u.id && req.role == u.role && ImageAcceptable(req.image)
    ensures r.Err? ==> r.error == BadRequest
    ensures r.Ok? ==> && r.value.id == u.id && r.value.email == u.email && r.value.role == u.role
                      && r.value.passwordHash == u.passwordHash
                      && r.value.name == req.name && r.value.bio == req.bio
    ensures r.Ok? && req.image.NoImage? ==> r.value.image == u.image && r.value.imageType == u.imageType
    ensures r.Ok? && req.image.Decoded? ==>
              r.value.image == Some(req.image.data) && r.value.imageType.Some? && CheckImage(req.image.data) == Ok(r.value.imageType.value)
    ensures r.Ok? && u.role == Mentee ==> r.value.skills == u.skills
    ensures r.Ok? && u.role == Mentor ==> r.value.skills == Join(req.skills.GetOr([]))
    ensures r.Ok? && UserInvariant(u) ==> UserInvariant(r.value)
  {
    if req.id != u.id || req.role != u.role then Err(BadRequest)
    else
      var named := u.(name := req.name, bio := req.bio);
      var withImage :=
        match req.image
        case NoImage => Ok(named)
        case Undecodable => Err(BadRequest)
        case Decoded(data) =>
          match CheckImage(data)
          case Err(_) => Err(BadRequest)
          case Ok(t) => Ok(named.(image := Some(data), imageType := Some(t)));
      match withImage
      case Err(e) => Err(e)
      case Ok(v) =>
        if v.role == Mentor then Ok(v.(skills := Join(req.skills.GetOr([])))) else Ok(v)
  }

  /** Submitting the same update twice stores the same record, image type included. */
  lemma ProfileUpdateIdempotent(u: User, req: ProfileUpdate)
    requires ApplyProfileUpdate(u, req).Ok?
    ensures ApplyProfileUpdate(ApplyProfileUpdate(u, req).value, req) == ApplyProfileUpdate(u, req)
  {
  }

  /**
   * A mentor who sends comma-free skills (other than the single empty one)
   * reads exactly those skills back in the response; omitting them reads
   * back the empty list.
   */
  lemma UpdatedSkillsReadBack(u: User, req: ProfileUpdate)
    requires ApplyProfileUpdate(u, req).Ok? && u.role == Mentor
    requires NoCommas(req.skills.GetOr([])) && req.skills != Some([""])
    ensures MeView(ApplyProfileUpdate(u, req).value).profile.skills == Some(req.skills.GetOr([]))
  {
    DecodeEncode(req.skills.GetOr([]));
  }

  /** A profile update keeps the table well formed: ids, e-mails and roles do not move. */
  lemma UpdateKeepsWellFormed(users: seq<User>, nextId: int, i: nat, u: User)
    requires UsersWellFormed(users, nextId) && i < |users|
    requires u.id == users[i].id && u.email == users[i].email && UserInvariant(u)
    ensures UsersWellFormed(users[i := u], nextId)
  {
  }

  /** Replacing a user by one with the same id and role keeps every id/role fact. */
  lemma UpdateKeepsRoles(users: seq<User>, i: nat, u: User, id: int, role: Role)
    requires i < |users| && u.id == users[i].id && u.role == users[i].role
    ensures IsUserWithRole(users[i := u], id, role) <==> IsUserWithRole(users, id, role)
  {
    if IsUserWithRole(users, id, role) {
      var j :| 0 <= j < |users| && users[j].id == id && users[j].role == role;
      assert users[i := u][j].id == id && users[i := u][j].role == role;
    }
    if IsUserWithRole(users[i := u], id, role) {
      var j :| 0 <= j < |users| && users[i := u][j].id == id && users[i := u][j].role == role;
      assert users[j].id == id && users[j].role == role;
    }
  }
}
