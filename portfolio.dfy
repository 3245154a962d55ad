/**
 * The request handlers of the portfolio backend over an in-memory document
 * store: one sequence of records per collection (`user`, `profile`,
 * `project`, `blog`), each record carrying its store-assigned identifier.
 * State-changing handlers are methods of the store; read-only handlers are
 * functions of its state. The fresh identifier a write receives and the
 * current time are parameters.
 */
module Portfolio {
  import opened Results
  import opened ObjectIds
  import opened Schemas
  import opened Collections

  /** The HTTP errors the handlers raise. */
  datatype Error =
    | UsernameExists      // 400 "Username already exists"
    | EmailRegistered     // 400 "Email already registered"
    | InvalidCredentials  // 401 "Invalid credentials"
    | ProfileNotFound     // 404 "Profile not found"
    | InvalidId           // 400 "Invalid id"
    | NotFound            // 404 "Not found"
    | ValidationFailed    // 500: a record failed its schema constraint and nothing caught it

  /** A stored document: its identifier and its record. */
  datatype Stored<T> = Stored(id: ObjectId, rec: T)

  /** A stored profile: the Profile fields plus the `updated_at` stamp an update adds. */
  datatype ProfileRecord = ProfileRecord(fields: Profile, updatedAt: Option<int>)

  /** Request bodies. */
  datatype ProfileUpdate = ProfileUpdate(
    headline: Option<string>,
    about: Option<string>,
    socials: Option<map<string, string>>,
    theme: Option<string>)

  datatype ProjectCreate = ProjectCreate(
    title: string,
    description: Option<string>,
    tags: seq<string>,
    url: Option<string>,
    imageUrl: Option<string>,
    featured: bool)

  datatype BlogCreate = BlogCreate(
    slug: string,
    title: string,
    content: string,
    coverImage: Option<string>,
    published: bool)

  /** Responses. */
  datatype SignupReply = SignupReply(id: string, username: string)

  datatype ProfileView = ProfileView(
    profile: Stored<ProfileRecord>,
    projects: seq<Stored<Project>>,
    blogs: seq<Stored<Blog>>)

  function Ids<T>(s: seq<Stored<T>>): set<ObjectId> {
    set i | 0 <= i < |s| :: s[i].id
  }

  ghost predicate DistinctIds<T>(s: seq<Stored<T>>) {
    forall i, j :: 0 <= i < j < |s| ==> s[i].id != s[j].id
  }

  /** Removing one document keeps the remaining identifiers distinct. */
  lemma DistinctIdsRemove<T>(s: seq<Stored<T>>, i: nat)
    requires DistinctIds(s) && i < |s|
    ensures DistinctIds(s[..i] + s[i + 1..])
  {
    var t := s[..i] + s[i + 1..];
    forall a, b | 0 <= a < b < |t| ensures t[a].id != t[b].id {
      var a' := if a < i then a else a + 1;
      var b' := if b < i then b else b + 1;
      assert t[a] == s[a'] && t[b] == s[b'];
    }
  }

  predicate HasUsername(users: seq<Stored<User>>, username: string) {
    exists i :: 0 <= i < |users| && users[i].rec.username == username
  }

  /**
   * Users have distinct identifiers and usernames, and every username has 3 to
   * 30 characters.
   * Emails need not be distinct: signup compares the raw request email with
   * the normalized stored ones (see `Store.SignupUniqueEmail`).
   */
  ghost predicate UsersWellFormed(users: seq<Stored<User>>) {
    && DistinctIds(users)
    && (forall i, j :: 0 <= i < j < |users| ==> users[i].rec.username != users[j].rec.username)
    && (forall i :: 0 <= i < |users| ==> ValidUsername(users[i].rec.username))
  }

  /** No two users share an email. */
  ghost predicate EmailsDistinct(users: seq<Stored<User>>) {
    forall i, j :: 0 <= i < j < |users| ==> users[i].rec.email != users[j].rec.email
  }

  /** Appending a user whose email no user has keeps emails distinct. */
  lemma {:induction false} RegisterKeepsEmailsDistinct(users: seq<Stored<User>>, u: Stored<User>)
    requires EmailsDistinct(users)
    requires forall i :: 0 <= i < |users| ==> users[i].rec.email != u.rec.email
    ensures EmailsDistinct(users + [u])
  {
    var t := users + [u];
    forall a, b | 0 <= a < b < |t| ensures t[a].rec.email != t[b].rec.email {
      assert t[a] == users[a];
      if b < |users| {
        assert t[b] == users[b];
      }
    }
  }

  /** Every profile's username is a registered user's. */
  ghost predicate ProfilesOwned(profiles: seq<Stored<ProfileRecord>>, users: seq<Stored<User>>) {
    forall k :: 0 <= k < |profiles| ==> HasUsername(users, profiles[k].rec.fields.username)
  }

  /** No two profiles share a username: each user has at most one profile. */
  ghost predicate ProfileUsernamesDistinct(profiles: seq<Stored<ProfileRecord>>) {
    forall i, j :: 0 <= i < j < |profiles| ==> profiles[i].rec.fields.username != profiles[j].rec.fields.username
  }

  /**
   * A profile for a username no user has yet cannot clash with an owned
   * profile, so appending it keeps profile usernames distinct.
   */
  lemma RegisterKeepsProfilesUnique(profiles: seq<Stored<ProfileRecord>>, users: seq<Stored<User>>,
                                    p: Stored<ProfileRecord>)
    requires ProfilesOwned(profiles, users) && ProfileUsernamesDistinct(profiles)
    requires !HasUsername(users, p.rec.fields.username)
    ensures ProfileUsernamesDistinct(profiles + [p])
  {
    var t := profiles + [p];
    forall a, b | 0 <= a < b < |t| ensures t[a].rec.fields.username != t[b].rec.fields.username {
      assert t[a] == profiles[a];
      if b < |profiles| {
        assert t[b] == profiles[b];
      }
    }
  }

  /** Replacing a profile's record by one with the same username keeps profile usernames distinct. */
  lemma PatchKeepsProfilesUnique(profiles: seq<Stored<ProfileRecord>>, k: nat, rec: ProfileRecord)
    requires k < |profiles| && ProfileUsernamesDistinct(profiles)
    requires rec.fields.username == profiles[k].rec.fields.username
    ensures ProfileUsernamesDistinct(profiles[k := Stored(profiles[k].id, rec)])
  {
  }

  /** Appending a document with a fresh identifier keeps identifiers distinct. */
  lemma DistinctIdsAppend<T>(s: seq<Stored<T>>, d: Stored<T>)
    requires DistinctIds(s) && d.id !in Ids(s)
    ensures DistinctIds(s + [d])
  {
    var t := s + [d];
    forall a, b | 0 <= a < b < |t| ensures t[a].id != t[b].id {
      if b == |s| {
        assert t[a].id in Ids(s);
      }
    }
  }

  /** Registering a user with a new username keeps the users well formed. */
  lemma RegisterKeepsWellFormed(users: seq<Stored<User>>, u: Stored<User>)
    requires UsersWellFormed(users) && u.id !in Ids(users)
    requires !HasUsername(users, u.rec.username)
    requires ValidUsername(u.rec.username)
    ensures UsersWellFormed(users + [u])
  {
    DistinctIdsAppend(users, u);
    var t := users + [u];
    forall a, b | 0 <= a < b < |t| ensures t[a].rec.username != t[b].rec.username {
      if b == |users| {
        assert t[a] == users[a];
      }
    }
  }

  /** Registering a user and its profile keeps every profile owned. */
  lemma RegisterKeepsOwned(profiles: seq<Stored<ProfileRecord>>, users: seq<Stored<User>>,
                           u: Stored<User>, p: Stored<ProfileRecord>)
    requires ProfilesOwned(profiles, users)
    requires p.rec.fields.username == u.rec.username
    ensures ProfilesOwned(profiles + [p], users + [u])
  {
    var t := users + [u];
    forall k | 0 <= k < |profiles| + 1
      ensures HasUsername(t, (profiles + [p])[k].rec.fields.username)
    {
      if k < |profiles| {
        var i :| 0 <= i < |users| && users[i].rec.username == profiles[k].rec.fields.username;
        assert t[i] == users[i];
      } else {
        assert t[|users|] == u;
      }
    }
  }

  // ---------------------------------------------------------------- signup

  /** `display_name or username`: a missing or empty display name falls back to the username. */
  function DisplayName(displayName: Option<string>, username: string): (r: string)
    ensures r == username || (displayName.Some? && r == displayName.value)
    ensures displayName.Some? && displayName.value != "" ==> r == displayName.value
    ensures r == "" ==> username == ""
  {
    if displayName.Some? && displayName.value != "" then displayName.value else username
  }

  /**
   * The User record signup builds; None when it fails the schema (a username
   * length outside 3..30 or a rejected email).
   */
  function SignupUser(username: string, email: string, password: string,
                      displayName: Option<string>, emailCheck: EmailCheck): (r: Option<User>)
    ensures r.Some? <==> ValidUsername(username) && emailCheck(email).Some?
    ensures r.Some? ==> r.value.username == username && r.value.email == emailCheck(email).value
    ensures r.Some? ==> r.value.passwordHash == password && !r.value.verified
    ensures r.Some? ==> r.value.displayName.Some?
                        && (displayName.Some? && displayName.value != "" ==> r.value.displayName == displayName)
                        && (displayName.None? || displayName.value == "" ==> r.value.displayName == Some(username))
    ensures r.Some? ==> r.value.avatarUrl == None && r.value.bio == None
  {
    match NewUser(username, email, password, emailCheck)
    case None => None
    case Some(u) => Some(u.(displayName := Some(DisplayName(displayName, username)), verified := false))
  }

  /** The profile signup provisions: empty headline and about, no socials, the default theme. */
  function EmptyProfile(username: string): (p: Profile)
    ensures p.username == username && p.headline == Some("") && p.about == Some("")
    ensures p.socials == Some(map[]) && p.theme == Some("holo")
  {
    NewProfile(username).(headline := Some(""), about := Some(""))
  }

  // ---------------------------------------------------------------- profile update

  /** The patch has no non-None field, so the handler writes nothing. */
  predicate IsEmptyPatch(patch: ProfileUpdate) {
    patch.headline.None? && patch.about.None? && patch.socials.None? && patch.theme.None?
  }

  /** `$set` of the patch's non-None fields, plus `updated_at` when there is at least one. */
  function ApplyPatch(rec: ProfileRecord, patch: ProfileUpdate, now: int): (r: ProfileRecord)
    ensures r.fields.username == rec.fields.username
    ensures patch.headline.Some? ==> r.fields.headline == patch.headline
    ensures patch.headline.None? ==> r.fields.headline == rec.fields.headline
    ensures patch.about.Some? ==> r.fields.about == patch.about
    ensures patch.about.None? ==> r.fields.about == rec.fields.about
    ensures patch.socials.Some? ==> r.fields.socials == patch.socials
    ensures patch.socials.None? ==> r.fields.socials == rec.fields.socials
    ensures patch.theme.Some? ==> r.fields.theme == patch.theme
    ensures patch.theme.None? ==> r.fields.theme == rec.fields.theme
    ensures r.updatedAt == if IsEmptyPatch(patch) then rec.updatedAt else Some(now)
  {
    var f := rec.fields;
    var fields := Profile(
      f.username,
      if patch.headline.Some? then patch.headline else f.headline,
      if patch.about.Some? then patch.about else f.about,
      if patch.socials.Some? then patch.socials else f.socials,
      if patch.theme.Some? then patch.theme else f.theme);
    ProfileRecord(fields, if IsEmptyPatch(patch) then rec.updatedAt else Some(now))
  }

  /** An empty patch changes nothing, not even `updated_at`. */
  lemma ApplyEmptyPatch(rec: ProfileRecord, patch: ProfileUpdate, now: int)
    requires IsEmptyPatch(patch)
    ensures ApplyPatch(rec, patch, now) == rec
  {
  }

  /** Applying the same patch at the same time twice is the same as applying it once. */
  lemma ApplyPatchIdempotent(rec: ProfileRecord, patch: ProfileUpdate, now: int)
    ensures ApplyPatch(ApplyPatch(rec, patch, now), patch, now) == ApplyPatch(rec, patch, now)
  {
  }

  // ---------------------------------------------------------------- projects and blogs

  /** The Project record built from the path username and the request body. */
  function ProjectFrom(username: string, payload: ProjectCreate): (p: Project)
    ensures p.username == username && p.title == payload.title
    ensures p.description == payload.description && p.tags == payload.tags
    ensures p.url == payload.url && p.imageUrl == payload.imageUrl
    ensures p.featured == payload.featured
  {
    NewProject(username, payload.title).(description := payload.description, tags := payload.tags,
                                          url := payload.url, imageUrl := payload.imageUrl,
                                          featured := payload.featured)
  }

  /** The Blog record built from the path username and the request body, stamped when published. */
  function BlogFrom(username: string, payload: BlogCreate, now: int): (b: Blog)
    ensures b.username == username && b.slug == payload.slug
    ensures b.title == payload.title && b.content == payload.content
    ensures b.coverImage == payload.coverImage && b.published == payload.published
    ensures b.publishedAt.Some? <==> payload.published
    ensures b.publishedAt.Some? ==> b.publishedAt.value == now
  {
    var b := NewBlog(username, payload.slug, payload.title, payload.content)
               .(coverImage := payload.coverImage, published := payload.published);
    if payload.published then b.(publishedAt := Some(now)) else b
  }

  /** The blog filter of a listing: the owner's blogs, only the published ones when asked. */
  predicate Visible(b: Stored<Blog>, username: string, publishedOnly: bool) {
    b.rec.username == username && (publishedOnly ==> b.rec.published)
  }

  /** Sort key of `sort("featured", -1)`. */
  function FeaturedKey(p: Stored<Project>): SortKey {
    BoolKey(p.rec.featured)
  }

  /** Sort key of `sort("published_at", -1)`; a draft has no publication time. */
  function PublishedAtKey(b: Stored<Blog>): SortKey {
    match b.rec.publishedAt
    case None => Missing
    case Some(t) => DateKey(t)
  }

  /** Non-increasing `featured` order: no non-featured project precedes a featured one. */
  lemma FeaturedFirst(s: seq<Stored<Project>>)
    requires SortedDesc(s, FeaturedKey)
    ensures forall i, j :: 0 <= i < j < |s| && s[j].rec.featured ==> s[i].rec.featured
  {
    forall i, j | 0 <= i < j < |s| && s[j].rec.featured ensures s[i].rec.featured {
      assert KeyLe(FeaturedKey(s[j]), FeaturedKey(s[i]));
    }
  }

  /** Non-increasing `published_at` order, a missing stamp sorting lowest. */
  lemma LatestFirst(s: seq<Stored<Blog>>)
    requires SortedDesc(s, PublishedAtKey)
    ensures forall i, j :: 0 <= i < j < |s| ==>
              s[j].rec.publishedAt.None?
              || (s[i].rec.publishedAt.Some? && s[j].rec.publishedAt.value <= s[i].rec.publishedAt.value)
  {
    forall i, j | 0 <= i < j < |s|
      ensures s[j].rec.publishedAt.None?
              || (s[i].rec.publishedAt.Some? && s[j].rec.publishedAt.value <= s[i].rec.publishedAt.value)
    {
      assert KeyLe(PublishedAtKey(s[j]), PublishedAtKey(s[i]));
    }
  }

  // ---------------------------------------------------------------- the store

  class Store {
    var users: seq<Stored<User>>
    var profiles: seq<Stored<ProfileRecord>>
    var projects: seq<Stored<Project>>
    var blogs: seq<Stored<Blog>>

    /**
     * Identifiers are unique within each collection; the users are well formed;
     * every profile belongs to a registered user and no user has two (profiles
     * are only created by signup, after its username check).
     */
    ghost predicate Valid()
      reads this
    {
      && UsersWellFormed(users)
      && DistinctIds(profiles) && ProfilesOwned(profiles, users) && ProfileUsernamesDistinct(profiles)
      && DistinctIds(projects) && DistinctIds(blogs)
    }

    constructor ()
      ensures Valid()
      ensures users == [] && profiles == [] && projects == [] && blogs == []
    {
      users, profiles, projects, blogs := [], [], [], [];
    }

    /** Neither the users nor the profiles differ from the given ones. */
    predicate UsersAndProfilesAre(users0: seq<Stored<User>>, profiles0: seq<Stored<ProfileRecord>>)
      reads this`users, this`profiles
    {
      users == users0 && profiles == profiles0
    }

    predicate EmailTaken(email: string)
      reads this`users
    {
      exists i :: 0 <= i < |users| && users[i].rec.email == email
    }

    /** `find_one({"username": username})` on the profile collection. */
    function FindProfile(username: string): (r: Option<nat>)
      reads this`profiles
      ensures r.Some? ==> r.value < |profiles| && profiles[r.value].rec.fields.username == username
                          && forall j :: 0 <= j < r.value ==> profiles[j].rec.fields.username != username
      ensures r.None? <==> forall k :: 0 <= k < |profiles| ==> profiles[k].rec.fields.username != username
    {
      FindFirst(profiles, (p: Stored<ProfileRecord>) => p.rec.fields.username == username)
    }

    /** `find_one({"_id": oid, "username": username})` on the project collection. */
    function FindProject(oid: ObjectId, username: string): (r: Option<nat>)
      reads this`projects
      ensures r.Some? ==> r.value < |projects| && projects[r.value].id == oid
                          && projects[r.value].rec.username == username
      ensures r.None? <==> forall i :: 0 <= i < |projects| ==>
                             !(projects[i].id == oid && projects[i].rec.username == username)
    {
      FindFirst(projects, (p: Stored<Project>) => p.id == oid && p.rec.username == username)
    }

    /**
     * POST /auth/signup. The email check compares the request's raw email with
     * the stored ones, while the stored User keeps the normalized address.
     */
    method Signup(username: string, email: string, password: string, displayName: Option<string>,
                  emailCheck: EmailCheck, userId: ObjectId, profileId: ObjectId)
      returns (r: Result<SignupReply, Error>)
      requires Valid()
      requires userId !in Ids(users) && profileId !in Ids(profiles)
      modifies this
      ensures Valid()
      ensures projects == old(projects) && blogs == old(blogs)
      ensures if old(HasUsername(users, username)) then r == Err(UsernameExists) && UsersAndProfilesAre(old(users), old(profiles))
              else if old(EmailTaken(email)) then r == Err(EmailRegistered) && UsersAndProfilesAre(old(users), old(profiles))
              else if SignupUser(username, email, password, displayName, emailCheck).None? then
                r == Err(ValidationFailed) && UsersAndProfilesAre(old(users), old(profiles))
              else && r == Ok(SignupReply(Text(userId), username))
                   && users == old(users) + [Stored(userId, SignupUser(username, email, password, displayName, emailCheck).value)]
                   && profiles == old(profiles) + [Stored(profileId, ProfileRecord(EmptyProfile(username), None))]
      ensures r.Ok? ==> Login(username, password) == Ok(username)
      ensures r.Ok? ==> GetProfile(username).Ok?
                        && GetProfile(username).value.profile == Stored(profileId, ProfileRecord(EmptyProfile(username), None))
      ensures r.Ok? ==> forall k :: 0 <= k < |profiles| && profiles[k].rec.fields.username == username ==>
                          k == |profiles| - 1
    {
      if FindFirst(users, (u: Stored<User>) => u.rec.username == username).Some? {
        return Err(UsernameExists);
      }
      if FindFirst(users, (u: Stored<User>) => u.rec.email == email).Some? {
        return Err(EmailRegistered);
      }
      var user := SignupUser(username, email, password, displayName, emailCheck);
      if user.None? {
        return Err(ValidationFailed);
      }
      var newProfile := Stored(profileId, ProfileRecord(EmptyProfile(username), None));
      Register(Stored(userId, user.value), newProfile);
      r := Ok(SignupReply(Text(userId), username));
      FirstProfileIsFetched(username, |profiles| - 1);
      MatchingUserLogsIn(username, password, |users| - 1);
    }

    /**
     * Signup as evidently intended: the duplicate-email check compares the
     * normalized address, the one the User record stores, so a store whose
     * emails are distinct keeps them distinct.
     */
    method SignupUniqueEmail(username: string, email: string, password: string, displayName: Option<string>,
                             emailCheck: EmailCheck, userId: ObjectId, profileId: ObjectId)
      returns (r: Result<SignupReply, Error>)
      requires Valid()
      requires userId !in Ids(users) && profileId !in Ids(profiles)
      modifies this
      ensures Valid()
      ensures old(EmailsDistinct(users)) ==> EmailsDistinct(users)
      ensures projects == old(projects) && blogs == old(blogs)
      ensures if old(HasUsername(users, username)) then r == Err(UsernameExists) && UsersAndProfilesAre(old(users), old(profiles))
              else if emailCheck(email).Some? && old(EmailTaken(emailCheck(email).value)) then
                r == Err(EmailRegistered) && UsersAndProfilesAre(old(users), old(profiles))
              else if SignupUser(username, email, password, displayName, emailCheck).None? then
                r == Err(ValidationFailed) && UsersAndProfilesAre(old(users), old(profiles))
              else && r == Ok(SignupReply(Text(userId), username))
                   && users == old(users) + [Stored(userId, SignupUser(username, email, password, displayName, emailCheck).value)]
                   && profiles == old(profiles) + [Stored(profileId, ProfileRecord(EmptyProfile(username), None))]
    {
      if FindFirst(users, (u: Stored<User>) => u.rec.username == username).Some? {
        return Err(UsernameExists);
      }
      var normalized := emailCheck(email);
      if normalized.Some? && FindFirst(users, (u: Stored<User>) => u.rec.email == normalized.value).Some? {
        return Err(EmailRegistered);
      }
      var user := SignupUser(username, email, password, displayName, emailCheck);
      if user.None? {
        return Err(ValidationFailed);
      }
      var newProfile := Stored(profileId, ProfileRecord(EmptyProfile(username), None));
      ghost var before := users;
      Register(Stored(userId, user.value), newProfile);
      if EmailsDistinct(before) {
        RegisterKeepsEmailsDistinct(before, Stored(userId, user.value));
      }
      r := Ok(SignupReply(Text(userId), username));
    }

    /**
     * The two `create_document` calls of signup: the user, then its profile.
     * The new profile is then the first (and only) one with that username.
     */
    method Register(user: Stored<User>, profile: Stored<ProfileRecord>)
      requires Valid()
      requires user.id !in Ids(users) && profile.id !in Ids(profiles)
      requires !HasUsername(users, user.rec.username)
      requires ValidUsername(user.rec.username)
      requires profile.rec.fields.username == user.rec.username
      modifies this
      ensures Valid()
      ensures users == old(users) + [user] && profiles == old(profiles) + [profile]
      ensures projects == old(projects) && blogs == old(blogs)
      ensures FindProfile(user.rec.username) == Some(|old(profiles)|)
      ensures forall k :: 0 <= k < |profiles| && profiles[k].rec.fields.username == user.rec.username ==>
                k == |old(profiles)|
    {
      var username := user.rec.username;
      assert forall k :: 0 <= k < |profiles| ==> profiles[k].rec.fields.username != username;
      FindFirstAppended(profiles, profile, (p: Stored<ProfileRecord>) => p.rec.fields.username == username);
      RegisterKeepsWellFormed(users, user);
      RegisterKeepsOwned(profiles, users, user, profile);
      RegisterKeepsProfilesUnique(profiles, users, profile);
      DistinctIdsAppend(profiles, profile);
      users := users + [user];
      profiles := profiles + [profile];
    }

    /** POST /auth/login */
    function Login(username: string, password: string): (r: Result<string, Error>)
      reads this`users
      ensures r.Ok? <==> exists i :: 0 <= i < |users| && users[i].rec.username == username
                                                       && users[i].rec.passwordHash == password
      ensures r.Ok? ==> r.value == username
      ensures r.Err? ==> r.error == InvalidCredentials
    {
      match FindFirst(users, (u: Stored<User>) => u.rec.username == username && u.rec.passwordHash == password)
      case None => Err(InvalidCredentials)
      case Some(_) => Ok(username)
    }

    /** Login succeeds as soon as one user has both the username and the password. */
    lemma MatchingUserLogsIn(username: string, password: string, i: nat)
      requires i < |users| && users[i].rec.username == username && users[i].rec.passwordHash == password
      ensures Login(username, password) == Ok(username)
    {
    }

    /** The first profile with a username is the one its public page shows. */
    lemma FirstProfileIsFetched(username: string, k: nat)
      requires FindProfile(username) == Some(k)
      ensures GetProfile(username).Ok? && GetProfile(username).value.profile == profiles[k]
    {
    }

    /** GET /profiles/{username} */
    function GetProfile(username: string): (r: Result<ProfileView, Error>)
      reads this`profiles, this`projects, this`blogs
      ensures r.Err? <==> forall k :: 0 <= k < |profiles| ==> profiles[k].rec.fields.username != username
      ensures r.Err? ==> r.error == ProfileNotFound
      ensures r.Ok? ==> exists k :: 0 <= k < |profiles| && r.value.profile == profiles[k]
                                    && r.value.profile.rec.fields.username == username
                                    && forall j :: 0 <= j < k ==> profiles[j].rec.fields.username != username
      ensures r.Ok? ==> r.value.projects == ListProjects(username)
                        && r.value.blogs == ListBlogs(username, true)
      ensures r.Ok? ==> forall i :: 0 <= i < |r.value.projects| ==> r.value.projects[i].rec.username == username
      ensures r.Ok? ==> forall i :: 0 <= i < |r.value.blogs| ==>
                          r.value.blogs[i].rec.username == username && r.value.blogs[i].rec.published
    {
      match FindProfile(username)
      case None => Err(ProfileNotFound)
      case Some(k) => Ok(ProfileView(profiles[k], ListProjects(username), ListBlogs(username, true)))
    }

    /** PUT /profiles/{username} */
    method UpdateProfile(username: string, patch: ProfileUpdate, now: int)
      returns (r: Result<Stored<ProfileRecord>, Error>)
      requires Valid()
      modifies this
      ensures Valid()
      ensures users == old(users) && projects == old(projects) && blogs == old(blogs)
      ensures old(FindProfile(username)).None? ==> r == Err(ProfileNotFound) && profiles == old(profiles)
      ensures old(FindProfile(username)).Some? ==>
                var k := old(FindProfile(username)).value;
                && (IsEmptyPatch(patch) ==> profiles == old(profiles))
                && (!IsEmptyPatch(patch) ==>
                      profiles == old(profiles)[k := Stored(old(profiles)[k].id, ApplyPatch(old(profiles)[k].rec, patch, now))])
                && r == Ok(profiles[k])
    {
      var found := FindProfile(username);
      if found.None? {
        return Err(ProfileNotFound);
      }
      var k := found.value;
      if !IsEmptyPatch(patch) {
        assert HasUsername(users, profiles[k].rec.fields.username);
        PatchKeepsProfilesUnique(profiles, k, ApplyPatch(profiles[k].rec, patch, now));
        profiles := profiles[k := Stored(profiles[k].id, ApplyPatch(profiles[k].rec, patch, now))];
        assert HasUsername(users, profiles[k].rec.fields.username);
      }
      var again := FindProfile(username);
      assert again == Some(k);
      r := Ok(profiles[again.value]);
    }

    /** POST /profiles/{username}/projects */
    method CreateProject(username: string, payload: ProjectCreate, newId: ObjectId) returns (id: string)
      requires Valid()
      requires newId !in Ids(projects)
      modifies this
      ensures Valid()
      ensures users == old(users) && profiles == old(profiles) && blogs == old(blogs)
      ensures projects == old(projects) + [Stored(newId, ProjectFrom(username, payload))]
      ensures id == Text(newId)
      ensures multiset(ListProjects(username)) == old(multiset(ListProjects(username))) + multiset{Stored(newId, ProjectFrom(username, payload))}
    {
      var created := Stored(newId, ProjectFrom(username, payload));
      ghost var before := ListProjects(username);
      DistinctIdsAppend(projects, created);
      projects := projects + [created];
      id := Text(newId);
      ListingAfterAppend(before, ListProjects(username), old(projects), created,
                         (p: Stored<Project>) => p.rec.username == username);
    }

    /** GET /profiles/{username}/projects */
    function ListProjects(username: string): (r: seq<Stored<Project>>)
      reads this`projects
      ensures forall p :: multiset(r)[p] == if p.rec.username == username then multiset(projects)[p] else 0
      ensures forall i :: 0 <= i < |r| ==> r[i].rec.username == username
      ensures forall i, j :: 0 <= i < j < |r| && r[j].rec.featured ==> r[i].rec.featured
    {
      var mine := (p: Stored<Project>) => p.rec.username == username;
      var owned := Filter(projects, mine);
      var sorted := SortDesc(owned, FeaturedKey);
      PermutationKeepsMatching(owned, sorted, mine);
      FeaturedFirst(sorted);
      sorted
    }

    /** DELETE /profiles/{username}/projects/{project_id} */
    method DeleteProject(username: string, projectId: string) returns (r: Result<(), Error>)
      requires Valid()
      modifies this
      ensures Valid()
      ensures users == old(users) && profiles == old(profiles) && blogs == old(blogs)
      ensures !IsObjectIdText(projectId) ==> r == Err(InvalidId) && projects == old(projects)
      ensures IsObjectIdText(projectId) ==>
                match old(FindProject(Parse(projectId).value, username))
                case None => r == Err(NotFound) && projects == old(projects)
                case Some(i) => r == Ok(()) && projects == old(projects)[..i] + old(projects)[i + 1..]
      ensures forall p: Stored<Project> :: p.rec.username != username ==> multiset(projects)[p] == multiset(old(projects))[p]
    {
      var oid := Parse(projectId);
      if oid.None? {
        return Err(InvalidId);
      }
      var found := FindProject(oid.value, username);
      if found.None? {
        return Err(NotFound);
      }
      var i := found.value;
      ghost var before := projects;
      assert before[i].id == oid.value && before[i].rec.username == username;
      projects := projects[..i] + projects[i + 1..];
      RemoveAt(before, i);
      DistinctIdsRemove(before, i);
      assert Valid();
      r := Ok(());
    }

    /** POST /profiles/{username}/blogs */
    method CreateBlog(username: string, payload: BlogCreate, now: int, newId: ObjectId) returns (id: string)
      requires Valid()
      requires newId !in Ids(blogs)
      modifies this
      ensures Valid()
      ensures users == old(users) && profiles == old(profiles) && projects == old(projects)
      ensures blogs == old(blogs) + [Stored(newId, BlogFrom(username, payload, now))]
      ensures id == Text(newId)
      ensures payload.published ==> multiset(ListBlogs(username, true)) == old(multiset(ListBlogs(username, true))) + multiset{Stored(newId, BlogFrom(username, payload, now))}
      ensures !payload.published ==> multiset(ListBlogs(username, true)) == old(multiset(ListBlogs(username, true)))
    {
      var created := Stored(newId, BlogFrom(username, payload, now));
      ghost var before := ListBlogs(username, true);
      DistinctIdsAppend(blogs, created);
      blogs := blogs + [created];
      id := Text(newId);
      var visible := (b: Stored<Blog>) => Visible(b, username, true);
      assert visible(created) == payload.published;
      ListingAfterAppend(before, ListBlogs(username, true), old(blogs), created, visible);
    }

    /** GET /profiles/{username}/blogs?published_only= */
    function ListBlogs(username: string, publishedOnly: bool := true): (r: seq<Stored<Blog>>)
      reads this`blogs
      ensures forall b :: multiset(r)[b] == if Visible(b, username, publishedOnly) then multiset(blogs)[b] else 0
      ensures forall i, j :: 0 <= i < j < |r| ==>
                r[j].rec.publishedAt.None?
                || (r[i].rec.publishedAt.Some? && r[j].rec.publishedAt.value <= r[i].rec.publishedAt.value)
      ensures forall i :: 0 <= i < |r| ==> r[i].rec.username == username && (publishedOnly ==> r[i].rec.published)
    {
      var visible := (b: Stored<Blog>) => Visible(b, username, publishedOnly);
      var owned := Filter(blogs, visible);
      var sorted := SortDesc(owned, PublishedAtKey);
      PermutationKeepsMatching(owned, sorted, visible);
      LatestFirst(sorted);
      sorted
    }

    /** GET /profiles/{username}/blogs/{slug} */
    function GetBlog(username: string, slug: string): (r: Result<Stored<Blog>, Error>)
      reads this`blogs
      ensures r.Ok? <==> exists i :: 0 <= i < |blogs| && blogs[i].rec.username == username && blogs[i].rec.slug == slug
      ensures r.Ok? ==> exists i :: 0 <= i < |blogs| && r.value == blogs[i]
                                    && r.value.rec.username == username && r.value.rec.slug == slug
                                    && forall j :: 0 <= j < i ==> !(blogs[j].rec.username == username && blogs[j].rec.slug == slug)
      ensures r.Err? ==> r.error == NotFound
    {
      match FindFirst(blogs, (b: Stored<Blog>) => b.rec.username == username && b.rec.slug == slug)
      case None => Err(NotFound)
      case Some(i) => Ok(blogs[i])
    }
  }
}
