/**
 * The four record shapes of the document store (User, Profile, Project,
 * Blog), their field defaults and the one length constraint they carry.
 * Timestamps are integers supplied by the caller.
 */
module Schemas {
  import opened Results

  const USERNAME_MIN_LENGTH: nat := 3
  const USERNAME_MAX_LENGTH: nat := 30
  const DEFAULT_THEME: string := "holo"

  datatype User = User(
    username: string,
    email: string,
    passwordHash: string,
    displayName: Option<string>,
    avatarUrl: Option<string>,
    bio: Option<string>,
    verified: bool)

  datatype Profile = Profile(
    username: string,
    headline: Option<string>,
    about: Option<string>,
    socials: Option<map<string, string>>,
    theme: Option<string>)

  datatype Project = Project(
    username: string,
    title: string,
    description: Option<string>,
    tags: seq<string>,
    url: Option<string>,
    imageUrl: Option<string>,
    featured: bool)

  datatype Blog = Blog(
    username: string,
    slug: string,
    title: string,
    content: string,
    coverImage: Option<string>,
    published: bool,
    publishedAt: Option<int>)

  /** The username constraint of the User record. */
  predicate ValidUsername(username: string) {
    USERNAME_MIN_LENGTH <= |username| <= USERNAME_MAX_LENGTH
  }

  /**
   * Validation of an `EmailStr` field, which lies outside this model: None
   * when the address is rejected, otherwise the address in the normalized
   * form the record stores (outer whitespace stripped, domain lower-cased).
   */
  type EmailCheck = string -> Option<string>

  /**
   * Building a User record: the required fields are given, the optional ones
   * are defaulted, and construction fails (None) when the username violates
   * its length constraint or the email is rejected. The record keeps the
   * normalized email, not the one given.
   */
  function NewUser(username: string, email: string, passwordHash: string, emailCheck: EmailCheck): (r: Option<User>)
    ensures r.Some? <==> 3 <= |username| <= 30 && emailCheck(email).Some?
    ensures r.Some? ==> r.value.username == username && r.value.email == emailCheck(email).value
                        && r.value.passwordHash == passwordHash
    ensures r.Some? ==> r.value.displayName == None && r.value.avatarUrl == None
                        && r.value.bio == None && !r.value.verified
  {
    match emailCheck(email)
    case None => None
    case Some(normalized) =>
      if ValidUsername(username) then
        Some(User(username, normalized, passwordHash, None, None, None, false))
      else None
  }

  /** A Profile record with every optional field defaulted. */
  function NewProfile(username: string): (p: Profile)
    ensures p.username == username
    ensures p.headline == None && p.about == None
    ensures p.socials == Some(map[]) && p.theme == Some("holo")
  {
    Profile(username, None, None, Some(map[]), Some(DEFAULT_THEME))
  }

  /** A Project record from its two required fields. */
  function NewProject(username: string, title: string): (p: Project)
    ensures p.username == username && p.title == title
    ensures p.description == None && p.tags == [] && p.url == None
    ensures p.imageUrl == None && !p.featured
  {
    Project(username, title, None, [], None, None, false)
  }

  /** A Blog record from its four required fields. */
  function NewBlog(username: string, slug: string, title: string, content: string): (b: Blog)
    ensures b.username == username && b.slug == slug
    ensures b.title == title && b.content == content
    ensures b.coverImage == None && !b.published && b.publishedAt == None
  {
    Blog(username, slug, title, content, None, false, None)
  }
}
