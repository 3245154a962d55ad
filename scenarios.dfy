/**
 * Request sequences against a fresh store, each proved from the handlers'
 * contracts alone. Identifiers and times are arbitrary distinct values.
 */
module Scenarios {
  import opened Results
  import opened ObjectIds
  import opened Schemas
  import opened Portfolio

  /** The same username signs up twice: the first succeeds, the second is a conflict whatever the email. */
  method SignupTwice(username: string, email1: string, email2: string, password: string, emailCheck: EmailCheck)
    returns (first: Result<SignupReply, Error>, second: Result<SignupReply, Error>)
    requires ValidUsername(username) && emailCheck(email1).Some?
    ensures first.Ok? && first.value.username == username
    ensures second == Err(UsernameExists)
  {
    var store := new Store();
    first := store.Signup(username, email1, password, None, emailCheck, 1, 1);
    second := store.Signup(username, email2, password, None, emailCheck, 2, 2);
  }

  /** After signing up, the credentials log in and the public profile exists, empty, with the default theme. */
  method SignupThenFetch(username: string, email: string, password: string, emailCheck: EmailCheck)
    returns (login: Result<string, Error>, page: Result<ProfileView, Error>)
    requires ValidUsername(username) && emailCheck(email).Some?
    ensures login == Ok(username)
    ensures page.Ok? && page.value.projects == [] && page.value.blogs == []
    ensures page.Ok? ==> var p := page.value.profile.rec.fields;
              p.headline == Some("") && p.about == Some("") && p.socials == Some(map[]) && p.theme == Some("holo")
  {
    var store := new Store();
    var r := store.Signup(username, email, password, None, emailCheck, 1, 1);
    login := store.Login(username, password);
    page := store.GetProfile(username);
    assert multiset(page.value.projects) == multiset{};
    assert multiset(page.value.blogs) == multiset{};
  }

  /**
   * Two signups whose emails differ only in the case of the domain, under an
   * email check that lower-cases the domain: the raw comparison lets the
   * second through, and two users then store the same address.
   */
  method DuplicateEmailAccepted(emailCheck: EmailCheck)
    returns (second: Result<SignupReply, Error>, emails: seq<string>)
    requires emailCheck("a@example.com") == Some("a@example.com")
    requires emailCheck("a@EXAMPLE.com") == Some("a@example.com")
    ensures second.Ok?
    ensures |emails| == 2 && emails[0] == emails[1] == "a@example.com"
  {
    var store := new Store();
    var first := store.Signup("alice", "a@example.com", "pw", None, emailCheck, 1, 1);
    assert |store.users| == 1 && store.users[0].rec.username == "alice" && store.users[0].rec.email == "a@example.com";
    assert !HasUsername(store.users, "bobby") && !store.EmailTaken("a@EXAMPLE.com");
    second := store.Signup("bobby", "a@EXAMPLE.com", "pw", None, emailCheck, 2, 2);
    emails := [store.users[0].rec.email, store.users[1].rec.email];
  }

  /** The same two signups under the corrected email check: the second is refused. */
  method DuplicateEmailRejected(emailCheck: EmailCheck)
    returns (second: Result<SignupReply, Error>, emails: seq<string>)
    requires emailCheck("a@example.com") == Some("a@example.com")
    requires emailCheck("a@EXAMPLE.com") == Some("a@example.com")
    ensures second == Err(EmailRegistered)
    ensures emails == ["a@example.com"]
  {
    var store := new Store();
    var first := store.SignupUniqueEmail("alice", "a@example.com", "pw", None, emailCheck, 1, 1);
    assert store.users[0].rec.email == "a@example.com";
    second := store.SignupUniqueEmail("bobby", "a@EXAMPLE.com", "pw", None, emailCheck, 2, 2);
    emails := [store.users[0].rec.email];
  }

  /** Another user cannot delete a project by its identifier; its owner can. */
  method DeleteByOwnerOnly(owner: string, other: string, payload: ProjectCreate)
    returns (foreign: Result<(), Error>, own: Result<(), Error>)
    requires owner != other
    ensures foreign == Err(NotFound)
    ensures own == Ok(())
  {
    var store := new Store();
    var id := store.CreateProject(owner, payload, 7);
    ParseText(7);
    foreign := store.DeleteProject(other, id);
    assert store.projects == [Stored(7, ProjectFrom(owner, payload))];
    own := store.DeleteProject(owner, id);
  }

  /** A draft has no publication time and is hidden from the default listing; a published post is listed. */
  method DraftThenPublished(username: string)
    returns (draft: Result<Stored<Blog>, Error>, listed: seq<Stored<Blog>>)
    ensures draft.Ok? && draft.value.rec.publishedAt == None
    ensures |listed| == 1 && listed[0].rec.slug == "world" && listed[0].rec.publishedAt == Some(200)
  {
    var store := new Store();
    var a := store.CreateBlog(username, BlogCreate("hello", "Hello", "...", None, false), 100, 1);
    draft := store.GetBlog(username, "hello");
    var b := store.CreateBlog(username, BlogCreate("world", "World", "...", None, true), 200, 2);
    listed := store.ListBlogs(username, true);
    var world := Stored(2, BlogFrom(username, BlogCreate("world", "World", "...", None, true), 200));
    assert multiset(listed) == multiset{world} by {
      assert multiset(store.blogs)[world] == 1;
    }
    assert listed[0] in multiset(listed);
  }
}
