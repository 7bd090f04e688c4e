/**
 The blog's administrator session and its effect on the post store.

 The session holds one flag, `logged_in`; the database is an abstract map from
 post id to post. Each route handler becomes a pure function from the current
 state and the request's inputs to the next state and the response kind
 (render a page, redirect, not found, or bad request).

 Post ids are `nat`: the routes take them through Flask's `<int:id>` converter,
 which matches only unsigned digit strings, so a negative id never reaches a
 handler. A submitted form field is `None` when the form lacks it; reading a
 missing field raises `KeyError`, which Flask answers with 400 Bad Request.
 The session is committed when the request ends without an unhandled error
 (`SQLALCHEMY_COMMIT_ON_TEARDOWN`), so whatever a handler wrote to a stored
 post before the failing read is saved.
 */
module Blog {
  import opened Wrappers
  import opened Text
  import opened Histogram
  import Seqs

  /** The administrator credentials of the application configuration. */
  const AdminUsername: string := "admin"
  const AdminPassword: string := "admin"

  datatype Post = Post(title: string, text: string, tag: string)

  /** `nextId` stands for the database's primary-key allocation: every stored id is below it. */
  datatype State = State(loggedIn: bool, posts: map<nat, Post>, nextId: nat)

  predicate Valid(st: State) {
    forall id | id in st.posts :: id < st.nextId
  }

  /** Every stored tag has the shape `capitalize` gives it. */
  predicate TagsCapitalized(posts: map<nat, Post>) {
    forall id | id in posts :: IsCapitalized(posts[id].tag)
  }

  datatype Verb = HttpGet | HttpPost

  datatype Response =
    | LoginPage(error: Option<string>)
    | RedirectToLogin
    | RedirectToEntries
    | AddPage
    | UpdatePage(fields: Option<(nat, Post)>)
    | NotFound
    | BadRequest

  datatype Outcome = Outcome(state: State, response: Response)

  /** The form a post is stored in by `add_entry` and `update`: tag capitalized. */
  function Stored(title: string, text: string, tag: string): (p: Post)
    ensures p.title == title && p.text == text
    ensures IsCapitalizationOf(p.tag, tag)
  {
    Post(title, text, Capitalize(tag))
  }

  /** `login`: the username is read and checked before the password is read,
      so a wrong username is reported even when the password field is missing. */
  function Login(st: State, verb: Verb, username: Option<string>, password: Option<string>): (r: Outcome)
    ensures r.state.posts == st.posts && r.state.nextId == st.nextId
    ensures r.state.loggedIn <==>
              st.loggedIn || (verb == HttpPost && username == Some(AdminUsername) && password == Some(AdminPassword))
    ensures verb == HttpPost && username == None ==> r == Outcome(st, BadRequest)
    ensures verb == HttpPost && username.Some? && username.value != AdminUsername ==>
              r == Outcome(st, LoginPage(Some("Invalid username")))
    ensures verb == HttpPost && username == Some(AdminUsername) && password == None ==>
              r == Outcome(st, BadRequest)
    ensures verb == HttpPost && username == Some(AdminUsername) && password.Some? && password.value != AdminPassword ==>
              r == Outcome(st, LoginPage(Some("Invalid password")))
    ensures r.response == RedirectToEntries <==>
              verb == HttpPost && username == Some(AdminUsername) && password == Some(AdminPassword)
    ensures verb == HttpGet ==> r == Outcome(st, LoginPage(None))
  {
    if verb == HttpPost then
      if username.None? then Outcome(st, BadRequest)
      else if username.value != AdminUsername then Outcome(st, LoginPage(Some("Invalid username")))
      else if password.None? then Outcome(st, BadRequest)
      else if password.value != AdminPassword then Outcome(st, LoginPage(Some("Invalid password")))
      else Outcome(st.(loggedIn := true), RedirectToEntries)
    else
      Outcome(st, LoginPage(None))
  }

  function Logout(st: State): (r: Outcome)
    ensures !r.state.loggedIn
    ensures r.state.posts == st.posts && r.state.nextId == st.nextId
    ensures r.response == RedirectToEntries
  {
    Outcome(st.(loggedIn := false), RedirectToEntries)
  }

  /** All three fields of a submitted post form are present. */
  predicate HasFields(title: Option<string>, text: Option<string>, tag: Option<string>) {
    title.Some? && text.Some? && tag.Some?
  }

  function AddEntry(st: State, verb: Verb, title: Option<string>, text: Option<string>, tag: Option<string>): (r: Outcome)
    requires Valid(st)
    ensures Valid(r.state) && r.state.loggedIn == st.loggedIn
    ensures !st.loggedIn ==> r == Outcome(st, RedirectToLogin)
    ensures st.loggedIn && verb == HttpGet ==> r == Outcome(st, AddPage)
    ensures st.loggedIn && verb == HttpPost && !HasFields(title, text, tag) ==> r == Outcome(st, BadRequest)
    ensures st.loggedIn && verb == HttpPost && HasFields(title, text, tag) ==>
              && r.response == RedirectToEntries
              && st.nextId !in st.posts
              && r.state.posts.Keys == st.posts.Keys + {st.nextId}
              && r.state.posts[st.nextId].title == title.value
              && r.state.posts[st.nextId].text == text.value
              && IsCapitalizationOf(r.state.posts[st.nextId].tag, tag.value)
              && (forall id | id in st.posts :: r.state.posts[id] == st.posts[id])
  {
    if !st.loggedIn then Outcome(st, RedirectToLogin)
    else if verb == HttpPost then
      if !HasFields(title, text, tag) then Outcome(st, BadRequest)
      else
        var posts := st.posts[st.nextId := Stored(title.value, text.value, tag.value)];
        Outcome(State(st.loggedIn, posts, st.nextId + 1), RedirectToEntries)
    else Outcome(st, AddPage)
  }

  function DeleteEntry(st: State, id: nat): (r: Outcome)
    ensures r.state.loggedIn == st.loggedIn && r.state.nextId == st.nextId
    ensures !st.loggedIn ==> r == Outcome(st, RedirectToLogin)
    ensures st.loggedIn && id !in st.posts ==> r == Outcome(st, NotFound)
    ensures st.loggedIn && id in st.posts ==>
              && r.response == RedirectToEntries
              && r.state.posts.Keys == st.posts.Keys - {id}
              && (forall other | other in r.state.posts :: r.state.posts[other] == st.posts[other])
  {
    if !st.loggedIn then Outcome(st, RedirectToLogin)
    else if id !in st.posts then Outcome(st, NotFound)
    else Outcome(st.(posts := st.posts - {id}), RedirectToEntries)
  }

  /** `update_entry`: shows the edit form filled with the stored post; never changes the state. */
  function UpdateEntry(st: State, id: nat): (r: Outcome)
    ensures r.state == st
    ensures !st.loggedIn ==> r.response == RedirectToLogin
    ensures st.loggedIn && id !in st.posts ==> r.response == NotFound
    ensures st.loggedIn && id in st.posts ==> r.response == UpdatePage(Some((id, st.posts[id])))
  {
    if !st.loggedIn then Outcome(st, RedirectToLogin)
    else if id !in st.posts then Outcome(st, NotFound)
    else Outcome(st, UpdatePage(Some((id, st.posts[id]))))
  }

  /** What `update` has written to a stored post when a form field turns out to
      be missing: the title is assigned before the text is read, and the text
      before the tag is read. The tag is written only once all three were read. */
  function WrittenBeforeMissing(p: Post, title: Option<string>, text: Option<string>): (q: Post)
    ensures q.tag == p.tag
    ensures q.title == (if title.Some? then title.value else p.title)
    ensures q.text == (if title.Some? && text.Some? then text.value else p.text)
  {
    if title.None? then p
    else if text.None? then p.(title := title.value)
    else p.(title := title.value, text := text.value)
  }

  /** `update`: on a submitted form, rewrites one post in place under the same id.
      The post is looked up before the form is read, so a missing id is
      reported as not found even when form fields are missing too. */
  function Update(st: State, verb: Verb, id: nat, title: Option<string>, text: Option<string>, tag: Option<string>): (r: Outcome)
    ensures r.state.loggedIn == st.loggedIn && r.state.nextId == st.nextId
    ensures !st.loggedIn ==> r == Outcome(st, RedirectToLogin)
    ensures st.loggedIn && verb == HttpGet ==> r == Outcome(st, UpdatePage(None))
    ensures st.loggedIn && verb == HttpPost && id !in st.posts ==> r == Outcome(st, NotFound)
    ensures st.loggedIn && verb == HttpPost && id in st.posts && !HasFields(title, text, tag) ==>
              && r.response == BadRequest
              && r.state.posts.Keys == st.posts.Keys
              && r.state.posts[id].title == (if title.Some? then title.value else st.posts[id].title)
              && r.state.posts[id].text == (if title.Some? && text.Some? then text.value else st.posts[id].text)
              && r.state.posts[id].tag == st.posts[id].tag
              && (forall other | other in st.posts && other != id :: r.state.posts[other] == st.posts[other])
    ensures st.loggedIn && verb == HttpPost && id in st.posts && HasFields(title, text, tag) ==>
              && r.response == RedirectToEntries
              && r.state.posts.Keys == st.posts.Keys
              && r.state.posts[id].title == title.value
              && r.state.posts[id].text == text.value
              && IsCapitalizationOf(r.state.posts[id].tag, tag.value)
              && (forall other | other in st.posts && other != id :: r.state.posts[other] == st.posts[other])
  {
    if !st.loggedIn then Outcome(st, RedirectToLogin)
    else if verb == HttpPost then
      if id !in st.posts then Outcome(st, NotFound)
      else if !HasFields(title, text, tag) then
        Outcome(st.(posts := st.posts[id := WrittenBeforeMissing(st.posts[id], title, text)]), BadRequest)
      else Outcome(st.(posts := st.posts[id := Stored(title.value, text.value, tag.value)]), RedirectToEntries)
    else Outcome(st, UpdatePage(None))
  }

  datatype Request =
    | LoginRequest(verb: Verb, username: Option<string>, password: Option<string>)
    | LogoutRequest
    | AddRequest(verb: Verb, title: Option<string>, text: Option<string>, tag: Option<string>)
    | DeleteRequest(id: nat)
    | UpdateEntryRequest(id: nat)
    | UpdateRequest(verb: Verb, id: nat, title: Option<string>, text: Option<string>, tag: Option<string>)

  /** The one request that opens an administrator session. */
  predicate GrantsLogin(req: Request) {
    req == LoginRequest(HttpPost, Some(AdminUsername), Some(AdminPassword))
  }

  function Handle(st: State, req: Request): (r: Outcome)
    requires Valid(st)
    ensures Valid(r.state)
    ensures TagsCapitalized(st.posts) ==> TagsCapitalized(r.state.posts)
    ensures !st.loggedIn && !GrantsLogin(req) ==> !r.state.loggedIn && r.state.posts == st.posts
  {
    match req
    case LoginRequest(verb, username, password) => Login(st, verb, username, password)
    case LogoutRequest => Logout(st)
    case AddRequest(verb, title, text, tag) => AddEntry(st, verb, title, text, tag)
    case DeleteRequest(id) => DeleteEntry(st, id)
    case UpdateEntryRequest(id) => UpdateEntry(st, id)
    case UpdateRequest(verb, id, title, text, tag) => Update(st, verb, id, title, text, tag)
  }

  /** The state after serving the requests one after another. */
  function Run(st: State, reqs: seq<Request>): (r: State)
    requires Valid(st)
    ensures Valid(r)
    decreases |reqs|
  {
    if |reqs| == 0 then st else Run(Handle(st, reqs[0]).state, reqs[1..])
  }

  /** Whatever requests arrive, every stored tag stays capitalized. */
  lemma {:induction false} RunKeepsTagsCapitalized(st: State, reqs: seq<Request>)
    requires Valid(st) && TagsCapitalized(st.posts)
    ensures TagsCapitalized(Run(st, reqs).posts)
    decreases |reqs|
  {
    if |reqs| > 0 {
      RunKeepsTagsCapitalized(Handle(st, reqs[0]).state, reqs[1..]);
    }
  }

  /** Without a request carrying the right credentials, a logged-out visitor
      never gets a session and never changes a post. */
  lemma {:induction false} RunWithoutLoginChangesNothing(st: State, reqs: seq<Request>)
    requires Valid(st) && !st.loggedIn
    requires forall i :: 0 <= i < |reqs| ==> !GrantsLogin(reqs[i])
    ensures !Run(st, reqs).loggedIn
    ensures Run(st, reqs).posts == st.posts
    decreases |reqs|
  {
    if |reqs| > 0 {
      RunWithoutLoginChangesNothing(Handle(st, reqs[0]).state, reqs[1..]);
    }
  }

  /** `Post.query.all()`: every stored post exactly once, in some order. */
  predicate IsListing(posts: map<nat, Post>, ids: seq<nat>) {
    && Seqs.Distinct(ids)
    && (forall i | 0 <= i < |ids| :: ids[i] in posts)
    && (forall id | id in posts :: id in ids)
  }

  /** The tag of a stored post, looked up by id. */
  function TagOf(posts: map<nat, Post>): nat --> string {
    id requires id in posts => posts[id].tag
  }

  function TagsOf(posts: map<nat, Post>, ids: seq<nat>): (tags: seq<string>)
    requires forall i :: 0 <= i < |ids| ==> ids[i] in posts
    ensures |tags| == |ids|
    ensures forall i :: 0 <= i < |ids| ==> tags[i] == posts[ids[i]].tag
  {
    Seqs.Map(TagOf(posts), ids)
  }

  /** The sidebar of a store: the histogram of its posts' tags in listing order. */
  function SidebarOf(posts: map<nat, Post>, ids: seq<nat>): (h: Hist)
    requires IsListing(posts, ids)
    ensures IsHistogramOf(h, CapitalizeAll(TagsOf(posts, ids)))
  {
    TagHistogram(TagsOf(posts, ids))
  }

  /** The three routes list the posts without ordering them; any two listings
      of the same store give the same sidebar. */
  lemma SidebarIndependentOfListing(posts: map<nat, Post>, ids1: seq<nat>, ids2: seq<nat>)
    requires IsListing(posts, ids1) && IsListing(posts, ids2)
    ensures SidebarOf(posts, ids1) == SidebarOf(posts, ids2)
  {
    forall id
      ensures id in ids1 <==> id in ids2
    {
      assert id in ids1 ==> id in posts;
      assert id in ids2 ==> id in posts;
    }
    Seqs.DistinctSameElements(ids1, ids2);
    Seqs.MapPreservesMultiset(TagOf(posts), ids1, ids2);
    TagHistogramOrderIndependent(TagsOf(posts, ids1), TagsOf(posts, ids2));
  }

  /** Tags written by `add_entry` and `update` are already capitalized, so the
      sidebar's own capitalization leaves them as stored. */
  lemma SidebarOfCapitalizedStore(posts: map<nat, Post>, ids: seq<nat>)
    requires IsListing(posts, ids) && TagsCapitalized(posts)
    ensures CapitalizeAll(TagsOf(posts, ids)) == TagsOf(posts, ids)
    ensures IsHistogramOf(SidebarOf(posts, ids), TagsOf(posts, ids))
  {
    var tags := TagsOf(posts, ids);
    forall i | 0 <= i < |tags|
      ensures IsCapitalized(tags[i])
    {
      var id := ids[i];
      assert id in posts;
      assert IsCapitalized(posts[id].tag);
    }
    CapitalizeAllFixpoint(tags);
  }

  /** A post added by the administrator shows up in the sidebar: its capitalized
      tag gains one, every other tag keeps its count. */
  lemma AddEntryCountsInSidebar(st: State, title: string, text: string, tag: string, ids: seq<nat>, k: string)
    requires Valid(st) && st.loggedIn && IsListing(st.posts, ids)
    ensures IsListing(AddEntry(st, HttpPost, Some(title), Some(text), Some(tag)).state.posts, ids + [st.nextId])
    ensures Lookup(SidebarOf(AddEntry(st, HttpPost, Some(title), Some(text), Some(tag)).state.posts, ids + [st.nextId]), k)
            == Lookup(SidebarOf(st.posts, ids), k) + (if k == Capitalize(tag) then 1 else 0)
  {
    var posts' := AddEntry(st, HttpPost, Some(title), Some(text), Some(tag)).state.posts;
    var ids' := ids + [st.nextId];
    assert IsListing(posts', ids') by {
      assert st.nextId !in ids;
    }
    assert TagsOf(posts', ids') == TagsOf(st.posts, ids) + [Capitalize(tag)];
    CapitalizeIdempotent(tag);
    TagHistogramAppend(TagsOf(st.posts, ids), Capitalize(tag), k);
  }

  /** A post deleted by the administrator leaves the sidebar: its capitalized
      tag loses one, every other tag keeps its count. The old store is listed
      as the new listing plus the deleted post, which by
      `SidebarIndependentOfListing` gives the same sidebar as any other listing. */
  lemma DeleteEntryCountsInSidebar(st: State, id: nat, ids: seq<nat>, k: string)
    requires st.loggedIn && id in st.posts && IsListing(DeleteEntry(st, id).state.posts, ids)
    ensures IsListing(st.posts, ids + [id])
    ensures Lookup(SidebarOf(st.posts, ids + [id]), k)
            == Lookup(SidebarOf(DeleteEntry(st, id).state.posts, ids), k)
               + (if k == Capitalize(st.posts[id].tag) then 1 else 0)
  {
    var posts' := DeleteEntry(st, id).state.posts;
    var ids' := ids + [id];
    assert IsListing(st.posts, ids') by {
      assert id !in ids;
      forall x | x in st.posts
        ensures x in ids'
      {
        if x != id {
          assert x in posts';
        }
      }
    }
    assert TagsOf(st.posts, ids') == TagsOf(posts', ids) + [st.posts[id].tag];
    TagHistogramAppend(TagsOf(posts', ids), st.posts[id].tag, k);
  }
}
