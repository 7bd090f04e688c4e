# Flask blog: tag sidebar and administrator session, in Dafny

This project models the application logic of a small Flask blog (`app.py`).
An administrator logs in and can add, edit and delete posts. Each post has a
title, a body text and one free-text tag. The index page, the tag page and
the post page (`show_entries`, `show_tags` and `post`) show a sidebar that
lists each distinct tag with the number of posts that carry it. The login
and about pages do not.

The model covers two parts of `app.py`:

- **The sidebar tag histogram.** The code is written out three times, in
  `show_entries`, `show_tags` and `post`. It capitalizes every post's tag,
  takes the set of distinct tags, counts each one with `list.count`, zips the
  set with the counts into a `dict`, and sorts the dict's items by tag.
  - `Sidebar.SidebarTags` follows these steps, except that the `dict` step
    is folded into the sort. The zipped pairs already have distinct keys,
    so the dict's items are the same pairs in some order.
    `Sidebar.SortedZipIsHistogram` accepts any order of the pairs. Python's set
    iteration order is unspecified, and string hashing is randomized, so the
    order can differ from one run of the server to the next. The model lets
    the set be visited in any order. The code walks the same set twice: once
    to count (`app.py:64`) and once inside `zip(tags, tag_num)`
    (`app.py:68`). The model assumes both walks see the same order, which
    holds because the set is not modified in between. One recorded order
    (`order` in `Sidebar.CountDistinct`) serves both walks, so each tag is
    paired with its own count.
  - `Histogram.TagHistogram` is a reference computation. It adds one tag at a
    time to a sorted histogram.
  - `Histogram.IsHistogramOf` defines a correct histogram in the source's own
    terms: keys are the distinct capitalized tags, each count is `count` of
    that key, and keys are in ascending order. `Histogram.HistogramUnique`
    shows that only one sequence meets this definition. So the route code and
    the reference always agree, and the result does not depend on the order
    of the posts or of the set.
- **The administrator session and the post store.** The session is one
  boolean, `logged_in`. The database is an abstract `map<nat, Post>`.
  - `login`, `logout`, `add_entry`, `delete_entry`, `update_entry` and
    `update` are pure functions from a state and a request to a new state and
    a response kind (render a page, redirect, not found, or bad request).
  - Post ids are `nat`. The routes take the id through Flask's `<int:id>`
    converter (`app.py:138`, `app.py:148`, `app.py:159`), which matches only
    unsigned digits. A negative id never reaches a handler.
  - Each form field is an `Option<string>`, with `None` for a field the form
    lacks. The handlers read fields with `request.form[...]`. A missing field
    raises `KeyError`, and Flask answers 400 Bad Request in the
    configuration described under "## Left out". The session is
    committed at the end of the request (`SQLALCHEMY_COMMIT_ON_TEARDOWN`,
    `app.py:17`), so whatever was written before the failing read is saved.
    The model follows the order of the reads:
    - `login` checks the username before it reads the password
      (`app.py:187-190`).
    - `add_entry` reads all three fields before it builds the post, so a
      missing field adds nothing (`app.py:131`).
    - `update` looks the post up before it reads the form. It assigns the
      title before it reads the text, and the text before it reads the tag
      (`app.py:164-167`). A form with a title but no text therefore still
      changes the stored title.
  - `Blog.Run` serves a sequence of requests. Lemmas about it show two things.
    Every stored tag stays capitalized. In one client's stream of requests,
    without the credentials the `logged_in` flag is never set and no post
    changes.

`Text.Capitalize` models Python's `str.capitalize` on ASCII: the first
character is upper-cased and the rest lower-cased. `StringOrder.Less` models
Python's `<` on `str`, which `sorted` uses on the tag keys.

Two details of the code shape the model:

- Deleting a post does not delete its comments. The relationship is declared
  without a cascade (`app.py:35`, `app.py:143-144`). Comments are outside this
  model in any case.
- The `update` route with a GET request renders the edit form with no
  fields. It does not look the post up, so a missing id gives no not-found
  response there (`app.py:178-179`).

## Model

| member | source | states |
|---|---|---|
| Text.Capitalize | app.py:60 | The result has the same length as the input. It spells the same letters up to ASCII case. Its first character is not lower-case, and no later character is upper-case. |
| Text.CapitalizationUnique | app.py:60 | Any string with the capitalized shape that spells `s` up to case equals `Capitalize(s)`, so the contract pins the function down. |
| Text.CapitalizeFixpoint | app.py:131 | `Capitalize(s) == s` holds exactly when `s` already has the capitalized shape. |
| Text.CapitalizeIdempotent | app.py:167 | Capitalizing an already capitalized tag changes nothing. |
| Text.CapitalizeAll | app.py:58-60 | One capitalized tag per post, in listing order. |
| Text.CapitalizeAllFixpoint | app.py:59-60 | When every tag is already capitalized, the sidebar's capitalization loop returns the tags unchanged. |
| StringOrder.LessIrreflexive | app.py:69 | No tag sorts before itself. |
| StringOrder.LessTransitive | app.py:69 | The tag order is transitive. |
| StringOrder.LessTotal | app.py:69 | Any two different tags are ordered one way or the other, so sorting by key is well defined. |
| StringOrder.LessAsymmetric | app.py:69 | Two tags are never each before the other. |
| Histogram.Count | app.py:65 | `tagss.count(k)` is the multiplicity of `k` in the multiset of capitalized tags. |
| Histogram.Tally | app.py:63-66 | The reference histogram is strictly ascending. Its keys are exactly the given keys. Each stored count equals the number of occurrences. The counts sum to the number of keys. |
| Histogram.TagHistogram | app.py:58-69 | The result is the histogram of the capitalized tags. Its keys are the distinct capitalized tags in strictly ascending order, and each count is that tag's `count`. |
| Histogram.AscendingKeysUnique | app.py:61 | Two strictly ascending histograms with the same key set list their keys in the same order. |
| Histogram.HistogramUnique | app.py:61-69 | Only one sequence is the histogram of a given list of tags. |
| Histogram.HistogramOfPermutation | app.py:63-66 | A histogram of one list of tags is also the histogram of any reordering of that list. |
| Histogram.HistogramTotal | app.py:58-66 | The counts of any histogram sum to the number of posts. |
| Histogram.HistogramCountsPositive | app.py:63-66 | Every count in the histogram is at least one. |
| Histogram.TagHistogramCoverage | app.py:58-61 | A tag is a sidebar key exactly when some post's capitalized tag equals it. |
| Histogram.TagHistogramOrderIndependent | app.py:56-69 | Two tag lists with the same multiset give the same sidebar. |
| Histogram.TagHistogramLookup | app.py:63-68 | The count shown for any tag is the number of posts whose capitalized tag is that tag. It is 0 when no post has that tag. |
| Histogram.TagHistogramAppend | app.py:58-66 | Adding one more post with tag `t` adds one to the count of `t` capitalized and leaves every other count unchanged. |
| Sidebar.InsertByKey | app.py:69 | Inserting a pair whose key is new into an ascending sequence adds exactly that pair. |
| Sidebar.InsertByKeyAscending | app.py:69 | That insertion keeps the keys strictly ascending and adds only the new key. |
| Sidebar.SortByKey | app.py:69 | Sorting pairs with distinct keys gives a strictly ascending permutation of the pairs. |
| Sidebar.Zip | app.py:68 | Pairs the i-th distinct tag with the i-th count. |
| Sidebar.CapitalizeTags | app.py:58-60 | The loop builds a list with one entry per post, and each entry is the capitalization of that post's tag. |
| Sidebar.CountDistinct | app.py:61-66 | The set is visited in any order. The visited tags are each distinct tag exactly once, and each count is that tag's multiplicity. |
| Sidebar.SortedZipIsHistogram | app.py:68-69 | Sorting the zipped pairs gives the histogram, whatever order the set was visited in. |
| Sidebar.SidebarTags | app.py:58-69 | The route code's `dict_tag` is the histogram of the capitalized tags and equals the reference `TagHistogram`. The copies at app.py:82-93 and app.py:110-121 are the same code. |
| Blog.Stored | app.py:131 | A stored post keeps the submitted title and text, and its tag is the capitalization of the submitted tag. |
| Blog.Login | app.py:185-195 | A missing username field is a bad request. A wrong username gives "Invalid username" whatever the password, even a missing one, and the state does not change. A right username with a missing password field is a bad request. A right username with a wrong password gives "Invalid password". The flag becomes set exactly when both match. A GET only renders the form. Posts are never touched. |
| Blog.Logout | app.py:198-202 | The flag is cleared unconditionally, and the store does not change. |
| Blog.AddEntry | app.py:126-135 | Logged out: redirect to login, nothing changes. GET: form, nothing changes. POST with a missing field: bad request, nothing changes. POST otherwise: exactly one new post under a fresh id, with the submitted title and text and a capitalized tag. Every existing post is unchanged. |
| Blog.DeleteEntry | app.py:138-146 | Logged out: redirect to login, nothing changes. Missing id: not found, nothing changes. Otherwise exactly that post is removed and every other post is unchanged. |
| Blog.UpdateEntry | app.py:148-157 | The state never changes. Logged out: redirect to login. Missing id: not found. Otherwise the form shows the stored post under its id. |
| Blog.WrittenBeforeMissing | app.py:164-167 | When a form field is missing, the post keeps the writes made before the failing read: the title if it was submitted, the text only if the title was submitted too. The tag is never changed. |
| Blog.Update | app.py:159-179 | Logged out: redirect to login, nothing changes. GET: blank form. POST on a missing id: not found, even when fields are missing too. POST on a stored id with a missing field: bad request; the title is replaced when it was submitted, the text too when both title and text were submitted, the tag is kept, and every other post is unchanged. POST otherwise: the same ids remain, and the target post gets the new title, text and capitalized tag. Every other post is unchanged. |
| Blog.Handle | app.py:126-202 | Every request keeps ids below the allocator and keeps stored tags capitalized. Logged out, no request except the right login sets the flag or changes a post. |
| Blog.Run | app.py:126-202 | Serving requests one after another keeps every stored id below the allocator. |
| Blog.RunKeepsTagsCapitalized | app.py:131 | After any sequence of requests, every stored tag is capitalized. |
| Blog.RunWithoutLoginChangesNothing | app.py:187-192 | A logged-out visitor who never sends the right credentials stays logged out, and the posts stay exactly as they were. |
| Blog.TagsOf | app.py:82-84 | The listed posts' tags, in listing order. |
| Blog.SidebarOf | app.py:80-93 | The sidebar of a store is the histogram of its posts' capitalized tags. |
| Blog.SidebarIndependentOfListing | app.py:108-121 | Any two listings of the same store give the same sidebar. `Post.query.all()` is unordered, so the three routes agree. |
| Blog.SidebarOfCapitalizedStore | app.py:110-113 | When every stored tag is capitalized, the sidebar's capitalization leaves the listed tags unchanged, and the sidebar is the plain histogram of the stored tags. |
| Blog.AddEntryCountsInSidebar | app.py:130-134 | After an administrator adds a post, the post's capitalized tag gains exactly one in the sidebar, and every other tag keeps its count. |
| Blog.DeleteEntryCountsInSidebar | app.py:142-146 | After an administrator deletes a post, its capitalized tag loses exactly one in the sidebar, and every other tag keeps its count. |

## Left out

- Text.Capitalize: covers ASCII letters only. Every other character passes through unchanged. Python's `str.capitalize` also changes the case of non-ASCII letters, sometimes into several characters.
- Blog.AddEntry: the database assigns primary keys. The model stands for that with a counter, `nextId`, that is always above every stored id. SQLite can reuse the largest id after that row is deleted; the counter never reuses an id. Both give a fresh id.
- Flask routing, template rendering, `flash` messages, `redirect`/`url_for` and the session cookie are framework I/O. The responses are reduced to their kind, and the session to the `logged_in` flag.
- Forged sessions are not modelled. The cookie is signed with the fixed key in `app.py:15`, so anyone who knows that key can set `logged_in` without the credentials. The model's guarantees are about the flag as the handlers set it.
- Blog.Update: follows the configuration in which Flask answers a missing field with 400 and the teardown commit saves the partial write. With `DEBUG=True` (`app.py:16`) Flask 1.0 and later re-raise the `KeyError`, answer 500, and commit nothing. The model does not cover that configuration.
- Blog.Login, Blog.AddEntry: in that `DEBUG=True` configuration, a missing field gives 500 instead of the modelled `BadRequest`. Neither route changes state on that path, so only the response kind differs.
- Pagination (`.paginate`) and the post lists of `show_entries` and `show_tags` come from SQLAlchemy library behaviour. So does the exact-match tag filter of `show_tags`.
- Comments are left out. The `post` route's comment insertion is a plain database insert with no logic.
- `datetime.now()` timestamps are clock reads and are not modelled.
- Loading configuration from `FLASKR_SETTINGS` is left out. The credentials are the defaults in `app.py:18-19`.
- The `about` page is static.
- The model serves requests one at a time, each as one atomic step. Concurrent requests are not modelled.
- The model has one session. The application keeps one `logged_in` flag per client cookie, over one shared store. The model's flag and `Blog.RunWithoutLoginChangesNothing` describe a single client's requests. Another client's login and edits are not modelled.
- URL routing is not modelled. The router answers 404 itself for an id that is not an unsigned digit string, before any handler runs. Request ids are `nat`, so such requests do not exist in the model.
