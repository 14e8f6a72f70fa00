# Yatube posts core in Dafny

A model of the `posts` app of the Yatube blog: accounts publish posts
(optionally in a group), comment on posts and follow other authors. The model
is one immutable `Store` holding a table (a sequence of rows) per entity —
accounts, groups, posts, comments, follow edges — and every view or delete
policy is a pure function from a store (plus the request's inputs) to a
response and, for writes, the next store.

| file | module | what it holds |
|---|---|---|
| `wrappers.dfy` | `Wrappers` | `Option`, for nullable columns and failed lookups |
| `seqs.dfy` | `Seqs` | filtering, row-wise update, lookup by key, unique key columns |
| `models.dfy` | `Models` | `User`, `Group`, `Post`, `Comment`, `Follow`, `Store`; the constraints `Valid`; display strings; newest-first ordering |
| `paging.dfy` | `Paging` | pages of ten |
| `responses.dfy` | `Responses` | the requester (`Actor`) and the responses views return |
| `feeds.dfy` | `Feeds` | the global, group, profile and followed-authors feeds and the detail page |
| `social.dfy` | `Social` | follow / unfollow |
| `posting.dfy` | `Posting` | create post, edit post, add comment |
| `deletion.dfy` | `Deletion` | the `on_delete` policies |

Modelling choices:

- Rows reference each other by id. Usernames and group slugs are unique key
  columns; follow rows are `(user, author)` pairs, and "at most one row per
  pair" is a constraint of `Valid`, not a consequence of the representation.
- Ordering: posts are listed by creation stamp, newest first, with no
  tie-break. The listing the database returns for the whole Post table is an
  input `ordered`, constrained only by `Arranged` (same rows, stamps
  non-increasing); every feed filters that listing. `TiesUnordered` shows the
  constraint leaves equal stamps in either order.
- `pub_date` / `created` are natural-number stamps passed in as `now`.
- The requester is `Anonymous` or `Member(user)`. A login-only view answers an
  anonymous requester with `LoginRedirect` and changes nothing.
- Form validation is an input `accepted`, conjoined with the two checks the
  model fields themselves impose: the text is not blank (the text fields are
  not `blank=True`) and a chosen group exists (a foreign-key choice must
  resolve). The image is an opaque optional path.
- A page number outside `1..NumPages` yields the `EmptyPage` response (see Left out).
- A post displays as the first fifteen characters of its text (`PostLabel`), a
  group as its title (`GroupLabel`).

Behaviour of the code that the model keeps as written:

- The views use no cache, so no cache layer is modelled.
- No tie-break is defined on equal `pub_date`; the model invents none.
- `profile_follow` / `profile_unfollow` compare the requested username with
  the requester's before any lookup, so naming oneself is a no-op even when
  no account has that username.
- The models do not forbid self-follow rows. Only the views avoid creating
  them (`NoSelfEdgeCreated`).
- An anonymous comment is a login redirect (`login_required`); no comment is
  added.

## Model

| member | source | states |
|---|---|---|
| Models.SlugIdentifiesGroup | yatube/posts/models.py:9 | slugs are unique, so looking a group up by its slug returns exactly that group |
| Models.UsernameIdentifiesUser | yatube/posts/views.py:139 | usernames are unique, so the username lookup returns exactly that account |
| Models.AtMostOneEdge | yatube/posts/models.py:97-98 | in a valid store no (user, author) follow row occurs more than once |
| Models.DisplayStrings | yatube/posts/models.py:16-17 | a group displays as its title; a post displays as its whole text when that has at most fifteen characters and as its first fifteen otherwise |
| Models.TestModelLabels | yatube/posts/tests/test_models.py:24-34 | the test group displays as "Тестовая группа", and so does a post whose text is that fifteen-character string |
| Models.PostLabel | yatube/posts/models.py:53-54 | a post displays as a prefix of its text of length 15, or the whole text when shorter |
| Models.TiesUnordered | yatube/posts/models.py:48-49 | the ordering is newest first only: two posts with equal stamps may be listed in either order |
| Paging.NumPages | yatube/posts/views.py:13 | the page count is at least one, holds all rows in pages of ten, and needs every page: one page for an empty listing, otherwise the least number of pages of ten holding all rows |
| Paging.Page | yatube/posts/views.py:13-15 | a page exists exactly for numbers 1..NumPages, holds at most ten rows, slot j of page k is row 10(k-1)+j, pages before the last are full and none is empty unless the listing is |
| Paging.PageOf | yatube/posts/views.py:13-15 | every row i of a listing is on page i/10+1 at slot i%10, so the pages cover the listing |
| Paging.ThirteenRows | yatube/posts/tests/test_views.py:188-225 | thirteen rows make exactly two pages, of ten and three rows, and page three does not exist |
| Feeds.FeedArranged | yatube/posts/views.py:25 | a filtered feed holds exactly the admitted posts of the table, with the same multiplicities, newest first |
| Feeds.ListingOf | yatube/posts/views.py:27-29 | the page is exactly page `number` (in pages of ten) of the feed, newest first, with the feed's page count; it exists exactly for numbers 1..NumPages, otherwise EmptyPage |
| Feeds.Index | yatube/posts/views.py:11-19 | the page is exactly page `number` of the store's posts newest first, with the store's page count; numbers outside 1..NumPages give EmptyPage |
| Feeds.GroupPosts | yatube/posts/views.py:23-37 | an unknown slug is NotFound; otherwise the page names the group with that slug and is exactly page `number` of that group's posts newest first, with their page count, and exists exactly for numbers 1..NumPages of that feed |
| Feeds.Profile | yatube/posts/views.py:41-59 | an unknown username is NotFound; otherwise the page is exactly page `number` of that author's posts newest first, existing exactly for numbers 1..NumPages, and the following flag is absent for an anonymous requester and otherwise true exactly when the follow row exists |
| Feeds.IndexThirteen | yatube/posts/tests/test_views.py:188-196 | with thirteen posts the global feed's first page holds ten, the second three, and a third page is EmptyPage |
| Feeds.GroupThirteen | yatube/posts/tests/test_views.py:198-210 | with thirteen posts all in one group, that group's first page holds ten and the second three |
| Feeds.ProfileThirteen | yatube/posts/tests/test_views.py:212-225 | with thirteen posts all by one author, that author's profile first page holds ten and the second three |
| Feeds.FollowedAuthors | yatube/posts/views.py:122-125 | the collected author list contains exactly the authors of the requester's follow rows |
| Feeds.FollowIndex | yatube/posts/views.py:120-133 | anonymous requesters are redirected to login; otherwise the page is exactly page `number` of the posts by followed authors newest first, with that feed's page count, and exists exactly for numbers 1..NumPages of it |
| Feeds.FollowFeedExact | yatube/posts/views.py:120-126 | the followed feed contains a post exactly when it is in the store and its author is followed, each as often as in the table, newest first |
| Feeds.FollowNobody | yatube/posts/views.py:122-129 | someone with no follow rows gets an empty feed and an empty first page, not an error |
| Feeds.PostDetail | yatube/posts/views.py:63-73 | an unknown id is NotFound; otherwise the page shows the post with that id and exactly the comments on it, each as often as in the comment table |
| Social.ProfileFollow | yatube/posts/views.py:136-143 | only the follow table changes, by appending at most one row, which is new and is the edge from the requester to the account with the named username, never the requester's own; anonymous requests are login redirects |
| Social.ProfileUnfollow | yatube/posts/views.py:146-153 | only the follow table changes, only by removing rows, and only by removing every row of an existing edge from the requester to the named other account |
| Social.FollowAddsEdge | yatube/posts/views.py:136-143 | following another existing author not yet followed appends exactly that edge and leaves everything else as it was |
| Social.FollowIdempotent | yatube/posts/views.py:140-142 | following twice gives the same response and store as following once |
| Social.UnfollowIdempotent | yatube/posts/views.py:150-152 | unfollowing twice gives the same response and store as unfollowing once |
| Social.SelfRequestIgnored | yatube/posts/views.py:138 | naming one's own username redirects and leaves the store unchanged, whatever the account table holds |
| Social.UnknownUsername | yatube/posts/views.py:149 | another username that does not resolve is NotFound for both views and changes nothing |
| Social.UnfollowRemovesEdge | yatube/posts/views.py:146-153 | unfollowing another existing author leaves no such edge and keeps every other edge |
| Social.UnfollowAbsent | yatube/posts/views.py:150-151 | unfollowing an author one does not follow changes nothing |
| Social.FollowThenUnfollow | yatube/posts/views.py:136-153 | unfollow undoes a follow that created an edge: the store is back where it started |
| Social.FollowKeepsValid | yatube/posts/models.py:97-98 | both views keep the store's constraints, in particular at most one row per (user, author) pair |
| Social.NoSelfEdgeCreated | yatube/posts/views.py:138 | the views never create a follow edge from an account to itself |
| Posting.PostCreate | yatube/posts/views.py:78-86 | anonymous is a login redirect, an invalid form re-renders without change, a valid one appends one post with a fresh id authored by the requester and redirects to their profile; only the post table changes |
| Posting.PostEdit | yatube/posts/views.py:91-104 | ids, authors, stamps and the post count never change and posts with other ids are untouched; any change is by the post's author with a valid form and answers with the detail page; unknown ids are NotFound |
| Posting.AddComment | yatube/posts/views.py:109-117 | only the comment table changes, by at most one valid comment on an existing post authored by the requester; the answer is the detail page unless the post is unknown |
| Posting.EditByNonOwner | yatube/posts/views.py:92-94 | an edit by anyone but the author is a redirect to the detail page and changes nothing |
| Posting.EditByOwner | yatube/posts/views.py:95-102 | the author's valid edit keeps the post count, puts the edited fields in that post and keeps every other post |
| Posting.EditShownOnDetail | yatube/posts/tests/test_forms.py:97-111 | after the author's edit the detail page shows the new text |
| Posting.AnonymousCommentIgnored | yatube/posts/tests/test_forms.py:135-146 | an anonymous comment adds no comment |
| Posting.CommentShownOnDetail | yatube/posts/tests/test_forms.py:113-133 | a valid comment shows on its post's detail page, authored by the requester |
| Posting.NewPostHeadsIndex | yatube/posts/views.py:11-15 | a new post stamped later than every other heads the first page of the global feed under any tie order |
| Posting.CreateKeepsValid | yatube/posts/views.py:81-84 | creating a post keeps the store's constraints |
| Posting.EditKeepsValid | yatube/posts/views.py:100-101 | editing a post keeps the store's constraints |
| Posting.CommentKeepsValid | yatube/posts/views.py:112-116 | adding a comment keeps the store's constraints |
| Deletion.DeleteUser | yatube/posts/models.py:27-95 | deleting an account removes it, exactly its posts, exactly its comments and the comments on its posts (every other comment kept with its multiplicity), and exactly the follow edges it is an end of; groups stay |
| Deletion.DeletePost | yatube/posts/models.py:58-61 | deleting a post removes exactly that post and exactly the comments on it, every other comment kept with its multiplicity |
| Deletion.DeleteGroup | yatube/posts/models.py:33-36 | deleting a group removes it and keeps every post in place, clearing the group of exactly the posts that referenced it |
| Deletion.DeleteUserKeepsValid | yatube/posts/models.py:84-95 | after deleting an account nothing refers to it and the store's constraints hold |
| Deletion.DeletePostKeepsValid | yatube/posts/models.py:58-61 | after deleting a post no comment dangles and the constraints hold |
| Deletion.DeleteGroupKeepsValid | yatube/posts/models.py:33-40 | after deleting a group every post id remains and no post refers to a missing group |

## Left out

- Caching: the views shown use no cache; the cache test only exercises the framework's cache object.
- `Paginator.get_page` clamping (non-numeric numbers to page 1, out-of-range numbers to the last page) is framework behaviour; the model answers `EmptyPage` instead.
- Feeds filter one listing of the Post table; the database issues a separate query per feed, and the tie order of those queries is assumed consistent with it.
- Form validation beyond the blank-text and group-choice checks is the boolean input `accepted`; the form classes are not part of this model.
- Posting.PostEdit: the image written is whatever the validated form holds; keeping or clearing the stored file is the form's business.
- Image storage, templates, rendering and `require_http_methods` (a wrong HTTP method) are not modelled.
- Field lengths (`max_length=200`) and slug syntax are not enforced.
- Account and group creation belong to the authentication and admin apps and are not modelled; the store is given.
- `__str__` of Comment and Follow is presentation only.
- Wall-clock time: stamps are natural numbers supplied by the caller.
- Concurrency and transactions: every request is one atomic step.
- The `about` and `core` apps (static pages, error pages) are presentation only.
