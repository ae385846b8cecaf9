# Yatube posts: a verified model of the store and its request handlers

Yatube is a small blog application. Users publish posts, which may belong to a
group. Other users comment on posts and follow authors. Several paginated feeds
list the posts. This project models the `posts` app:

- the four tables (groups, posts, comments, follow edges) and the users they
  refer to;
- the constraints the schema declares;
- what deleting a row does to the other tables;
- the rules each request handler applies to the store.

Files:

- `querysets.dfy` (module `QuerySets`): the ORM behaviour the handlers rely on.
  It covers `filter`, the default ordering (`ordering = ("-pub_date",)`, as a
  stable newest-first ordering on a natural-number stamp), `.get` /
  `get_object_or_404` (`FindIndex`), `get_or_create` and deleting one row.
- `paging.dfy` (module `Paging`): cutting a feed into pages of `POSTS_PER_PAGE`
  rows.
- `models.dfy` (module `Models`): the records, the store snapshot `Tables`, the
  schema invariant `Valid`, the `__str__` helpers and the `on_delete` rules.
  The `on_delete` rules are pure functions on `Tables`.
- `views.dfy` (module `Views`): the read-only pages as functions of `Tables`.
  The handlers that write are methods of the `Store` class. The class holds one
  sequence per table and keeps `Valid`.

Every handler outcome is a `Response`:

- `Ok`: the page, or the redirect after success;
- `NotFound`: a 404;
- `LoginRequired`: the redirect of `login_required`;
- `Invalid`: the form shown again, with no change to the store;
- `ServerError`: an exception the handler does not catch.

The requesting user is an `Option<UserId>`; `None` is the anonymous user.

Behaviour of the code that a reader might not expect, and that the model
follows:

- `post_edit` looks the post up with the requester as its author
  (yatube/posts/views.py:88-93). A user who is not the author therefore gets
  `NotFound`, not a redirect. The later `current_user != author_user` redirect
  (yatube/posts/views.py:95-96) cannot be reached.
- `profile_unfollow` uses `Follow.objects.get` (yatube/posts/views.py:171-174).
  When the edge does not exist, `get` raises `DoesNotExist` and nothing catches
  it, so the request fails with `ServerError` rather than a 404.
- `profile` finds follow edges by comparing usernames with `str()` of the
  requesting user. For the anonymous user that string is `"AnonymousUser"`.
  The flag is true whenever the lookup raises `TypeError`
  (yatube/posts/views.py:53-59). Whether the ORM raises depends on the
  framework, so this is the parameter `lookupRaises`. One would expect the
  flag to be false for an anonymous viewer. `AnonymousNotFollowing` proves it
  is false when the lookup does not raise and no user is named
  `"AnonymousUser"`.
- `add_comment` looks the post up by id alone
  (yatube/posts/views.py:131). The username in the address is not checked.
- No view uses a page cache.

## Model

| member | source | states |
|---|---|---|
| `QuerySets.Filter` | yatube/posts/views.py:149 | `filter(...)` keeps exactly the rows that satisfy the condition and never adds rows. |
| `QuerySets.FindIndex` | yatube/posts/views.py:24 | Lookup-or-404: the result is the first row that matches. `None` is returned exactly when no row matches. |
| `QuerySets.OrderNewestFirst` | yatube/posts/models.py:60-61 | The default ordering gives a newest-first list. It is a permutation of the table (same multiset). |
| `QuerySets.FilterOrderCommute` | yatube/posts/models.py:60-61 | Filtering the ordered table gives the same list as ordering the filtered table. |
| `QuerySets.GetOrCreate` | yatube/posts/views.py:164 | `get_or_create` is insert-if-absent. The result holds the old rows plus `x`. It is unchanged when `x` is present. Existing rows keep their places. A table without duplicates stays without duplicates. |
| `QuerySets.GetOrCreateIdempotent` | yatube/posts/views.py:160-165 | Repeating `get_or_create` changes nothing, so following twice never adds a second edge. |
| `QuerySets.Delete` | yatube/posts/views.py:171-175 | Deleting the row `x` removes exactly that row and keeps every other row. On a table without duplicates, when `x` is present, the table shrinks by one. |
| `QuerySets.DistinctMatchesAtMostOne` | yatube/posts/models.py:110-116 | Under the unique constraint, at most one follow edge matches a given (user, author) pair. |
| `QuerySets.CreateThenDelete` | yatube/posts/views.py:160-176 | Following an author who was not followed, then unfollowing them, gives back the original list of edges. |
| `Paging.PageCount` | yatube/posts/views.py:13 | The number of pages is ceil(count / page size). An empty feed still has one page. |
| `Paging.Paginate` | yatube/posts/views.py:13 | The paginator has one page per page number, and page `k + 1` is `Page(s, perPage, k + 1)`. |
| `Paging.Page` | yatube/posts/views.py:13-15 | Page `n` is the run of rows that starts at `(n - 1) * perPage`. It holds at most `perPage` rows. Every page before the last is full. The last page ends at the end of the feed. |
| `Paging.PaginateCoversAll` | yatube/posts/views.py:13-15 | Reading the pages in order gives back the whole feed: every post is on exactly one page. |
| `Paging.RowOnPage` | yatube/posts/views.py:13-15 | Row `k` of a feed is row `k % perPage` of page `k / perPage + 1`, which is a valid page number. |
| `Models.GroupStr` | yatube/posts/models.py:26-27 | `Group.__str__` is the title. For a group within its column limits, it is at most 200 characters. |
| `Models.Valid` | yatube/posts/models.py:9-116 | The schema's constraints: unique primary keys, unique usernames and slugs, title and slug lengths, the unique (user, author) follow pair, and every foreign key pointing at an existing row. A post's group may be null. |
| `Models.PostStr` | yatube/posts/models.py:63-64 | `Post.__str__` is a prefix of the text. It is the whole text when the text has at most `LETTERS_PER_STR` characters, and exactly the first `LETTERS_PER_STR` characters otherwise. |
| `Models.CommentStr` | yatube/posts/models.py:90-91 | `Comment.__str__` is a prefix of the text. It is the whole text when the text has at most `LETTERS_PER_STR` characters, and exactly the first `LETTERS_PER_STR` characters otherwise. |
| `Models.DeleteGroup` | yatube/posts/models.py:43-47 | Deleting a group removes only that group. Every post stays, in place. Posts of that group get a null group (`SET_NULL`) and nothing else changes about them. Other posts are unchanged. The other tables are unchanged. |
| `Models.DeleteGroupKeepsValid` | yatube/posts/models.py:43-47 | Deleting a group keeps every schema constraint, foreign keys included. |
| `Models.DeletePost` | yatube/posts/models.py:68-74 | Deleting a post removes it and exactly the comments on it (cascade). Users, groups and follow edges are unchanged. |
| `Models.DeletePostKeepsValid` | yatube/posts/models.py:68-74 | Deleting a post keeps every schema constraint. |
| `Models.DeleteUser` | yatube/posts/models.py:36-107 | Deleting a user cascades to their posts and to every comment they wrote or that was on one of their posts. It also removes every follow edge where they are follower or author. Groups stay. |
| `Models.DeleteUserKeepsValid` | yatube/posts/models.py:94-116 | Deleting a user keeps every schema constraint, including the unique follow pair. |
| `Models.EditKeepsValid` | yatube/posts/views.py:97-103 | Replacing one post's text and group with an existing group, or none, keeps every schema constraint. |
| `Views.IndexFeed` | yatube/posts/views.py:11-12 | The index lists every post exactly once, newest first. |
| `Views.FeedIsIndexRestricted` | yatube/posts/views.py:25 | A filtered feed is the index restricted to the posts it selects, in the index's order. |
| `Views.GroupPosts` | yatube/posts/views.py:23-25 | An unknown slug gives `NotFound`. Otherwise the page shows the group with that slug. Its posts are exactly that group's posts, newest first, as a restriction of the index. |
| `Views.GroupSlugIdentifiesGroup` | yatube/posts/models.py:15-20 | Because slugs are unique, the group shown is the only group with that slug. |
| `Views.ViewerName` | yatube/posts/views.py:55 | The name compared with follow edges is the viewer's username, or `"AnonymousUser"` for the anonymous user. |
| `Views.FollowsByName` | yatube/posts/views.py:54-57 | The follow lookup of `profile`: some edge's follower has the viewer's name and its author has the author's name. |
| `Views.Profile` | yatube/posts/views.py:47-59 | An unknown username gives `NotFound`. Otherwise the page shows that user. Its posts are exactly that user's posts, newest first, as a restriction of the index. The following flag is true when the lookup raises `TypeError`. |
| `Views.ProfileFollowingFlag` | yatube/posts/views.py:53-57 | For a logged-in viewer, when the lookup does not raise, the flag is true exactly when the edge (viewer, author) exists. |
| `Views.OwnProfileNotFollowing` | yatube/posts/views.py:53-57 | A user who never follows themself sees the flag false on their own profile. |
| `Views.AnonymousNotFollowing` | yatube/posts/views.py:53-59 | For the anonymous viewer the flag is false when the lookup does not raise and no user is named `"AnonymousUser"`. |
| `Views.PostView` | yatube/posts/views.py:70-72 | `NotFound` unless a post has that id and its author has that username. Otherwise the page shows that post and its comments, newest first by `created`. The comment list is a permutation of the post's comments: each appears once. |
| `Views.FollowJoin` | yatube/posts/views.py:149 | The join of posts with follow edges contains exactly the posts whose author the viewer follows. |
| `Views.FollowJoinIsFilter` | yatube/posts/views.py:149 | With unique follow pairs, the join repeats no post. It equals the plain filter "the author is followed by the viewer". |
| `Views.FollowIndex` | yatube/posts/views.py:147-149 | Anonymous viewers get `LoginRequired`. Otherwise the feed holds exactly the posts whose author the viewer follows, newest first. |
| `Views.FollowIndexIsIndexRestricted` | yatube/posts/views.py:147-149 | In a valid store, the following feed is the index restricted to followed authors: each post appears once, in the index's order. |
| `Views.PageNewestFirst` | yatube/posts/views.py:13-15 | A feed view renders `Paging.Page` of its feed. A page of a newest-first feed is itself newest first. The same paginator runs in `group_posts`, `profile` and `follow_index` (yatube/posts/views.py:26-28, 50-52, 150-152). |
| `Views.FeedPostIsOnAPage` | yatube/posts/views.py:13-15 | Every post of a feed is on some page with a number between 1 and the page count. |
| `Views.Store.NewPost` | yatube/posts/views.py:36-43 | Anonymous gives `LoginRequired`, an invalid form gives `Invalid`, and neither changes the store. A valid form appends exactly one post: author is the requester, text and group from the form, stamped `now`, no image. No other table changes and the store stays valid. |
| `Views.Store.PostEdit` | yatube/posts/views.py:85-108 | `NotFound` exactly when no post has that id, the requester as author, and the URL username as that author's name. A non-author always gets `NotFound`. A valid form changes only that post's text and group. The number of posts, ids, authors, `pub_date` and image stay the same. Failures leave the store unchanged. |
| `Views.Store.AddComment` | yatube/posts/views.py:129-139 | `NotFound` exactly when no post has that id. A valid form appends exactly one comment: author is the requester, on that post, stamped `now`. Nothing else changes and the store stays valid. |
| `Views.Store.ProfileFollow` | yatube/posts/views.py:160-165 | An unknown username gives `NotFound`. Otherwise the edge (requester, author) is inserted if absent, and never when the author is the requester. The store keeps unique follow pairs and never gains a self-follow. |
| `Views.Store.ProfileUnfollow` | yatube/posts/views.py:168-176 | An unknown username gives `NotFound`. A missing edge gives `ServerError`. Otherwise exactly the edge (requester, author) is removed: one fewer edge, every other edge kept. |

## Left out

- Templates, `render`, redirect targets and HTTP status codes: each outcome is a `Response` value.
- The login redirect's return-path parameter: `login_required` is the `LoginRequired` outcome.
- The page number the request carries. `Paginator.get_page`'s handling of missing, non-numeric or out-of-range numbers is not modelled. `Paging.Page` takes a number between 1 and the page count.
- Form field validation: whether a form is valid is a boolean input.
  - A valid `PostForm` only names an existing group; `NewPost` and `PostEdit` state this as a precondition.
  - `PostForm` binds only `text` and `group` (yatube/posts/forms.py:9).
- `CommentForm`: yatube/posts/views.py:7 imports it, but yatube/posts/forms.py defines only `PostForm`. The model assumes a comment form that binds only the text.
- Image upload and storage: `Post.image` is an optional file name. No handler sets it, and `post_edit` leaves it as it was.
- The database engine and transactions. Ids assigned by auto-increment and `auto_now_add` timestamps are naturals the caller supplies. A new id is required to be unused.
- `POSTS_PER_PAGE` and `LETTERS_PER_STR` are parameters (`perPage`, `letters`). posts/constants.py and posts/settings.py are not part of this model.
- `MultipleObjectsReturned` from `.get`: it cannot occur in a valid store, because every lookup is on a unique key. `FindIndex` returns the first match.
- The user table beyond id and username. Creating users and creating groups are done outside the views (the admin site), so neither is an operation here.
- The `TypeError` fallback in `profile`: whether the ORM raises it is the input `lookupRaises`, not something the model decides.
- yatube/posts/admin.py, the migrations, yatube/yatube/urls.py, `page_404` and `page_500`: display, schema history and routing only.
- Page caching: no view shown uses a cache.
- The order of rows with equal timestamps. `ordering = ("-pub_date",)` and `ordering = ("-created",)` (yatube/posts/models.py:60-61, 87-88) leave ties to the database. The model breaks ties by insertion order (`QuerySets.OrderNewestFirst`). So some sequence equalities hold in the program only up to the order of posts with equal `pub_date`:
  - `QuerySets.FilterOrderCommute`, `Views.FeedIsIndexRestricted` and `Views.FollowIndexIsIndexRestricted`;
  - the `== Filter(IndexFeed(t), ...)` clauses of `Views.GroupPosts` and `Views.Profile`.
  Membership, counts and newest-first order do not depend on this choice.
