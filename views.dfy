/** The request handlers of the posts app. The read-only pages (`index`,
    `group_posts`, `profile`, `post_view`, `follow_index`) are functions of
    the store's tables; the handlers that write (`new_post`, `post_edit`,
    `add_comment`, `profile_follow`, `profile_unfollow`) are methods of the
    `Store` class. Each outcome the handler can reach is a `Response`:
    the rendered page or redirect after success (`Ok`), a 404 (`NotFound`),
    the redirect to the login page (`LoginRequired`), the form shown again
    (`Invalid`) or an unhandled exception (`ServerError`). */
module Views {
  import opened QuerySets
  import opened Models
  import opened Paging

  datatype Response<T> = Ok(value: T) | NotFound | LoginRequired | Invalid | ServerError

  /** The user making the request; `None` is the anonymous user. */
  type Viewer = Option<UserId>

  /** What `str()` of the anonymous user gives. */
  const ANONYMOUS_NAME: string := "AnonymousUser"

  /** User `uid` exists and is called `name`. */
  predicate HasName(users: seq<User>, uid: UserId, name: string) {
    exists u :: u in users && u.id == uid && u.username == name
  }

  function Named(name: string): User -> bool { (u: User) => u.username == name }
  function WithSlug(slug: string): Group -> bool { (g: Group) => g.slug == slug }
  function InGroup(gid: GroupId): Post -> bool { (p: Post) => p.group == Some(gid) }
  function ByAuthor(uid: UserId): Post -> bool { (p: Post) => p.author == uid }
  function OnPost(pid: PostId): Comment -> bool { (c: Comment) => c.post == pid }
  function WithId(pid: PostId): Post -> bool { (p: Post) => p.id == pid }

  /** `author__username=username, pk=post_id`. */
  function PostOf(users: seq<User>, username: string, pid: PostId): Post -> bool {
    (p: Post) => p.id == pid && HasName(users, p.author, username)
  }

  /** `author=request.user, author__username=username, pk=post_id`. */
  function OwnPost(users: seq<User>, requester: UserId, username: string, pid: PostId): Post -> bool {
    (p: Post) => p.id == pid && p.author == requester && HasName(users, p.author, username)
  }

  /** The posts whose author `viewer` follows. */
  function FollowedBy(follows: seq<Follow>, viewer: UserId): Post -> bool {
    (p: Post) => Follow(viewer, p.author) in follows
  }

  /** `index`: every post, newest first. */
  function IndexFeed(t: Tables): (feed: seq<Post>)
    ensures multiset(feed) == multiset(t.posts)
    ensures NewestFirst(feed, PubDate)
  {
    OrderNewestFirst(t.posts, PubDate)
  }

  /** The posts that satisfy `keep`, newest first. */
  function Feed(posts: seq<Post>, keep: Post -> bool): (feed: seq<Post>)
    ensures forall p :: p in feed <==> p in posts && keep(p)
    ensures NewestFirst(feed, PubDate)
  {
    var r := OrderNewestFirst(Filter(posts, keep), PubDate);
    assert forall p :: p in r <==> p in multiset(Filter(posts, keep));
    r
  }

  /** A feed shows exactly the posts of the full index that it selects, in
      the index's order. */
  lemma FeedIsIndexRestricted(t: Tables, keep: Post -> bool)
    ensures Feed(t.posts, keep) == Filter(IndexFeed(t), keep)
  {
    FilterOrderCommute(t.posts, PubDate, keep);
  }

  datatype GroupPage = GroupPage(group: Group, posts: seq<Post>)

  /** `group_posts`: the group with this slug and its posts, newest first. */
  function GroupPosts(t: Tables, slug: string): (r: Response<GroupPage>)
    ensures r.Ok? || r.NotFound?
    ensures r.NotFound? <==> forall g :: g in t.groups ==> g.slug != slug
    ensures r.Ok? ==> r.value.group in t.groups && r.value.group.slug == slug
    ensures r.Ok? ==> forall p :: p in r.value.posts <==> p in t.posts && p.group == Some(r.value.group.id)
    ensures r.Ok? ==> r.value.posts == Filter(IndexFeed(t), InGroup(r.value.group.id))
  {
    match FindIndex(t.groups, WithSlug(slug))
    case None => NotFound
    case Some(i) =>
      var g := t.groups[i];
      FeedIsIndexRestricted(t, InGroup(g.id));
      Ok(GroupPage(g, Feed(t.posts, InGroup(g.id))))
  }

  /** Because slugs are unique, the group a group page shows is the only
      group with that slug. */
  lemma GroupSlugIdentifiesGroup(t: Tables, slug: string)
    requires Valid(t) && GroupPosts(t, slug).Ok?
    ensures forall g :: g in t.groups && g.slug == slug ==> g == GroupPosts(t, slug).value.group
  {
    var found := GroupPosts(t, slug).value.group;
    forall g | g in t.groups && g.slug == slug ensures g == found {
      var i :| 0 <= i < |t.groups| && t.groups[i] == g;
      var j :| 0 <= j < |t.groups| && t.groups[j] == found;
      assert Slug(t.groups[i]) == Slug(t.groups[j]);
    }
  }

  datatype ProfilePage = ProfilePage(author: User, posts: seq<Post>, following: bool)

  /** The name the profile view compares follow edges with: `str()` of the
      requesting user. */
  function ViewerName(users: seq<User>, viewer: Viewer): (name: string)
    requires viewer.Some? ==> viewer.value in UserIds(users)
    ensures viewer.Some? ==> HasName(users, viewer.value, name)
    ensures viewer.None? ==> name == ANONYMOUS_NAME
  {
    match viewer
    case None => ANONYMOUS_NAME
    case Some(uid) =>
      var k := FindIndex(users, (u: User) => u.id == uid);
      users[k.value].username
  }

  /** `Follow.objects.filter(user__username=..., author__username=...).exists()`. */
  predicate FollowsByName(t: Tables, userName: string, authorName: string) {
    exists f :: f in t.follows && HasName(t.users, f.user, userName) && HasName(t.users, f.author, authorName)
  }

  /** `profile`: the user with this username, their posts newest first, and
      whether the viewer follows them. `lookupRaises` says whether the
      follow lookup raised `TypeError`, in which case the flag is true. */
  function Profile(t: Tables, viewer: Viewer, username: string, lookupRaises: bool): (r: Response<ProfilePage>)
    requires viewer.Some? ==> viewer.value in UserIds(t.users)
    ensures r.Ok? || r.NotFound?
    ensures r.NotFound? <==> forall u :: u in t.users ==> u.username != username
    ensures r.Ok? ==> r.value.author in t.users && r.value.author.username == username
    ensures r.Ok? ==> forall p :: p in r.value.posts <==> p in t.posts && p.author == r.value.author.id
    ensures r.Ok? ==> r.value.posts == Filter(IndexFeed(t), ByAuthor(r.value.author.id))
    ensures r.Ok? && lookupRaises ==> r.value.following
  {
    match FindIndex(t.users, Named(username))
    case None => NotFound
    case Some(i) =>
      var a := t.users[i];
      FeedIsIndexRestricted(t, ByAuthor(a.id));
      Ok(ProfilePage(a, Feed(t.posts, ByAuthor(a.id)),
                     lookupRaises || FollowsByName(t, ViewerName(t.users, viewer), a.username)))
  }

  /** In a valid store, a name belongs to at most one user and a user has one name. */
  lemma HasNameUnique(t: Tables, uid: UserId, name: string)
    requires Valid(t) && HasName(t.users, uid, name)
    ensures forall v :: HasName(t.users, v, name) ==> v == uid
    ensures forall n :: HasName(t.users, uid, n) ==> n == name
  {
    var u :| u in t.users && u.id == uid && u.username == name;
    forall v | HasName(t.users, v, name) ensures v == uid {
      var w :| w in t.users && w.id == v && w.username == name;
      var i :| 0 <= i < |t.users| && t.users[i] == u;
      var j :| 0 <= j < |t.users| && t.users[j] == w;
      assert Username(t.users[i]) == Username(t.users[j]);
    }
    forall n | HasName(t.users, uid, n) ensures n == name {
      var w :| w in t.users && w.id == uid && w.username == n;
      var i :| 0 <= i < |t.users| && t.users[i] == u;
      var j :| 0 <= j < |t.users| && t.users[j] == w;
      assert UserKey(t.users[i]) == UserKey(t.users[j]);
    }
  }

  /** For a logged-in viewer, when the lookup does not raise, the flag says
      exactly whether the follow edge (viewer, author) exists. */
  lemma {:induction false} ProfileFollowingFlag(t: Tables, viewer: UserId, username: string)
    requires Valid(t) && viewer in UserIds(t.users)
    requires Profile(t, Some(viewer), username, false).Ok?
    ensures Profile(t, Some(viewer), username, false).value.following
        <==> Follow(viewer, Profile(t, Some(viewer), username, false).value.author.id) in t.follows
  {
    var page := Profile(t, Some(viewer), username, false).value;
    var a := page.author;
    var vname := ViewerName(t.users, Some(viewer));
    assert HasName(t.users, a.id, a.username);
    HasNameUnique(t, viewer, vname);
    HasNameUnique(t, a.id, a.username);
    if Follow(viewer, a.id) in t.follows {
      assert FollowsByName(t, vname, a.username);
    }
    if FollowsByName(t, vname, a.username) {
      var f :| f in t.follows && HasName(t.users, f.user, vname) && HasName(t.users, f.author, a.username);
      assert f == Follow(viewer, a.id);
    }
  }

  /** No user follows themself. */
  predicate NoSelfFollow(follows: seq<Follow>) {
    forall f :: f in follows ==> f.user != f.author
  }

  /** A user looking at their own profile is shown as not following. */
  lemma OwnProfileNotFollowing(t: Tables, viewer: UserId, username: string)
    requires Valid(t) && viewer in UserIds(t.users) && NoSelfFollow(t.follows)
    requires Profile(t, Some(viewer), username, false).Ok?
    requires Profile(t, Some(viewer), username, false).value.author.id == viewer
    ensures !Profile(t, Some(viewer), username, false).value.following
  {
    ProfileFollowingFlag(t, viewer, username);
  }

  /** The anonymous viewer is shown as not following, as long as no user is
      called by the anonymous user's name and the lookup does not raise. */
  lemma AnonymousNotFollowing(t: Tables, username: string)
    requires forall u :: u in t.users ==> u.username != ANONYMOUS_NAME
    requires Profile(t, None, username, false).Ok?
    ensures !Profile(t, None, username, false).value.following
  {
    assert forall uid :: !HasName(t.users, uid, ANONYMOUS_NAME);
  }

  datatype PostPage = PostPage(post: Post, comments: seq<Comment>)

  /** `post_view`: the post with this id written by the user with this
      username, and its comments, newest first. */
  function PostView(t: Tables, username: string, pid: PostId): (r: Response<PostPage>)
    ensures r.Ok? || r.NotFound?
    ensures r.NotFound? <==> forall p :: p in t.posts ==> !(p.id == pid && HasName(t.users, p.author, username))
    ensures r.Ok? ==> r.value.post in t.posts && r.value.post.id == pid
                      && HasName(t.users, r.value.post.author, username)
    ensures r.Ok? ==> forall c :: c in r.value.comments <==> c in t.comments && c.post == pid
    ensures r.Ok? ==> NewestFirst(r.value.comments, Created)
    ensures r.Ok? ==> multiset(r.value.comments) == multiset(Filter(t.comments, OnPost(pid)))
  {
    match FindIndex(t.posts, PostOf(t.users, username, pid))
    case None => NotFound
    case Some(i) =>
      var cs := OrderNewestFirst(Filter(t.comments, OnPost(pid)), Created);
      assert forall c :: c in cs <==> c in multiset(Filter(t.comments, OnPost(pid)));
      Ok(PostPage(t.posts[i], cs))
  }

  /** `n` copies of `p`. */
  function Repeat(p: Post, n: nat): (r: seq<Post>)
    ensures |r| == n && forall q :: q in r ==> q == p
    ensures n > 0 ==> p in r
  {
    var r := seq(n, _ => p);
    assert n > 0 ==> r[0] == p;
    r
  }

  /** `Post.objects.filter(author__following__user=viewer)` read as the SQL
      join it is: each post once per follow edge from `viewer` to its author. */
  function FollowJoin(posts: seq<Post>, follows: seq<Follow>, viewer: UserId): (r: seq<Post>)
    ensures forall p :: p in r <==> p in posts && Follow(viewer, p.author) in follows
  {
    if posts == [] then []
    else
      var edges := Filter(follows, EqualTo(Follow(viewer, posts[0].author)));
      assert edges != [] <==> Follow(viewer, posts[0].author) in follows by {
        if edges != [] {
          assert edges[0] in edges;
        }
      }
      assert posts == [posts[0]] + posts[1..];
      Repeat(posts[0], |edges|) + FollowJoin(posts[1..], follows, viewer)
  }

  /** Because a follow edge occurs at most once, the join repeats no post:
      it is the plain filter "the author is followed by `viewer`". */
  lemma {:induction false} FollowJoinIsFilter(posts: seq<Post>, follows: seq<Follow>, viewer: UserId)
    requires Distinct(follows)
    ensures FollowJoin(posts, follows, viewer) == Filter(posts, FollowedBy(follows, viewer))
  {
    if posts != [] {
      DistinctMatchesAtMostOne(follows, Follow(viewer, posts[0].author));
      FollowJoinIsFilter(posts[1..], follows, viewer);
    }
  }

  /** `follow_index`: the posts of the authors the viewer follows, newest
      first, for a logged-in viewer. */
  function FollowIndex(t: Tables, viewer: Viewer): (r: Response<seq<Post>>)
    ensures r.Ok? <==> viewer.Some?
    ensures r.LoginRequired? <==> viewer.None?
    ensures r.Ok? ==> forall p :: p in r.value <==> p in t.posts && Follow(viewer.value, p.author) in t.follows
    ensures r.Ok? ==> NewestFirst(r.value, PubDate)
  {
    match viewer
    case None => LoginRequired
    case Some(u) =>
      var r := OrderNewestFirst(FollowJoin(t.posts, t.follows, u), PubDate);
      assert forall p :: p in r <==> p in multiset(FollowJoin(t.posts, t.follows, u));
      Ok(r)
  }

  /** In a valid store the following feed holds each followed post once: it
      is the index restricted to followed authors, in the index's order. */
  lemma FollowIndexIsIndexRestricted(t: Tables, viewer: UserId)
    requires Valid(t)
    ensures FollowIndex(t, Some(viewer)).value == Filter(IndexFeed(t), FollowedBy(t.follows, viewer))
  {
    FollowJoinIsFilter(t.posts, t.follows, viewer);
    FilterOrderCommute(t.posts, PubDate, FollowedBy(t.follows, viewer));
  }

  /** A feed view renders `Page(feed, perPage, number)`; a page of a
      newest-first feed is itself newest first. */
  lemma PageNewestFirst(feed: seq<Post>, perPage: nat, number: nat)
    requires perPage > 0 && 1 <= number <= PageCount(|feed|, perPage)
    requires NewestFirst(feed, PubDate)
    ensures NewestFirst(Page(feed, perPage, number), PubDate)
  {
    var page := Page(feed, perPage, number);
    var start := (number - 1) * perPage;
    MulMonotone(0, number - 1, perPage);
    forall i, j | 0 <= i < j < |page| ensures PubDate(page[i]) >= PubDate(page[j]) {
      assert page[i] == feed[start + i] && page[j] == feed[start + j];
    }
  }

  /** Every post of a feed is on one of the pages a reader can ask for. */
  lemma FeedPostIsOnAPage(feed: seq<Post>, perPage: nat, p: Post)
    requires perPage > 0 && p in feed
    ensures exists number :: 1 <= number <= PageCount(|feed|, perPage) && p in Page(feed, perPage, number)
  {
    var k :| 0 <= k < |feed| && feed[k] == p;
    RowOnPage(feed, perPage, k);
    assert Page(feed, perPage, k / perPage + 1)[k % perPage] == p;
  }

  /** The store the handlers share: one sequence per table, in insertion order. */
  class Store {
    var users: seq<User>
    var groups: seq<Group>
    var posts: seq<Post>
    var comments: seq<Comment>
    var follows: seq<Follow>

    function Snapshot(): Tables
      reads this
    {
      Tables(users, groups, posts, comments, follows)
    }

    predicate Valid()
      reads this
    {
      Models.Valid(Snapshot())
    }

    /** A logged-in requester is a user of the store. */
    predicate Known(requester: Viewer)
      reads this
    {
      requester.Some? ==> requester.value in UserIds(users)
    }

    constructor (t: Tables)
      requires Models.Valid(t)
      ensures Valid() && Snapshot() == t
    {
      users, groups, posts, comments, follows := t.users, t.groups, t.posts, t.comments, t.follows;
    }

    /** `new_post`: a valid form becomes a new post by the requester, stamped
        `now`, with the form's text and group and no image. `id` is the id
        the database assigns. */
    method NewPost(requester: Viewer, formValid: bool, text: string, group: Option<GroupId>,
                   id: PostId, now: nat) returns (r: Response<()>)
      requires Valid() && Known(requester)
      requires id !in PostIds(posts)
      requires formValid && group.Some? ==> group.value in GroupIds(groups)
      modifies this
      ensures Valid()
      ensures r == if requester.None? then LoginRequired else if !formValid then Invalid else Ok(())
      ensures r.Ok? ==> posts == old(posts) + [Post(id, text, now, requester.value, group, None)]
      ensures !r.Ok? ==> posts == old(posts)
      ensures users == old(users) && groups == old(groups)
      ensures comments == old(comments) && follows == old(follows)
    {
      if requester.None? {
        return LoginRequired;
      }
      if !formValid {
        return Invalid;
      }
      var post := Post(id, text, now, requester.value, group, None);
      assert forall i :: 0 <= i < |posts| ==> PostKey(posts[i]) != PostKey(post) by {
        forall i | 0 <= i < |posts| ensures PostKey(posts[i]) != PostKey(post) {
          assert posts[i] in posts;
        }
      }
      posts := posts + [post];
      assert PostIds(old(posts)) <= PostIds(posts) by {
        forall q | q in old(posts) ensures q in posts {}
      }
      r := Ok(());
    }

    /** `post_edit`: the post is looked up by id, with the requester as its
        author and `username` as that author's name; a valid form then
        replaces its text and group and nothing else. */
    method PostEdit(requester: Viewer, username: string, pid: PostId, formValid: bool,
                    text: string, group: Option<GroupId>) returns (r: Response<()>)
      requires Valid() && Known(requester)
      requires formValid && group.Some? ==> group.value in GroupIds(groups)
      modifies this
      ensures Valid()
      ensures requester.None? ==> r == LoginRequired
      ensures requester.Some? ==>
                (r == NotFound <==> forall p :: p in old(posts) ==> !OwnPost(old(users), requester.value, username, pid)(p))
      ensures requester.Some? ==>
                ((forall p :: p in old(posts) && p.id == pid ==> p.author != requester.value) ==> r == NotFound)
      ensures requester.Some? && r != NotFound ==> r == if formValid then Ok(()) else Invalid
      ensures r.Ok? ==> exists i :: 0 <= i < |old(posts)| && old(posts)[i].id == pid
                          && old(posts)[i].author == requester.value
                          && posts == old(posts)[i := old(posts)[i].(text := text, group := group)]
      ensures |posts| == |old(posts)|
      ensures forall i :: 0 <= i < |posts| ==>
                posts[i].(text := old(posts)[i].text, group := old(posts)[i].group) == old(posts)[i]
      ensures !r.Ok? ==> posts == old(posts)
      ensures users == old(users) && groups == old(groups)
      ensures comments == old(comments) && follows == old(follows)
    {
      if requester.None? {
        return LoginRequired;
      }
      var found := FindIndex(posts, OwnPost(users, requester.value, username, pid));
      if found.None? {
        return NotFound;
      }
      var i := found.value;
      if !formValid {
        return Invalid;
      }
      EditKeepsValid(Snapshot(), i, text, group);
      posts := posts[i := posts[i].(text := text, group := group)];
      r := Ok(());
    }

    /** `add_comment`: the post is looked up by id alone (the username in
        the address is not checked); a valid form becomes a new comment by
        the requester on that post, stamped `now`. */
    method AddComment(requester: Viewer, username: string, pid: PostId, formValid: bool,
                      text: string, id: CommentId, now: nat) returns (r: Response<()>)
      requires Valid() && Known(requester)
      requires id !in CommentIds(comments)
      modifies this
      ensures Valid()
      ensures requester.None? ==> r == LoginRequired
      ensures requester.Some? ==> (r == NotFound <==> pid !in PostIds(old(posts)))
      ensures requester.Some? && r != NotFound ==> r == if formValid then Ok(()) else Invalid
      ensures r.Ok? ==> comments == old(comments) + [Comment(id, pid, requester.value, text, now)]
      ensures !r.Ok? ==> comments == old(comments)
      ensures users == old(users) && groups == old(groups)
      ensures posts == old(posts) && follows == old(follows)
    {
      if requester.None? {
        return LoginRequired;
      }
      var found := FindIndex(posts, WithId(pid));
      if found.None? {
        assert forall q :: q in posts ==> q.id != pid;
        return NotFound;
      }
      assert posts[found.value] in posts;
      if !formValid {
        return Invalid;
      }
      var comment := Comment(id, pid, requester.value, text, now);
      assert forall i :: 0 <= i < |comments| ==> CommentKey(comments[i]) != CommentKey(comment) by {
        forall i | 0 <= i < |comments| ensures CommentKey(comments[i]) != CommentKey(comment) {
          assert comments[i] in comments;
        }
      }
      comments := comments + [comment];
      r := Ok(());
    }

    /** `profile_follow`: for an existing author other than the requester,
        creates the edge (requester, author) unless it already exists. */
    method ProfileFollow(requester: Viewer, username: string) returns (r: Response<()>)
      requires Valid() && Known(requester)
      modifies this
      ensures Valid()
      ensures requester.None? ==> r == LoginRequired
      ensures requester.Some? ==> (r == NotFound <==> forall u :: u in old(users) ==> u.username != username)
      ensures requester.Some? && r != NotFound ==> r == Ok(())
      ensures r.Ok? ==> exists a :: a in users && a.username == username
                          && follows == if a.id == requester.value then old(follows)
                                        else GetOrCreate(old(follows), Follow(requester.value, a.id))
      ensures !r.Ok? ==> follows == old(follows)
      ensures NoSelfFollow(old(follows)) ==> NoSelfFollow(follows)
      ensures users == old(users) && groups == old(groups)
      ensures posts == old(posts) && comments == old(comments)
    {
      if requester.None? {
        return LoginRequired;
      }
      var found := FindIndex(users, Named(username));
      if found.None? {
        return NotFound;
      }
      var author := users[found.value];
      if requester.value != author.id {
        var edge := Follow(requester.value, author.id);
        assert FollowRefsOk(edge, users) by {
          assert author in users;
        }
        follows := GetOrCreate(follows, edge);
      }
      r := Ok(());
    }

    /** `profile_unfollow`: for an existing author, deletes the edge
        (requester, author); when that edge does not exist the lookup raises
        and the request fails. */
    method ProfileUnfollow(requester: Viewer, username: string) returns (r: Response<()>)
      requires Valid() && Known(requester)
      modifies this
      ensures Valid()
      ensures requester.None? ==> r == LoginRequired
      ensures requester.Some? ==> (r == NotFound <==> forall u :: u in old(users) ==> u.username != username)
      ensures requester.Some? && r != NotFound ==>
                exists a :: a in users && a.username == username
                  && (r == ServerError <==> Follow(requester.value, a.id) !in old(follows))
                  && (r.Ok? ==> follows == Delete(old(follows), Follow(requester.value, a.id)))
      ensures r.Ok? || r.NotFound? || r.LoginRequired? || r.ServerError?
      ensures !r.Ok? ==> follows == old(follows)
      ensures |follows| == if r.Ok? then |old(follows)| - 1 else |old(follows)|
      ensures users == old(users) && groups == old(groups)
      ensures posts == old(posts) && comments == old(comments)
    {
      if requester.None? {
        return LoginRequired;
      }
      var found := FindIndex(users, Named(username));
      if found.None? {
        return NotFound;
      }
      var author := users[found.value];
      var edge := Follow(requester.value, author.id);
      if edge !in follows {
        return ServerError;
      }
      follows := Delete(follows, edge);
      r := Ok(());
    }
  }
}
