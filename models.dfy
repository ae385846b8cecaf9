/** The four tables of the posts app (groups, posts, comments, follow edges)
    and the users they refer to, the constraints the schema declares on
    them, the `__str__` helpers, and what the `on_delete` rules do when a
    group, a post or a user is deleted. Ids and timestamps are naturals. */
module Models {
  import opened QuerySets

  type UserId = nat
  type GroupId = nat
  type PostId = nat
  type CommentId = nat

  /** `max_length` of `Group.title` and of `Group.slug`. */
  const TITLE_MAX_LENGTH: nat := 200
  const SLUG_MAX_LENGTH: nat := 100

  datatype User = User(id: UserId, username: string)

  datatype Group = Group(id: GroupId, title: string, slug: string, description: string)

  /** `pubDate` is stamped once, when the post is created; `group` may be
      empty; `image` is the stored file name, if any. */
  datatype Post = Post(id: PostId, text: string, pubDate: nat, author: UserId,
                       group: Option<GroupId>, image: Option<string>)

  datatype Comment = Comment(id: CommentId, post: PostId, author: UserId, text: string, created: nat)

  /** "`user` follows `author`". */
  datatype Follow = Follow(user: UserId, author: UserId)

  /** The whole store at one moment; each table in insertion order. */
  datatype Tables = Tables(users: seq<User>, groups: seq<Group>, posts: seq<Post>,
                           comments: seq<Comment>, follows: seq<Follow>)

  function UserIds(users: seq<User>): set<UserId> { set u | u in users :: u.id }
  function GroupIds(groups: seq<Group>): set<GroupId> { set g | g in groups :: g.id }
  function PostIds(posts: seq<Post>): set<PostId> { set p | p in posts :: p.id }
  function CommentIds(comments: seq<Comment>): set<CommentId> { set c | c in comments :: c.id }

  function UserKey(u: User): UserId { u.id }
  function Username(u: User): string { u.username }
  function GroupKey(g: Group): GroupId { g.id }
  function Slug(g: Group): string { g.slug }
  function PostKey(p: Post): PostId { p.id }
  function CommentKey(c: Comment): CommentId { c.id }

  /** The ordering stamps: posts by `pub_date`, comments by `created`. */
  function PubDate(p: Post): nat { p.pubDate }
  function Created(c: Comment): nat { c.created }

  predicate GroupFits(g: Group) {
    |g.title| <= TITLE_MAX_LENGTH && |g.slug| <= SLUG_MAX_LENGTH
  }

  predicate PostRefsOk(p: Post, users: seq<User>, groups: seq<Group>) {
    p.author in UserIds(users) && (p.group.Some? ==> p.group.value in GroupIds(groups))
  }

  predicate CommentRefsOk(c: Comment, users: seq<User>, posts: seq<Post>) {
    c.post in PostIds(posts) && c.author in UserIds(users)
  }

  predicate FollowRefsOk(f: Follow, users: seq<User>) {
    f.user in UserIds(users) && f.author in UserIds(users)
  }

  /** The schema's constraints: primary keys, unique usernames, unique slugs,
      field lengths, the unique (user, author) pair of a follow edge, and
      every foreign key pointing at an existing row (author, post and the
      two users of a follow edge are required; a post's group is optional). */
  predicate Valid(t: Tables) {
    && UniqueBy(t.users, UserKey) && UniqueBy(t.users, Username)
    && UniqueBy(t.groups, GroupKey) && UniqueBy(t.groups, Slug)
    && (forall g :: g in t.groups ==> GroupFits(g))
    && UniqueBy(t.posts, PostKey)
    && (forall p :: p in t.posts ==> PostRefsOk(p, t.users, t.groups))
    && UniqueBy(t.comments, CommentKey)
    && (forall c :: c in t.comments ==> CommentRefsOk(c, t.users, t.posts))
    && Distinct(t.follows)
    && (forall f :: f in t.follows ==> FollowRefsOk(f, t.users))
  }

  /** `text[:letters]`. */
  function Truncate(text: string, letters: nat): (r: string)
    ensures r <= text
    ensures |r| == if |text| <= letters then |text| else letters
  {
    if |text| <= letters then text else text[..letters]
  }

  /** `Group.__str__`: the title, so never longer than `TITLE_MAX_LENGTH`
      for a group that fits its columns. */
  function GroupStr(g: Group): (r: string)
    ensures GroupFits(g) ==> |r| <= TITLE_MAX_LENGTH
    ensures r == g.title
  {
    g.title
  }

  /** `Post.__str__`: the first `letters` characters of the text
      (`letters` is `LETTERS_PER_STR`). */
  function PostStr(p: Post, letters: nat): (r: string)
    ensures r <= p.text && |r| <= letters
    ensures |p.text| <= letters ==> r == p.text
    ensures |r| == if |p.text| <= letters then |p.text| else letters
  {
    Truncate(p.text, letters)
  }

  /** `Comment.__str__`: the first `letters` characters of the text. */
  function CommentStr(c: Comment, letters: nat): (r: string)
    ensures r <= c.text && |r| <= letters
    ensures |c.text| <= letters ==> r == c.text
    ensures |r| == if |c.text| <= letters then |c.text| else letters
  {
    Truncate(c.text, letters)
  }

  /** `on_delete=SET_NULL` on `Post.group`: the post stays, without group. */
  function Ungroup(p: Post, gid: GroupId): Post {
    if p.group == Some(gid) then p.(group := None) else p
  }

  function KeepGroup(gid: GroupId): Group -> bool { (g: Group) => g.id != gid }

  /** Deleting group `gid`: the group row goes, its posts stay and lose
      their group; nothing else changes. */
  function DeleteGroup(t: Tables, gid: GroupId): (r: Tables)
    ensures forall g :: g in r.groups <==> g in t.groups && g.id != gid
    ensures |r.posts| == |t.posts|
    ensures forall i :: 0 <= i < |t.posts| ==>
              (t.posts[i].group == Some(gid) ==> r.posts[i] == t.posts[i].(group := None))
              && (t.posts[i].group != Some(gid) ==> r.posts[i] == t.posts[i])
    ensures r.users == t.users && r.comments == t.comments && r.follows == t.follows
  {
    t.(groups := Filter(t.groups, KeepGroup(gid)),
       posts := seq(|t.posts|, i requires 0 <= i < |t.posts| => Ungroup(t.posts[i], gid)))
  }

  function KeepPost(pid: PostId): Post -> bool { (p: Post) => p.id != pid }
  function KeepCommentOf(pid: PostId): Comment -> bool { (c: Comment) => c.post != pid }

  /** Deleting post `pid`: the post and, by `on_delete=CASCADE` on
      `Comment.post`, its comments go; nothing else changes. */
  function DeletePost(t: Tables, pid: PostId): (r: Tables)
    ensures forall p :: p in r.posts <==> p in t.posts && p.id != pid
    ensures forall c :: c in r.comments <==> c in t.comments && c.post != pid
    ensures r.users == t.users && r.groups == t.groups && r.follows == t.follows
  {
    t.(posts := Filter(t.posts, KeepPost(pid)),
       comments := Filter(t.comments, KeepCommentOf(pid)))
  }

  function KeepUser(uid: UserId): User -> bool { (u: User) => u.id != uid }
  function KeepPostOf(uid: UserId): Post -> bool { (p: Post) => p.author != uid }
  function KeepCommentAfter(uid: UserId, removed: set<PostId>): Comment -> bool {
    (c: Comment) => c.author != uid && c.post !in removed
  }
  function KeepFollowOf(uid: UserId): Follow -> bool { (f: Follow) => f.user != uid && f.author != uid }

  function PostsBy(posts: seq<Post>, uid: UserId): set<PostId> {
    set p | p in posts && p.author == uid :: p.id
  }

  /** Deleting user `uid`, with every `on_delete=CASCADE` that reaches it:
      their posts, every comment they wrote or that was on one of their
      posts, and every follow edge where they are follower or author. */
  function DeleteUser(t: Tables, uid: UserId): (r: Tables)
    ensures forall u :: u in r.users <==> u in t.users && u.id != uid
    ensures forall p :: p in r.posts <==> p in t.posts && p.author != uid
    ensures forall c :: c in r.comments <==>
              c in t.comments && c.author != uid && c.post !in PostsBy(t.posts, uid)
    ensures forall f :: f in r.follows <==> f in t.follows && f.user != uid && f.author != uid
    ensures r.groups == t.groups
  {
    Tables(Filter(t.users, KeepUser(uid)), t.groups,
           Filter(t.posts, KeepPostOf(uid)),
           Filter(t.comments, KeepCommentAfter(uid, PostsBy(t.posts, uid))),
           Filter(t.follows, KeepFollowOf(uid)))
  }

  /** Replacing the text and group of one post (the group, if any, being an
      existing one) keeps the store valid. */
  lemma EditKeepsValid(t: Tables, i: nat, text: string, group: Option<GroupId>)
    requires Valid(t) && i < |t.posts|
    requires group.Some? ==> group.value in GroupIds(t.groups)
    ensures Valid(t.(posts := t.posts[i := t.posts[i].(text := text, group := group)]))
  {
    var posts := t.posts[i := t.posts[i].(text := text, group := group)];
    assert forall j :: 0 <= j < |posts| ==> PostKey(posts[j]) == PostKey(t.posts[j]);
    assert PostIds(t.posts) <= PostIds(posts) by {
      forall q | q in t.posts ensures q.id in PostIds(posts) {
        var j :| 0 <= j < |t.posts| && t.posts[j] == q;
        assert posts[j] in posts;
      }
    }
    forall q | q in posts ensures PostRefsOk(q, t.users, t.groups) {
      var j :| 0 <= j < |posts| && posts[j] == q;
      assert t.posts[j] in t.posts;
    }
  }

  lemma DeleteGroupKeepsValid(t: Tables, gid: GroupId)
    requires Valid(t)
    ensures Valid(DeleteGroup(t, gid))
  {
    var r := DeleteGroup(t, gid);
    FilterUniqueBy(t.groups, KeepGroup(gid), GroupKey);
    FilterUniqueBy(t.groups, KeepGroup(gid), Slug);
    forall i, j | 0 <= i < j < |r.posts| ensures PostKey(r.posts[i]) != PostKey(r.posts[j]) {
      assert PostKey(t.posts[i]) != PostKey(t.posts[j]);
    }
    assert PostIds(r.posts) == PostIds(t.posts) by {
      forall id | id in PostIds(t.posts) ensures id in PostIds(r.posts) {
        var p :| p in t.posts && p.id == id;
        var i :| 0 <= i < |t.posts| && t.posts[i] == p;
        assert r.posts[i] in r.posts;
      }
    }
    forall p | p in r.posts ensures PostRefsOk(p, r.users, r.groups) {
      var i :| 0 <= i < |r.posts| && r.posts[i] == p;
      assert t.posts[i] in t.posts;
      if p.group.Some? {
        var g :| g in t.groups && g.id == p.group.value;
        assert g in r.groups;
      }
    }
  }

  lemma DeletePostKeepsValid(t: Tables, pid: PostId)
    requires Valid(t)
    ensures Valid(DeletePost(t, pid))
  {
    var r := DeletePost(t, pid);
    FilterUniqueBy(t.posts, KeepPost(pid), PostKey);
    FilterUniqueBy(t.comments, KeepCommentOf(pid), CommentKey);
    forall c | c in r.comments ensures CommentRefsOk(c, r.users, r.posts) {
      var p :| p in t.posts && p.id == c.post;
      assert p in r.posts;
    }
  }

  lemma DeleteUserKeepsValid(t: Tables, uid: UserId)
    requires Valid(t)
    ensures Valid(DeleteUser(t, uid))
  {
    var r := DeleteUser(t, uid);
    var removed := PostsBy(t.posts, uid);
    FilterUniqueBy(t.users, KeepUser(uid), UserKey);
    FilterUniqueBy(t.users, KeepUser(uid), Username);
    FilterUniqueBy(t.posts, KeepPostOf(uid), PostKey);
    FilterUniqueBy(t.comments, KeepCommentAfter(uid, removed), CommentKey);
    FilterDistinct(t.follows, KeepFollowOf(uid));
    forall p | p in r.posts ensures PostRefsOk(p, r.users, r.groups) {
      var u :| u in t.users && u.id == p.author;
      assert u in r.users;
    }
    forall c | c in r.comments ensures CommentRefsOk(c, r.users, r.posts) {
      var u :| u in t.users && u.id == c.author;
      assert u in r.users;
      var p :| p in t.posts && p.id == c.post;
      assert p.author == uid ==> p.id in removed;
      assert p in r.posts;
    }
    forall f | f in r.follows ensures FollowRefsOk(f, r.users) {
      var u :| u in t.users && u.id == f.user;
      var a :| a in t.users && a.id == f.author;
      assert u in r.users && a in r.users;
    }
  }
}
