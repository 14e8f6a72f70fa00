/** The delete policy of the models: removing an account cascades to its
    posts (and through them to their comments), its comments and every follow
    edge it is an end of; removing a post cascades to its comments; removing a
    group keeps its posts and clears their group. */
module Deletion {
  import opened Wrappers
  import opened Seqs
  import opened Models

  function NotUser(uid: UserId): User -> bool { (u: User) => u.id != uid }
  function NotBy(uid: UserId): Post -> bool { (p: Post) => p.author != uid }
  function NotPost(pid: PostId): Post -> bool { (p: Post) => p.id != pid }
  function NotGroup(gid: GroupId): Group -> bool { (g: Group) => g.id != gid }
  function NotOn(pid: PostId): Comment -> bool { (c: Comment) => c.post != pid }

  /** A comment outlives the deletion of `uid` when neither it nor its post is theirs. */
  function CommentOutlives(uid: UserId, gone: set<PostId>): Comment -> bool
  {
    (c: Comment) => c.author != uid && c.post !in gone
  }

  /** A follow edge outlives the deletion of `uid` when `uid` is neither end. */
  function EdgeOutlives(uid: UserId): Follow -> bool
  {
    (e: Follow) => e.user != uid && e.author != uid
  }

  /** The ids of the posts `uid` wrote. */
  function PostsOf(posts: seq<Post>, uid: UserId): set<PostId>
  {
    set p | p in posts && p.author == uid :: p.id
  }

  /** Deleting account `uid`. */
  function DeleteUser(st: Store, uid: UserId): (r: Store)
    ensures r.groups == st.groups && r.nextPostId == st.nextPostId
    ensures forall u :: u in r.users <==> u in st.users && u.id != uid
    ensures forall p :: p in r.posts <==> p in st.posts && p.author != uid
    ensures forall c :: c in r.comments <==>
      && c in st.comments
      && c.author != uid
      && forall p :: p in st.posts && p.id == c.post ==> p.author != uid
    ensures forall e :: e in r.follows <==> e in st.follows && e.user != uid && e.author != uid
    ensures forall c ::
              multiset(r.comments)[c] ==
              if c.author != uid && (forall p :: p in st.posts && p.id == c.post ==> p.author != uid)
              then multiset(st.comments)[c] else 0
  {
    var gone := PostsOf(st.posts, uid);
    KeepMultiset(st.comments, CommentOutlives(uid, gone));
    st.(users := Keep(st.users, NotUser(uid)),
        posts := Keep(st.posts, NotBy(uid)),
        comments := Keep(st.comments, CommentOutlives(uid, gone)),
        follows := Keep(st.follows, EdgeOutlives(uid)))
  }

  /** Deleting post `pid`: its comments go, every other comment stays. */
  function DeletePost(st: Store, pid: PostId): (r: Store)
    ensures r == st.(posts := r.posts, comments := r.comments)
    ensures forall p :: p in r.posts <==> p in st.posts && p.id != pid
    ensures forall c :: c in r.comments <==> c in st.comments && c.post != pid
    ensures forall c :: multiset(r.comments)[c] == if c.post != pid then multiset(st.comments)[c] else 0
  {
    KeepMultiset(st.comments, NotOn(pid));
    st.(posts := Keep(st.posts, NotPost(pid)), comments := Keep(st.comments, NotOn(pid)))
  }

  /** Clears a post's group when it is `gid`. */
  function Detach(gid: GroupId): Post -> Post
  {
    (p: Post) => if p.group == Some(gid) then p.(group := None) else p
  }

  /** Deleting group `gid`: its posts stay, with no group. */
  function DeleteGroup(st: Store, gid: GroupId): (r: Store)
    ensures r == st.(groups := r.groups, posts := r.posts)
    ensures forall g :: g in r.groups <==> g in st.groups && g.id != gid
    ensures |r.posts| == |st.posts|
    ensures forall i :: 0 <= i < |st.posts| ==>
      && r.posts[i] == st.posts[i].(group := r.posts[i].group)
      && r.posts[i].group != Some(gid)
      && (st.posts[i].group != Some(gid) ==> r.posts[i].group == st.posts[i].group)
  {
    st.(groups := Keep(st.groups, NotGroup(gid)), posts := Apply(st.posts, Detach(gid)))
  }

  /** After deleting an account nothing refers to it, and the store's
      constraints still hold. */
  lemma DeleteUserKeepsValid(st: Store, uid: UserId)
    requires Valid(st)
    ensures Valid(DeleteUser(st, uid))
    ensures var r := DeleteUser(st, uid);
      && uid !in UserIds(r.users)
      && (forall p :: p in r.posts ==> p.author != uid)
      && (forall c :: c in r.comments ==> c.author != uid)
      && (forall e :: e in r.follows ==> e.user != uid && e.author != uid)
  {
    var r := DeleteUser(st, uid);
    KeepDistinctBy(st.users, NotUser(uid), UserKey);
    KeepDistinctBy(st.users, NotUser(uid), UsernameKey);
    KeepDistinctBy(st.posts, NotBy(uid), PostKey);
    KeepDistinctBy(st.follows, EdgeOutlives(uid), PairKey);
    assert UserIds(r.users) == UserIds(st.users) - {uid} by {
      forall x | x in UserIds(st.users) - {uid} ensures x in UserIds(r.users) {
        var u :| u in st.users && u.id == x;
        assert u in r.users;
      }
    }
    forall c | c in r.comments ensures c.post in PostIds(r.posts) {
      var q :| q in st.posts && q.id == c.post;
      assert q in r.posts;
    }
  }

  /** Deleting a post keeps the store's constraints. */
  lemma DeletePostKeepsValid(st: Store, pid: PostId)
    requires Valid(st)
    ensures Valid(DeletePost(st, pid))
    ensures pid !in PostIds(DeletePost(st, pid).posts)
  {
    var r := DeletePost(st, pid);
    KeepDistinctBy(st.posts, NotPost(pid), PostKey);
    forall c | c in r.comments ensures c.post in PostIds(r.posts) {
      var q :| q in st.posts && q.id == c.post;
      assert q in r.posts;
    }
  }

  /** Deleting a group keeps every post and the store's constraints. */
  lemma DeleteGroupKeepsValid(st: Store, gid: GroupId)
    requires Valid(st)
    ensures Valid(DeleteGroup(st, gid))
    ensures PostIds(DeleteGroup(st, gid).posts) == PostIds(st.posts)
  {
    var r := DeleteGroup(st, gid);
    KeepDistinctBy(st.groups, NotGroup(gid), GroupKey);
    KeepDistinctBy(st.groups, NotGroup(gid), SlugKey);
    assert PostIds(r.posts) == PostIds(st.posts) by {
      forall x | x in PostIds(st.posts) ensures x in PostIds(r.posts) {
        var p :| p in st.posts && p.id == x;
        var i :| 0 <= i < |st.posts| && st.posts[i] == p;
        assert r.posts[i].id == x;
      }
      forall x | x in PostIds(r.posts) ensures x in PostIds(st.posts) {
        var p :| p in r.posts && p.id == x;
        var i :| 0 <= i < |r.posts| && r.posts[i] == p;
        assert st.posts[i].id == x;
      }
    }
    forall p | p in r.posts
      ensures p.id < r.nextPostId
      ensures p.author in UserIds(r.users)
      ensures p.group.Some? ==> p.group.value in GroupIds(r.groups)
    {
      var i :| 0 <= i < |r.posts| && r.posts[i] == p;
      assert st.posts[i] in st.posts;
      if p.group.Some? {
        var g :| g in st.groups && g.id == p.group.value;
        assert g in r.groups;
      }
    }
    assert DistinctBy(r.posts, PostKey) by {
      forall i, j | 0 <= i < j < |r.posts| ensures PostKey(r.posts[i]) != PostKey(r.posts[j]) {
        assert PostKey(st.posts[i]) != PostKey(st.posts[j]);
      }
    }
  }
}
