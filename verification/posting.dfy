/** The writing views: creating a post, editing one's own post and commenting.
    The author of a new post or comment is always the requester, whatever the
    form holds; a post is changed only by its author. Form validation is an
    input (`accepted`) together with the two checks the model fields impose:
    the text is not blank and the chosen group exists. */
module Posting {
  import opened Wrappers
  import opened Seqs
  import opened Models
  import opened Responses
  import opened Feeds
  import opened Paging

  /** The fields the post form edits. */
  datatype PostForm = PostForm(text: string, group: Option<GroupId>, image: Option<Image>)

  /** The post form validates: `accepted` stands for everything the form
      checks beyond the model fields (bound to submitted data, image decodes). */
  predicate PostFormValid(st: Store, form: PostForm, accepted: bool)
  {
    && accepted
    && |form.text| > 0
    && (form.group.Some? ==> form.group.value in GroupIds(st.groups))
  }

  /** `/create/`: a valid form adds a post by the requester, stamped `now`. */
  function PostCreate(st: Store, actor: Actor, form: PostForm, accepted: bool, now: nat): (o: Outcome)
    ensures o.store == st.(posts := o.store.posts, nextPostId := o.store.nextPostId)
    ensures actor.Anonymous? ==> o == Outcome(LoginRedirect, st)
    ensures actor.Member? && !PostFormValid(st, form, accepted) ==> o == Outcome(Form(false), st)
    ensures actor.Member? && PostFormValid(st, form, accepted) ==>
      && o.response == ToProfile(actor.user.username)
      && |o.store.posts| == |st.posts| + 1
      && o.store.posts[..|st.posts|] == st.posts
      && o.store.posts[|st.posts|] == Post(st.nextPostId, form.text, now, actor.user.id, form.group, form.image)
      && o.store.nextPostId > st.nextPostId
  {
    match actor
    case Anonymous => Outcome(LoginRedirect, st)
    case Member(me) =>
      if !PostFormValid(st, form, accepted) then Outcome(Form(false), st)
      else
        var post := Post(st.nextPostId, form.text, now, me.id, form.group, form.image);
        Outcome(ToProfile(me.username), st.(posts := st.posts + [post], nextPostId := st.nextPostId + 1))
  }

  /** Replaces the edited fields of post `id`; other posts pass unchanged. */
  function Revise(id: PostId, form: PostForm): Post -> Post
  {
    (p: Post) => if p.id == id then p.(text := form.text, group := form.group, image := form.image) else p
  }

  /** `/posts/<id>/edit/`: only the author may change the post; anyone else is
      sent to the detail page and nothing changes. */
  function PostEdit(st: Store, actor: Actor, id: PostId, form: PostForm, accepted: bool): (o: Outcome)
    ensures o.store == st.(posts := o.store.posts)
    ensures |o.store.posts| == |st.posts|
    ensures forall i :: 0 <= i < |st.posts| ==>
      && o.store.posts[i].id == st.posts[i].id
      && o.store.posts[i].author == st.posts[i].author
      && o.store.posts[i].pubDate == st.posts[i].pubDate
      && (st.posts[i].id != id ==> o.store.posts[i] == st.posts[i])
    ensures actor.Anonymous? ==> o == Outcome(LoginRedirect, st)
    ensures o.response.NotFound? <==> actor.Member? && forall p :: p in st.posts ==> p.id != id
    ensures o.store != st ==>
      && actor.Member?
      && o.response == ToDetail(id)
      && PostFormValid(st, form, accepted)
      && exists p :: p in st.posts && p.id == id && p.author == actor.user.id
  {
    match actor
    case Anonymous => Outcome(LoginRedirect, st)
    case Member(me) =>
      match Find(st.posts, PostKey, id)
      case None => Outcome(NotFound, st)
      case Some(post) =>
        if me.id != post.author then Outcome(ToDetail(id), st)
        else if !PostFormValid(st, form, accepted) then Outcome(Form(true), st)
        else Outcome(ToDetail(id), st.(posts := Apply(st.posts, Revise(id, form))))
  }

  /** `/posts/<id>/comment/`: a valid comment is added by the requester;
      the answer is always the post's detail page. */
  function AddComment(st: Store, actor: Actor, id: PostId, text: string, accepted: bool, now: nat): (o: Outcome)
    ensures o.store == st.(comments := o.store.comments)
    ensures actor.Anonymous? ==> o == Outcome(LoginRedirect, st)
    ensures o.response.NotFound? <==> actor.Member? && forall p :: p in st.posts ==> p.id != id
    ensures actor.Member? && !o.response.NotFound? ==> o.response == ToDetail(id)
    ensures o.store.comments != st.comments ==>
      && actor.Member?
      && accepted && |text| > 0
      && (exists p :: p in st.posts && p.id == id)
      && o.store.comments == st.comments + [Comment(id, actor.user.id, text, now)]
  {
    match actor
    case Anonymous => Outcome(LoginRedirect, st)
    case Member(me) =>
      match Find(st.posts, PostKey, id)
      case None => Outcome(NotFound, st)
      case Some(_) =>
        if accepted && |text| > 0 then
          Outcome(ToDetail(id), st.(comments := st.comments + [Comment(id, me.id, text, now)]))
        else Outcome(ToDetail(id), st)
  }

  /** A non-owner's edit is a silent redirect to the detail page. */
  lemma EditByNonOwner(st: Store, me: User, post: Post, form: PostForm, accepted: bool)
    requires Valid(st)
    requires post in st.posts
    requires post.author != me.id
    ensures PostEdit(st, Member(me), post.id, form, accepted) == Outcome(ToDetail(post.id), st)
  {
    FindUnique(st.posts, PostKey, post);
  }

  /** The owner's valid edit changes the edited fields of that post only:
      the post count, every other post and every other table stay. */
  lemma EditByOwner(st: Store, me: User, post: Post, form: PostForm, accepted: bool)
    requires Valid(st)
    requires post in st.posts
    requires post.author == me.id
    requires PostFormValid(st, form, accepted)
    ensures var o := PostEdit(st, Member(me), post.id, form, accepted);
      && o.response == ToDetail(post.id)
      && |o.store.posts| == |st.posts|
      && post.(text := form.text, group := form.group, image := form.image) in o.store.posts
      && forall q :: q in st.posts && q.id != post.id ==> q in o.store.posts
  {
    FindUnique(st.posts, PostKey, post);
    var o := PostEdit(st, Member(me), post.id, form, accepted);
    var i :| 0 <= i < |st.posts| && st.posts[i] == post;
    assert o.store.posts[i] == Revise(post.id, form)(post);
    forall q | q in st.posts && q.id != post.id ensures q in o.store.posts {
      var j :| 0 <= j < |st.posts| && st.posts[j] == q;
      assert o.store.posts[j] == q;
    }
  }

  /** After the owner's edit the detail page shows the new text. */
  lemma EditShownOnDetail(st: Store, me: User, post: Post, form: PostForm, accepted: bool)
    requires Valid(st)
    requires post in st.posts
    requires post.author == me.id
    requires PostFormValid(st, form, accepted)
    ensures var o := PostEdit(st, Member(me), post.id, form, accepted);
      PostDetail(o.store, post.id).Detail? && PostDetail(o.store, post.id).post.text == form.text
  {
    EditByOwner(st, me, post, form, accepted);
    var o := PostEdit(st, Member(me), post.id, form, accepted);
    EditKeepsValid(st, Member(me), post.id, form, accepted);
    FindUnique(o.store.posts, PostKey, post.(text := form.text, group := form.group, image := form.image));
  }

  /** An anonymous comment adds nothing. */
  lemma AnonymousCommentIgnored(st: Store, id: PostId, text: string, accepted: bool, now: nat)
    ensures AddComment(st, Anonymous, id, text, accepted, now).store.comments == st.comments
  {
  }

  /** A valid comment appears on its post's detail page, authored by the requester. */
  lemma CommentShownOnDetail(st: Store, me: User, post: Post, text: string, now: nat)
    requires Valid(st)
    requires post in st.posts
    requires |text| > 0
    ensures var o := AddComment(st, Member(me), post.id, text, true, now);
      && PostDetail(o.store, post.id).Detail?
      && Comment(post.id, me.id, text, now) in PostDetail(o.store, post.id).comments
  {
    FindUnique(st.posts, PostKey, post);
  }

  /** A valid new post by the requester, stamped later than every other post,
      heads the first page of the global feed, whatever the tie order. */
  lemma NewPostHeadsIndex(st: Store, me: User, form: PostForm, now: nat, ordered: seq<Post>)
    requires PostFormValid(st, form, true)
    requires forall q :: q in st.posts ==> q.pubDate < now
    requires Arranged(PostCreate(st, Member(me), form, true, now).store.posts, ordered)
    ensures var post := Post(st.nextPostId, form.text, now, me.id, form.group, form.image);
      var r := Index(PostCreate(st, Member(me), form, true, now).store, ordered, 1);
      r.Listing? && |r.items| > 0 && r.items[0] == post
  {
    var o := PostCreate(st, Member(me), form, true, now);
    var post := Post(st.nextPostId, form.text, now, me.id, form.group, form.image);
    assert o.store.posts == st.posts + [post];
    ArrangedRows(o.store.posts, ordered);
    assert post in ordered;
    var k :| 0 <= k < |ordered| && ordered[k] == post;
    assert ordered[0].pubDate >= now;
    assert ordered[0] in o.store.posts;
  }

  /** The writing views keep the store's constraints. */
  lemma CreateKeepsValid(st: Store, actor: Actor, form: PostForm, accepted: bool, now: nat)
    requires Valid(st)
    requires KnownActor(st, actor)
    ensures Valid(PostCreate(st, actor, form, accepted, now).store)
  {
    var o := PostCreate(st, actor, form, accepted, now);
    if o.store != st {
      var post := o.store.posts[|st.posts|];
      assert o.store.posts == st.posts + [post];
      AppendDistinctBy(st.posts, post, PostKey);
      assert actor.user in st.users;
    }
  }

  lemma EditKeepsValid(st: Store, actor: Actor, id: PostId, form: PostForm, accepted: bool)
    requires Valid(st)
    ensures Valid(PostEdit(st, actor, id, form, accepted).store)
  {
    var o := PostEdit(st, actor, id, form, accepted);
    if o.store != st {
      assert o.store == st.(posts := Apply(st.posts, Revise(id, form)));
      ReviseKeepsValid(st, id, form, accepted);
    }
  }

  lemma ReviseKeepsValid(st: Store, id: PostId, form: PostForm, accepted: bool)
    requires Valid(st)
    requires PostFormValid(st, form, accepted)
    ensures Valid(st.(posts := Apply(st.posts, Revise(id, form))))
  {
    var posts := Apply(st.posts, Revise(id, form));
    assert PostIds(posts) == PostIds(st.posts) by {
      forall x | x in PostIds(st.posts) ensures x in PostIds(posts) {
        var p :| p in st.posts && p.id == x;
        var i :| 0 <= i < |st.posts| && st.posts[i] == p;
        assert posts[i].id == x;
      }
    }
    forall p | p in posts
      ensures p.id < st.nextPostId
      ensures p.author in UserIds(st.users)
      ensures p.group.Some? ==> p.group.value in GroupIds(st.groups)
    {
      var i :| 0 <= i < |posts| && posts[i] == p;
      assert st.posts[i] in st.posts;
    }
    assert DistinctBy(posts, PostKey) by {
      forall i, j | 0 <= i < j < |posts| ensures PostKey(posts[i]) != PostKey(posts[j]) {
        assert PostKey(st.posts[i]) != PostKey(st.posts[j]);
      }
    }
  }

  lemma CommentKeepsValid(st: Store, actor: Actor, id: PostId, text: string, accepted: bool, now: nat)
    requires Valid(st)
    requires KnownActor(st, actor)
    ensures Valid(AddComment(st, actor, id, text, accepted, now).store)
  {
    var o := AddComment(st, actor, id, text, accepted, now);
    if o.store.comments != st.comments {
      assert actor.user in st.users;
    }
  }
}
