/** The read-only views: the global feed, the group feed, the author profile,
    the followed-authors feed and the post detail page. Every feed filters the
    database's newest-first listing of the Post table and cuts it into pages. */
module Feeds {
  import opened Wrappers
  import opened Seqs
  import opened Models
  import opened Paging
  import opened Responses

  datatype Filter =
    | Everything
    | InGroup(group: GroupId)
    | ByAuthor(author: UserId)
    | AuthorIn(authors: seq<UserId>)

  predicate Admits(f: Filter, p: Post)
  {
    match f
    case Everything => true
    case InGroup(g) => p.group == Some(g)
    case ByAuthor(a) => p.author == a
    case AuthorIn(authors) => p.author in authors
  }

  function Test(f: Filter): Post -> bool
  {
    p => Admits(f, p)
  }

  /** The posts `f` admits, in the order of `ordered`. */
  function Feed(ordered: seq<Post>, f: Filter): seq<Post>
  {
    Keep(ordered, Test(f))
  }

  /** A feed is an arrangement of exactly the admitted posts of the table:
      the same rows with the same multiplicities, still newest first. */
  lemma {:induction false} FeedArranged(table: seq<Post>, ordered: seq<Post>, f: Filter)
    requires Arranged(table, ordered)
    ensures Arranged(Keep(table, Test(f)), Feed(ordered, f))
  {
    KeepMultiset(table, Test(f));
    KeepMultiset(ordered, Test(f));
    KeepNewestFirst(ordered, Test(f));
  }

  /** An arrangement lists the same rows as the table. */
  lemma ArrangedRows(table: seq<Post>, ordered: seq<Post>)
    requires Arranged(table, ordered)
    ensures |ordered| == |table|
    ensures forall p :: p in ordered <==> p in table
  {
    assert |multiset(ordered)| == |multiset(table)|;
    forall p ensures p in ordered <==> p in table {
      assert p in ordered <==> multiset(ordered)[p] > 0;
      assert p in table <==> multiset(table)[p] > 0;
    }
  }

  /** A feed lists exactly the admitted posts of the table. */
  lemma FeedRows(table: seq<Post>, ordered: seq<Post>, f: Filter)
    requires Arranged(table, ordered)
    ensures forall p :: p in Feed(ordered, f) <==> p in table && Admits(f, p)
  {
    ArrangedRows(table, ordered);
  }

  lemma {:induction false} KeepNewestFirst(s: seq<Post>, f: Post -> bool)
    requires NewestFirst(s)
    ensures NewestFirst(Keep(s, f))
  {
    if |s| > 0 {
      var t := s[1..];
      KeepNewestFirst(t, f);
      if f(s[0]) {
        var k := Keep(t, f);
        var r := Keep(s, f);
        assert r == [s[0]] + k;
        forall i, j | 0 <= i < j < |r| ensures r[i].pubDate >= r[j].pubDate {
          assert r[j] == k[j - 1];
          if i == 0 {
            assert k[j - 1] in k;
            var m :| 0 <= m < |t| && t[m] == k[j - 1];
            assert s[m + 1] == r[j];
          } else {
            assert r[i] == k[i - 1];
          }
        }
      }
    }
  }

  /** A page of a newest-first listing is newest first and drawn from it. */
  lemma PageNewestFirst(s: seq<Post>, number: int)
    requires NewestFirst(s)
    requires Page(s, number).Some?
    ensures NewestFirst(Page(s, number).value)
    ensures forall p :: p in Page(s, number).value ==> p in s
  {
    var items := Page(s, number).value;
    var base := (number - 1) * PerPage;
    forall i, j | 0 <= i < j < |items| ensures items[i].pubDate >= items[j].pubDate {
      assert items[i] == s[base + i] && items[j] == s[base + j];
    }
    forall p | p in items ensures p in s {
      var j :| 0 <= j < |items| && items[j] == p;
      assert s[base + j] == p;
    }
  }

  /** The response for one page of a newest-first feed, or EmptyPage. */
  function ListingOf(feed: seq<Post>, number: int): (r: Response)
    requires NewestFirst(feed)
    ensures r.Listing? || r.EmptyPage?
    ensures r.Listing? <==> 1 <= number <= NumPages(|feed|)
    ensures r.Listing? ==> |r.items| <= PerPage && NewestFirst(r.items)
    ensures r.Listing? ==> (forall p :: p in r.items ==> p in feed) && r.numPages == NumPages(|feed|)
    ensures r.Listing? ==> Page(feed, number) == Some(r.items)
  {
    match Page(feed, number)
    case None => EmptyPage
    case Some(items) =>
      PageNewestFirst(feed, number);
      Listing(items, NumPages(|feed|))
  }

  /** The global feed `/`: all posts, newest first, ten per page. */
  function Index(st: Store, ordered: seq<Post>, number: int): (r: Response)
    requires Arranged(st.posts, ordered)
    ensures r.Listing? || r.EmptyPage?
    ensures r.Listing? <==> 1 <= number <= NumPages(|st.posts|)
    ensures r.Listing? ==> |r.items| <= PerPage && NewestFirst(r.items)
    ensures r.Listing? ==> forall p :: p in r.items ==> p in st.posts
    ensures r.Listing? ==> r.numPages == NumPages(|st.posts|)
    ensures r.Listing? ==> Page(ordered, number) == Some(r.items)
  {
    ArrangedRows(st.posts, ordered);
    ListingOf(ordered, number)
  }

  /** The group feed `/group/<slug>/`: the group's posts, or NotFound for an
      unknown slug. */
  function GroupPosts(st: Store, ordered: seq<Post>, slug: string, number: int): (r: Response)
    requires Arranged(st.posts, ordered)
    ensures r.NotFound? <==> forall g :: g in st.groups ==> g.slug != slug
    ensures r.NotFound? || r.EmptyPage? || r.GroupListing?
    ensures r.GroupListing? ==> r.group in st.groups && r.group.slug == slug
    ensures r.GroupListing? ==> |r.items| <= PerPage && NewestFirst(r.items)
    ensures r.GroupListing? ==> forall p :: p in r.items ==> p in st.posts && p.group == Some(r.group.id)
    ensures r.GroupListing? ==>
      && Page(Feed(ordered, InGroup(r.group.id)), number) == Some(r.items)
      && r.numPages == NumPages(|Feed(ordered, InGroup(r.group.id))|)
    ensures Find(st.groups, SlugKey, slug).Some? ==>
      (r.GroupListing? <==>
        1 <= number <= NumPages(|Feed(ordered, InGroup(Find(st.groups, SlugKey, slug).value.id))|))
  {
    match Find(st.groups, SlugKey, slug)
    case None => NotFound
    case Some(group) =>
      var feed := Feed(ordered, InGroup(group.id));
      FeedArranged(st.posts, ordered, InGroup(group.id));
      FeedRows(st.posts, ordered, InGroup(group.id));
      match Page(feed, number)
      case None => EmptyPage
      case Some(items) =>
        PageNewestFirst(feed, number);
        GroupListing(group, items, NumPages(|feed|))
  }

  /** The profile `/profile/<username>/`: the author's posts, and for a
      logged-in requester whether they follow the author. An anonymous
      requester gets no flag at all. */
  function Profile(st: Store, ordered: seq<Post>, actor: Actor, username: string, number: int): (r: Response)
    requires Arranged(st.posts, ordered)
    ensures r.NotFound? <==> forall u :: u in st.users ==> u.username != username
    ensures r.NotFound? || r.EmptyPage? || r.ProfileListing?
    ensures r.ProfileListing? ==> r.author in st.users && r.author.username == username
    ensures r.ProfileListing? ==> |r.items| <= PerPage && NewestFirst(r.items)
    ensures r.ProfileListing? ==> forall p :: p in r.items ==> p in st.posts && p.author == r.author.id
    ensures r.ProfileListing? ==> (r.following.Some? <==> actor.Member?)
    ensures r.ProfileListing? && actor.Member? ==>
      (r.following.value <==> Following(st, actor.user.id, r.author.id))
    ensures r.ProfileListing? ==>
      && Page(Feed(ordered, ByAuthor(r.author.id)), number) == Some(r.items)
      && r.numPages == NumPages(|Feed(ordered, ByAuthor(r.author.id))|)
    ensures Find(st.users, UsernameKey, username).Some? ==>
      (r.ProfileListing? <==>
        1 <= number <= NumPages(|Feed(ordered, ByAuthor(Find(st.users, UsernameKey, username).value.id))|))
  {
    match Find(st.users, UsernameKey, username)
    case None => NotFound
    case Some(author) =>
      var feed := Feed(ordered, ByAuthor(author.id));
      FeedArranged(st.posts, ordered, ByAuthor(author.id));
      FeedRows(st.posts, ordered, ByAuthor(author.id));
      match Page(feed, number)
      case None => EmptyPage
      case Some(items) =>
        PageNewestFirst(feed, number);
        var following := match actor
          case Anonymous => None
          case Member(me) => Some(Following(st, me.id, author.id));
        ProfileListing(author, items, NumPages(|feed|), following)
  }

  /** Thirteen posts make a global feed of two pages, of ten and three posts. */
  lemma IndexThirteen(st: Store, ordered: seq<Post>)
    requires Arranged(st.posts, ordered)
    requires |st.posts| == 13
    ensures Index(st, ordered, 1).Listing? && |Index(st, ordered, 1).items| == 10
    ensures Index(st, ordered, 2).Listing? && |Index(st, ordered, 2).items| == 3
    ensures Index(st, ordered, 3) == EmptyPage
  {
    ArrangedRows(st.posts, ordered);
    ThirteenRows(ordered);
  }

  /** Thirteen posts, all in one group, make a group feed of ten and three posts. */
  lemma {:induction false} GroupThirteen(st: Store, ordered: seq<Post>, group: Group)
    requires Valid(st)
    requires Arranged(st.posts, ordered)
    requires group in st.groups
    requires |st.posts| == 13
    requires forall p :: p in st.posts ==> p.group == Some(group.id)
    ensures GroupPosts(st, ordered, group.slug, 1).GroupListing?
    ensures |GroupPosts(st, ordered, group.slug, 1).items| == 10
    ensures GroupPosts(st, ordered, group.slug, 2).GroupListing?
    ensures |GroupPosts(st, ordered, group.slug, 2).items| == 3
  {
    SlugIdentifiesGroup(st, group);
    ArrangedRows(st.posts, ordered);
    KeepAll(ordered, Test(InGroup(group.id)));
    ThirteenRows(ordered);
  }

  /** Thirteen posts, all by one author, make a profile of ten and three posts. */
  lemma {:induction false} ProfileThirteen(st: Store, ordered: seq<Post>, actor: Actor, author: User)
    requires Valid(st)
    requires Arranged(st.posts, ordered)
    requires author in st.users
    requires |st.posts| == 13
    requires forall p :: p in st.posts ==> p.author == author.id
    ensures Profile(st, ordered, actor, author.username, 1).ProfileListing?
    ensures |Profile(st, ordered, actor, author.username, 1).items| == 10
    ensures Profile(st, ordered, actor, author.username, 2).ProfileListing?
    ensures |Profile(st, ordered, actor, author.username, 2).items| == 3
  {
    UsernameIdentifiesUser(st, author);
    ArrangedRows(st.posts, ordered);
    KeepAll(ordered, Test(ByAuthor(author.id)));
    ThirteenRows(ordered);
  }

  /** The authors `user` follows, one entry per follow row, in table order. */
  function FollowedAuthors(follows: seq<Follow>, user: UserId): (r: seq<UserId>)
    ensures forall a :: a in r <==> Follow(user, a) in follows
  {
    if |follows| == 0 then []
    else if follows[0].user == user then [follows[0].author] + FollowedAuthors(follows[1..], user)
    else FollowedAuthors(follows[1..], user)
  }

  /** The posts of the authors `user` follows, in the order of `ordered`. */
  function FollowFeed(st: Store, ordered: seq<Post>, user: UserId): seq<Post>
  {
    Feed(ordered, AuthorIn(FollowedAuthors(st.follows, user)))
  }

  /** The followed-authors feed `/follow/` (login required). */
  function FollowIndex(st: Store, ordered: seq<Post>, actor: Actor, number: int): (r: Response)
    requires Arranged(st.posts, ordered)
    ensures actor.Anonymous? <==> r.LoginRedirect?
    ensures r.LoginRedirect? || r.EmptyPage? || r.Listing?
    ensures r.Listing? ==> |r.items| <= PerPage && NewestFirst(r.items)
    ensures r.Listing? ==> forall p :: p in r.items ==>
      p in st.posts && Following(st, actor.user.id, p.author)
    ensures actor.Member? ==>
      (r.Listing? <==> 1 <= number <= NumPages(|FollowFeed(st, ordered, actor.user.id)|))
    ensures r.Listing? ==>
      && Page(FollowFeed(st, ordered, actor.user.id), number) == Some(r.items)
      && r.numPages == NumPages(|FollowFeed(st, ordered, actor.user.id)|)
  {
    match actor
    case Anonymous => LoginRedirect
    case Member(me) =>
      var feed := FollowFeed(st, ordered, me.id);
      FeedArranged(st.posts, ordered, AuthorIn(FollowedAuthors(st.follows, me.id)));
      FeedRows(st.posts, ordered, AuthorIn(FollowedAuthors(st.follows, me.id)));
      ListingOf(feed, number)
  }

  /** The followed feed holds exactly the posts whose author the user follows,
      each as often as in the table, newest first. */
  lemma FollowFeedExact(st: Store, ordered: seq<Post>, user: UserId)
    requires Arranged(st.posts, ordered)
    ensures NewestFirst(FollowFeed(st, ordered, user))
    ensures forall p :: p in FollowFeed(st, ordered, user) <==>
      p in st.posts && Following(st, user, p.author)
    ensures forall p: Post :: Following(st, user, p.author) ==>
      multiset(FollowFeed(st, ordered, user))[p] == multiset(st.posts)[p]
  {
    var f := AuthorIn(FollowedAuthors(st.follows, user));
    FeedArranged(st.posts, ordered, f);
    KeepMultiset(st.posts, Test(f));
  }

  /** Someone who follows nobody sees an empty first page, not an error. */
  lemma FollowNobody(st: Store, ordered: seq<Post>, me: User)
    requires Arranged(st.posts, ordered)
    requires forall e :: e in st.follows ==> e.user != me.id
    ensures FollowFeed(st, ordered, me.id) == []
    ensures FollowIndex(st, ordered, Member(me), 1) == Listing([], 1)
  {
    var f := AuthorIn(FollowedAuthors(st.follows, me.id));
    KeepNone(ordered, Test(f));
  }

  /** The detail page `/posts/<id>/`: the post and the comments on it. */
  function PostDetail(st: Store, id: PostId): (r: Response)
    ensures r.NotFound? <==> forall p :: p in st.posts ==> p.id != id
    ensures r.NotFound? || r.Detail?
    ensures r.Detail? ==> r.post in st.posts && r.post.id == id
    ensures r.Detail? ==> forall c :: c in r.comments <==> c in st.comments && c.post == id
    ensures r.Detail? ==> forall c :: multiset(r.comments)[c] == if c.post == id then multiset(st.comments)[c] else 0
  {
    match Find(st.posts, PostKey, id)
    case None => NotFound
    case Some(post) =>
      KeepMultiset(st.comments, OnPost(id));
      Detail(post, Keep(st.comments, OnPost(id)))
  }

  function OnPost(id: PostId): Comment -> bool
  {
    (c: Comment) => c.post == id
  }
}
