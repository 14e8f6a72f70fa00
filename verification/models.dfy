/** The entities of the posts app (Group, Post, Comment, Follow and the
    account table they reference) and the store that holds one table of each.
    Every table is a sequence of rows; the relational constraints the models
    declare (unique columns, foreign keys) are collected in `Valid`. */
module Models {
  import opened Wrappers
  import opened Seqs

  type UserId = nat
  type GroupId = nat
  type PostId = nat

  /** An uploaded picture, known only by its storage path. */
  type Image = string

  /** An account of the identity provider; only its key and username are used. */
  datatype User = User(id: UserId, username: string)

  datatype Group = Group(id: GroupId, title: string, slug: string, description: string)

  /** `pubDate` is the creation stamp assigned on insert; `group` is nullable. */
  datatype Post = Post(
    id: PostId,
    text: string,
    pubDate: nat,
    author: UserId,
    group: Option<GroupId>,
    image: Option<Image>)

  datatype Comment = Comment(post: PostId, author: UserId, text: string, created: nat)

  /** A directed edge: `user` receives the posts of `author`. */
  datatype Follow = Follow(user: UserId, author: UserId)

  datatype Store = Store(
    users: seq<User>,
    groups: seq<Group>,
    posts: seq<Post>,
    comments: seq<Comment>,
    follows: seq<Follow>,
    nextPostId: PostId)

  // Key columns, as function values for `Find` and `DistinctBy`.
  function UserKey(u: User): UserId { u.id }
  function UsernameKey(u: User): string { u.username }
  function GroupKey(g: Group): GroupId { g.id }
  function SlugKey(g: Group): string { g.slug }
  function PostKey(p: Post): PostId { p.id }
  /** The `(user, author)` pair declared `unique_together`. */
  function PairKey(e: Follow): (UserId, UserId) { (e.user, e.author) }

  function UserIds(users: seq<User>): set<UserId> { set u | u in users :: u.id }
  function GroupIds(groups: seq<Group>): set<GroupId> { set g | g in groups :: g.id }
  function PostIds(posts: seq<Post>): set<PostId> { set p | p in posts :: p.id }

  /** Whether `user` follows `author`: a follow row for the pair exists. */
  predicate Following(st: Store, user: UserId, author: UserId)
  {
    Follow(user, author) in st.follows
  }

  /** The constraints the database enforces on every committed state. */
  predicate Valid(st: Store)
  {
    && DistinctBy(st.users, UserKey)
    && DistinctBy(st.users, UsernameKey)
    && DistinctBy(st.groups, GroupKey)
    && DistinctBy(st.groups, SlugKey)
    && DistinctBy(st.posts, PostKey)
    && DistinctBy(st.follows, PairKey)
    && (forall p :: p in st.posts ==> p.id < st.nextPostId)
    && (forall p :: p in st.posts ==> p.author in UserIds(st.users))
    && (forall p :: p in st.posts && p.group.Some? ==> p.group.value in GroupIds(st.groups))
    && (forall c :: c in st.comments ==> c.post in PostIds(st.posts) && c.author in UserIds(st.users))
    && (forall e :: e in st.follows ==> e.user in UserIds(st.users) && e.author in UserIds(st.users))
  }

  /** A slug names at most one group, so a group is found by its own slug. */
  lemma SlugIdentifiesGroup(st: Store, g: Group)
    requires Valid(st)
    requires g in st.groups
    ensures Find(st.groups, SlugKey, g.slug) == Some(g)
  {
    FindUnique(st.groups, SlugKey, g);
  }

  /** A username names at most one account. */
  lemma UsernameIdentifiesUser(st: Store, u: User)
    requires Valid(st)
    requires u in st.users
    ensures Find(st.users, UsernameKey, u.username) == Some(u)
  {
    FindUnique(st.users, UsernameKey, u);
  }

  /** There is never more than one follow row for a pair. */
  lemma AtMostOneEdge(st: Store, e: Follow)
    requires Valid(st)
    ensures multiset(st.follows)[e] <= 1
  {
    DistinctByMultiplicity(st.follows, PairKey);
  }

  const LabelLength: nat := 15

  /** A post is displayed as the first fifteen characters of its text. */
  function PostLabel(p: Post): (r: string)
    ensures |r| <= LabelLength
    ensures r <= p.text
    ensures |r| == LabelLength || r == p.text
  {
    if |p.text| <= LabelLength then p.text else p.text[..LabelLength]
  }

  /** A group is displayed as its title. */
  function GroupLabel(g: Group): string
  {
    g.title
  }

  /** A group displays as its title; a post as its whole text up to fifteen
      characters, and otherwise as the first fifteen. */
  lemma DisplayStrings(g: Group, p: Post)
    ensures GroupLabel(g) == g.title
    ensures |p.text| <= LabelLength ==> PostLabel(p) == p.text
    ensures |p.text| > LabelLength ==> PostLabel(p) == p.text[..LabelLength]
  {
  }

  /** The display strings of the group and post of the model tests: a
      fifteen-character text displays whole. */
  lemma TestModelLabels()
    ensures GroupLabel(Group(1, "Тестовая группа", "Тестовый слаг", "Тестовое описание")) == "Тестовая группа"
    ensures PostLabel(Post(1, "Тестовая группа", 0, 1, None, None)) == "Тестовая группа"
  {
    assert |"Тестовая группа"| == 15;
  }

  /** Posts are listed newest first; equal stamps may come in either order. */
  predicate NewestFirst(s: seq<Post>)
  {
    forall i, j :: 0 <= i < j < |s| ==> s[i].pubDate >= s[j].pubDate
  }

  /** `order` is a listing the database may return for `table` under the
      model's ordering: the same rows, newest first, ties in no fixed order. */
  predicate Arranged(table: seq<Post>, order: seq<Post>)
  {
    multiset(order) == multiset(table) && NewestFirst(order)
  }

  /** No tie-break: two posts with the same stamp may be listed either way. */
  lemma TiesUnordered(a: Post, b: Post)
    requires a.pubDate == b.pubDate
    ensures Arranged([a, b], [a, b]) && Arranged([a, b], [b, a])
  {
    assert multiset([b, a]) == multiset([a, b]);
  }
}
