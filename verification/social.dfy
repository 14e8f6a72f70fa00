/** Following and unfollowing an author by username. Both views need a
    login, ignore a request naming the requester's own username without
    looking anything up, answer NotFound for an unknown username, and are
    idempotent; both end with a redirect to the followed-authors feed. */
module Social {
  import opened Wrappers
  import opened Seqs
  import opened Models
  import opened Responses

  /** `/profile/<username>/follow/`: adds the edge unless it already exists. */
  function ProfileFollow(st: Store, actor: Actor, username: string): (o: Outcome)
    ensures o.store == st.(follows := o.store.follows)
    ensures st.follows <= o.store.follows && |o.store.follows| <= |st.follows| + 1
    ensures |o.store.follows| > |st.follows| ==>
      && actor.Member?
      && actor.user.username != username
      && o.store.follows[|st.follows|] !in st.follows
      && exists a :: a in st.users && a.username == username &&
           o.store.follows[|st.follows|] == Follow(actor.user.id, a.id)
    ensures o.response in {LoginRedirect, NotFound, ToFollowIndex}
    ensures o.response.LoginRedirect? <==> actor.Anonymous?
  {
    match actor
    case Anonymous => Outcome(LoginRedirect, st)
    case Member(me) =>
      if me.username == username then Outcome(ToFollowIndex, st)
      else
        match Find(st.users, UsernameKey, username)
        case None => Outcome(NotFound, st)
        case Some(author) =>
          var edge := Follow(me.id, author.id);
          if edge in st.follows then Outcome(ToFollowIndex, st)
          else Outcome(ToFollowIndex, st.(follows := st.follows + [edge]))
  }

  /** Every follow row except `edge`. */
  function Except(edge: Follow): Follow -> bool
  {
    e => e != edge
  }

  /** `/profile/<username>/unfollow/`: deletes the edge if it exists. */
  function ProfileUnfollow(st: Store, actor: Actor, username: string): (o: Outcome)
    ensures o.store == st.(follows := o.store.follows)
    ensures forall e :: e in o.store.follows ==> e in st.follows
    ensures o.store.follows != st.follows ==>
      && actor.Member?
      && actor.user.username != username
      && exists a :: a in st.users && a.username == username &&
           Follow(actor.user.id, a.id) in st.follows &&
           o.store.follows == Keep(st.follows, Except(Follow(actor.user.id, a.id)))
    ensures o.response in {LoginRedirect, NotFound, ToFollowIndex}
    ensures o.response.LoginRedirect? <==> actor.Anonymous?
  {
    match actor
    case Anonymous => Outcome(LoginRedirect, st)
    case Member(me) =>
      if me.username == username then Outcome(ToFollowIndex, st)
      else
        match Find(st.users, UsernameKey, username)
        case None => Outcome(NotFound, st)
        case Some(author) =>
          var edge := Follow(me.id, author.id);
          if edge in st.follows then Outcome(ToFollowIndex, st.(follows := Keep(st.follows, Except(edge))))
          else Outcome(ToFollowIndex, st)
  }

  /** Following a resolvable other author not yet followed appends exactly
      that edge and changes nothing else. */
  lemma FollowAddsEdge(st: Store, me: User, author: User)
    requires Valid(st)
    requires author in st.users
    requires me.username != author.username
    requires !Following(st, me.id, author.id)
    ensures ProfileFollow(st, Member(me), author.username)
      == Outcome(ToFollowIndex, st.(follows := st.follows + [Follow(me.id, author.id)]))
  {
    UsernameIdentifiesUser(st, author);
  }

  /** Following twice is following once. */
  lemma FollowIdempotent(st: Store, actor: Actor, username: string)
    ensures var once := ProfileFollow(st, actor, username);
      ProfileFollow(once.store, actor, username) == once
  {
  }

  /** Unfollowing twice is unfollowing once. */
  lemma UnfollowIdempotent(st: Store, actor: Actor, username: string)
    ensures var once := ProfileUnfollow(st, actor, username);
      ProfileUnfollow(once.store, actor, username) == once
  {
    if actor.Member? && actor.user.username != username {
      match Find(st.users, UsernameKey, username)
      case None =>
      case Some(author) =>
        var edge := Follow(actor.user.id, author.id);
        assert edge !in Keep(st.follows, Except(edge));
    }
  }

  /** Naming oneself changes nothing and does not depend on the user table. */
  lemma SelfRequestIgnored(st: Store, me: User)
    ensures ProfileFollow(st, Member(me), me.username) == Outcome(ToFollowIndex, st)
    ensures ProfileUnfollow(st, Member(me), me.username) == Outcome(ToFollowIndex, st)
  {
  }

  /** An unknown username, other than one's own, is NotFound and changes nothing. */
  lemma UnknownUsername(st: Store, me: User, username: string)
    requires me.username != username
    requires forall u :: u in st.users ==> u.username != username
    ensures ProfileFollow(st, Member(me), username) == Outcome(NotFound, st)
    ensures ProfileUnfollow(st, Member(me), username) == Outcome(NotFound, st)
  {
  }

  /** Unfollowing a followed author removes that edge and no other. */
  lemma UnfollowRemovesEdge(st: Store, me: User, author: User)
    requires Valid(st)
    requires author in st.users
    requires me.username != author.username
    ensures var o := ProfileUnfollow(st, Member(me), author.username);
      && o.response == ToFollowIndex
      && !Following(o.store, me.id, author.id)
      && forall e :: e != Follow(me.id, author.id) ==> (e in o.store.follows <==> e in st.follows)
  {
    UsernameIdentifiesUser(st, author);
  }

  /** Unfollowing an author one does not follow changes nothing. */
  lemma UnfollowAbsent(st: Store, me: User, author: User)
    requires Valid(st)
    requires author in st.users
    requires me.username != author.username
    requires !Following(st, me.id, author.id)
    ensures ProfileUnfollow(st, Member(me), author.username) == Outcome(ToFollowIndex, st)
  {
    UsernameIdentifiesUser(st, author);
  }

  /** Unfollow undoes a follow that created an edge. */
  lemma {:induction false} FollowThenUnfollow(st: Store, me: User, author: User)
    requires Valid(st)
    requires author in st.users
    requires me.username != author.username
    requires !Following(st, me.id, author.id)
    ensures ProfileUnfollow(ProfileFollow(st, Member(me), author.username).store, Member(me), author.username)
      == Outcome(ToFollowIndex, st)
  {
    var edge := Follow(me.id, author.id);
    FollowAddsEdge(st, me, author);
    var st' := st.(follows := st.follows + [edge]);
    FindUnique(st'.users, UsernameKey, author);
    KeepAppend(st.follows, edge, Except(edge));
    KeepAll(st.follows, Except(edge));
  }

  /** Both views keep the store's constraints, in particular at most one row
      per (user, author) pair. */
  lemma FollowKeepsValid(st: Store, actor: Actor, username: string)
    requires Valid(st)
    requires KnownActor(st, actor)
    ensures Valid(ProfileFollow(st, actor, username).store)
    ensures Valid(ProfileUnfollow(st, actor, username).store)
  {
    var o := ProfileFollow(st, actor, username);
    if |o.store.follows| > |st.follows| {
      var me := actor.user;
      var author := Find(st.users, UsernameKey, username).value;
      var edge := Follow(me.id, author.id);
      assert o.store.follows == st.follows + [edge];
      forall y | y in st.follows ensures PairKey(y) != PairKey(edge) {
      }
      AppendDistinctBy(st.follows, edge, PairKey);
    }
    var u := ProfileUnfollow(st, actor, username);
    if u.store.follows != st.follows {
      var a :| a in st.users && a.username == username &&
        Follow(actor.user.id, a.id) in st.follows &&
        u.store.follows == Keep(st.follows, Except(Follow(actor.user.id, a.id)));
      KeepDistinctBy(st.follows, Except(Follow(actor.user.id, a.id)), PairKey);
    }
  }

  /** The views never create an edge from an account to itself. */
  lemma NoSelfEdgeCreated(st: Store, actor: Actor, username: string)
    requires Valid(st)
    requires KnownActor(st, actor)
    requires forall e :: e in st.follows ==> e.user != e.author
    ensures forall e :: e in ProfileFollow(st, actor, username).store.follows ==> e.user != e.author
    ensures forall e :: e in ProfileUnfollow(st, actor, username).store.follows ==> e.user != e.author
  {
    var o := ProfileFollow(st, actor, username);
    if |o.store.follows| > |st.follows| {
      var me := actor.user;
      var author := Find(st.users, UsernameKey, username).value;
      assert o.store.follows == st.follows + [Follow(me.id, author.id)];
      assert me != author;
      var i :| 0 <= i < |st.users| && st.users[i] == me;
      var j :| 0 <= j < |st.users| && st.users[j] == author;
      assert i != j;
      assert me.id != author.id by {
        if i < j {
          assert UserKey(st.users[i]) != UserKey(st.users[j]);
        } else {
          assert UserKey(st.users[j]) != UserKey(st.users[i]);
        }
      }
    }
  }
}
