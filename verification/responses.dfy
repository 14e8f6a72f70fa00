/** What a request carries in (the acting account) and what a view hands back
    (the response kind with the data the template would receive, and for
    writes the store after the request). */
module Responses {
  import opened Wrappers
  import opened Models

  /** The requester: anonymous, or a logged-in account of the store. */
  datatype Actor = Anonymous | Member(user: User)

  predicate KnownActor(st: Store, actor: Actor)
  {
    actor.Member? ==> actor.user in st.users
  }

  datatype Response =
    | NotFound                        // the slug, username or post id does not resolve
    | EmptyPage                       // the page number lies outside 1..num_pages
    | LoginRedirect                   // a login-only view was requested anonymously
    | ToDetail(postId: PostId)        // redirect to the post's detail page
    | ToProfile(username: string)     // redirect to the author's profile
    | ToFollowIndex                   // redirect to the followed-authors feed
    | Listing(items: seq<Post>, numPages: nat)
    | GroupListing(group: Group, items: seq<Post>, numPages: nat)
    | ProfileListing(author: User, items: seq<Post>, numPages: nat, following: Option<bool>)
    | Detail(post: Post, comments: seq<Comment>)
    | Form(isEdit: bool)              // the post form is shown (again)

  datatype Outcome = Outcome(response: Response, store: Store)
}
