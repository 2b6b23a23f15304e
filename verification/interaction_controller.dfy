/**
 * The interaction handlers: comments (append-only, listed newest first),
 * bookmarks (one per resource and user, added and removed by pair) and votes
 * (two counters on the resource, each valid vote raising exactly one of them;
 * no per-user record is kept).
 */
module InteractionController {
  import opened Wrappers
  import opened Text
  import opened Api
  import opened Pagination
  import opened ResourceSchema
  import opened ResourceController
  import opened Seqs

  datatype Comment = Comment(resourceId: string, userId: string, content: string)
  datatype Bookmark = Bookmark(resourceId: string, userId: string)

  const MaxCommentLength: nat := 1000

  /**
   * addComment. The stored content is trimmed; a content that trims to
   * nothing or runs past 1000 UTF-16 code units fails the schema, which ends in the
   * handler's catch. Comments are kept in creation order.
   */
  function AddComment(store: Store, comments: seq<Comment>, caller: Caller, resourceId: string, content: Option<string>): (res: (Reply<Comment>, seq<Comment>))
    ensures caller.None? ==> res == (Err(401, NotAuthenticated), comments)
    ensures caller.Some? && !Truthy(content) ==> res == (Err(400, MissingContent), comments)
    ensures caller.Some? && Truthy(content) && resourceId !in store ==> res == (Err(404, ResourceNotFound), comments)
    ensures caller.Some? && Truthy(content) && resourceId in store ==>
      && (res.0.Ok? <==> 0 < JsLength(Trim(content.value)) <= MaxCommentLength)
      && (res.0.Err? ==> res.0 == Err(500, CommentCreateError))
    ensures res.0.Err? ==> res.1 == comments
    ensures res.0.Ok? ==>
      && caller.Some? && resourceId in store && content.Some?
      && res.0.status == 201
      && res.1 == comments + [res.0.data]
      && res.0.data.resourceId == resourceId
      && res.0.data.userId == caller.value.id
      && res.0.data.content == Trim(content.value)
      && 0 < JsLength(res.0.data.content) <= MaxCommentLength
  {
    if caller.None? then (Err(401, NotAuthenticated), comments)
    else if !Truthy(content) then (Err(400, MissingContent), comments)
    else if resourceId !in store then (Err(404, ResourceNotFound), comments)
    else
      var text := Trim(content.value);
      if text == [] || JsLength(text) > MaxCommentLength then (Err(500, CommentCreateError), comments)
      else
        var c := Comment(resourceId, caller.value.id, text);
        (Ok(201, c), comments + [c])
  }

  datatype CommentPage = CommentPage(comments: seq<Comment>, pagination: PageInfo)

  /** The comments on one resource, in creation order. */
  function CommentsOn(comments: seq<Comment>, resourceId: string): seq<Comment> {
    Filter(comments, (c: Comment) => c.resourceId == resourceId)
  }

  /**
   * One resource's comments sorted by `createdAt` descending: newest first.
   * Creation order stands for the timestamps, taken as strictly rising.
   */
  function CommentListing(comments: seq<Comment>, resourceId: string): (r: seq<Comment>)
    ensures forall i :: 0 <= i < |r| ==> r[i].resourceId == resourceId
    ensures multiset(r) == multiset(CommentsOn(comments, resourceId))
  {
    ReverseMultiset(CommentsOn(comments, resourceId));
    Reverse(CommentsOn(comments, resourceId))
  }

  /**
   * getResourceComments: unknown resource is not found; a negative skip is
   * refused by the database and ends in the catch; otherwise one page of the
   * resource's comments, newest first, with the count of all of them.
   */
  function GetResourceComments(store: Store, comments: seq<Comment>, resourceId: string, page: Option<int>, limit: Option<int>): (r: Reply<CommentPage>)
    ensures resourceId !in store <==> r == Err(404, ResourceNotFound)
    ensures resourceId in store && SkipOf(page, limit) < 0 ==> r == Err(500, CommentFetchError)
    ensures r.Ok? <==> resourceId in store && SkipOf(page, limit) >= 0
    ensures r.Ok? ==>
      && r.status == 200
      && Window(CommentListing(comments, resourceId), page, limit) == Some(r.data.comments)
      && r.data.pagination == Paginate(page, limit, |CommentsOn(comments, resourceId)|)
  {
    if resourceId !in store then Err(404, ResourceNotFound)
    else
      var all := CommentListing(comments, resourceId);
      match Window(all, page, limit)
      case None => Err(500, CommentFetchError)
      case Some(shown) => Ok(200, CommentPage(shown, Paginate(page, limit, |all|)))
  }

  /** Adding a comment to a resource extends that resource's comments by it and leaves every other resource's alone. */
  lemma CommentsOnSnoc(comments: seq<Comment>, c: Comment, resourceId: string)
    ensures CommentsOn(comments + [c], resourceId)
            == CommentsOn(comments, resourceId) + (if c.resourceId == resourceId then [c] else [])
  {
    FilterAppend(comments, [c], (x: Comment) => x.resourceId == resourceId);
  }

  /**
   * A comment just added heads its resource's listing, ahead of everything
   * listed before, in the same order; so the first page opens with it,
   * whatever the limit, and the count grows by one.
   */
  lemma CommentThenListedFirst(store: Store, comments: seq<Comment>, caller: Caller, resourceId: string,
                               content: Option<string>, limit: Option<int>)
    requires AddComment(store, comments, caller, resourceId, content).0.Ok?
    ensures var (reply, after) := AddComment(store, comments, caller, resourceId, content);
            var first := GetResourceComments(store, after, resourceId, None, limit);
            && CommentListing(after, resourceId) == [reply.data] + CommentListing(comments, resourceId)
            && first.Ok? && |first.data.comments| > 0 && first.data.comments[0] == reply.data
            && first.data.pagination.total == |CommentsOn(comments, resourceId)| + 1
  {
    var (reply, after) := AddComment(store, comments, caller, resourceId, content);
    CommentsOnSnoc(comments, reply.data, resourceId);
    ReverseSnoc(CommentsOn(comments, resourceId), reply.data);
    FirstPageIsHead(CommentListing(after, resourceId), limit);
  }

  /** bookmarkResource: the resource must exist and the pair must be new. */
  function BookmarkResource(store: Store, bookmarks: seq<Bookmark>, caller: Caller, resourceId: string): (res: (Reply<Bookmark>, seq<Bookmark>))
    ensures caller.None? ==> res == (Err(401, NotAuthenticated), bookmarks)
    ensures caller.Some? && resourceId !in store ==> res == (Err(404, ResourceNotFound), bookmarks)
    ensures caller.Some? && resourceId in store && Bookmark(resourceId, caller.value.id) in bookmarks ==>
      res == (Err(400, AlreadyBookmarked), bookmarks)
    ensures caller.Some? && resourceId in store && Bookmark(resourceId, caller.value.id) !in bookmarks ==> res.0.Ok?
    ensures res.0.Err? ==> res.1 == bookmarks
    ensures res.0.Ok? ==>
      && caller.Some? && resourceId in store
      && res.0.data == Bookmark(resourceId, caller.value.id)
      && res.0.data !in bookmarks
      && res.1 == bookmarks + [res.0.data]
  {
    if caller.None? then (Err(401, NotAuthenticated), bookmarks)
    else if resourceId !in store then (Err(404, ResourceNotFound), bookmarks)
    else
      var b := Bookmark(resourceId, caller.value.id);
      if b in bookmarks then (Err(400, AlreadyBookmarked), bookmarks)
      else (Ok(201, b), bookmarks + [b])
  }

  /** removeBookmark: deletes the caller's pair if there is one; the resource itself is not consulted. */
  function RemoveBookmark(bookmarks: seq<Bookmark>, caller: Caller, resourceId: string): (res: (Reply<()>, seq<Bookmark>))
    ensures caller.None? ==> res == (Err(401, NotAuthenticated), bookmarks)
    ensures caller.Some? ==> (res.0.Err? <==> Bookmark(resourceId, caller.value.id) !in bookmarks)
    ensures res.0.Err? ==> res.1 == bookmarks
    ensures caller.Some? && res.0.Err? ==> res.0 == Err(404, BookmarkNotFound)
    ensures res.0.Ok? ==>
      && caller.Some?
      && |res.1| == |bookmarks| - 1
      && multiset(res.1) == multiset(bookmarks) - multiset{Bookmark(resourceId, caller.value.id)}
      && var i := FirstIndex(bookmarks, Bookmark(resourceId, caller.value.id));
         res.1 == bookmarks[..i] + bookmarks[i + 1..]
  {
    if caller.None? then (Err(401, NotAuthenticated), bookmarks)
    else
      var b := Bookmark(resourceId, caller.value.id);
      if b !in bookmarks then (Err(404, BookmarkNotFound), bookmarks)
      else (Ok(200, ()), RemoveFirst(bookmarks, b))
  }

  /** Adding and removing keep at most one bookmark per (resource, user) pair. */
  lemma BookmarksStayUnique(store: Store, bookmarks: seq<Bookmark>, caller: Caller, resourceId: string)
    requires NoDuplicates(bookmarks)
    ensures NoDuplicates(BookmarkResource(store, bookmarks, caller, resourceId).1)
    ensures NoDuplicates(RemoveBookmark(bookmarks, caller, resourceId).1)
  {
    var added := BookmarkResource(store, bookmarks, caller, resourceId);
    if added.0.Ok? {
      var b := added.0.data;
      forall i, j | 0 <= i < j < |added.1| ensures added.1[i] != added.1[j] {
        if j == |bookmarks| { assert added.1[i] in bookmarks; }
      }
    }
    if caller.Some? && Bookmark(resourceId, caller.value.id) in bookmarks {
      RemoveFirstUnique(bookmarks, Bookmark(resourceId, caller.value.id));
    }
  }

  /** A successful add followed by a remove of the same pair restores the bookmarks exactly. */
  lemma BookmarkThenRemoveRestores(store: Store, bookmarks: seq<Bookmark>, caller: Caller, resourceId: string)
    requires BookmarkResource(store, bookmarks, caller, resourceId).0.Ok?
    ensures RemoveBookmark(BookmarkResource(store, bookmarks, caller, resourceId).1, caller, resourceId)
            == (Ok(200, ()), bookmarks)
  {
    RemoveFirstOfAppended(bookmarks, Bookmark(resourceId, caller.value.id));
  }

  /** A second add of the same pair is refused and changes nothing. */
  lemma BookmarkTwiceRefused(store: Store, bookmarks: seq<Bookmark>, caller: Caller, resourceId: string)
    requires BookmarkResource(store, bookmarks, caller, resourceId).0.Ok?
    ensures var once := BookmarkResource(store, bookmarks, caller, resourceId).1;
            BookmarkResource(store, once, caller, resourceId) == (Err(400, AlreadyBookmarked), once)
  {
  }

  datatype BookmarkPage = BookmarkPage(bookmarks: seq<Bookmark>, pagination: PageInfo)

  /** The bookmark filter: the caller's, and with a pricing type only approved resources of that type. */
  predicate Listed(store: Store, userId: string, pricingType: Option<string>, b: Bookmark) {
    && b.userId == userId
    && (Truthy(pricingType) ==>
          b.resourceId in store && store[b.resourceId].status == Approved
          && PricingName(store[b.resourceId].pricingType) == pricingType.value)
  }

  /** The caller's listed bookmarks in creation order: each stored one passing the filter, as often as stored. */
  function ListedBookmarks(store: Store, bookmarks: seq<Bookmark>, userId: string, pricingType: Option<string>): (r: seq<Bookmark>)
    ensures forall b :: b in r <==> b in bookmarks && Listed(store, userId, pricingType, b)
    ensures forall b :: multiset(r)[b] == if Listed(store, userId, pricingType, b) then multiset(bookmarks)[b] else 0
  {
    var keep := (b: Bookmark) => Listed(store, userId, pricingType, b);
    forall b ensures b in Filter(bookmarks, keep) <==> b in bookmarks && keep(b) {
      FilterMembership(bookmarks, keep, b);
    }
    forall b ensures multiset(Filter(bookmarks, keep))[b] == if keep(b) then multiset(bookmarks)[b] else 0 {
      FilterMultiset(bookmarks, keep, b);
    }
    Filter(bookmarks, keep)
  }

  /**
   * The listed bookmarks sorted by `createdAt` descending: newest first.
   * Creation order stands for the timestamps, taken as strictly rising.
   */
  function BookmarkListing(store: Store, bookmarks: seq<Bookmark>, userId: string, pricingType: Option<string>): (r: seq<Bookmark>)
    ensures multiset(r) == multiset(ListedBookmarks(store, bookmarks, userId, pricingType))
  {
    ReverseMultiset(ListedBookmarks(store, bookmarks, userId, pricingType));
    Reverse(ListedBookmarks(store, bookmarks, userId, pricingType))
  }

  /**
   * getUserBookmarks: 401 without a caller; a negative skip is refused by the
   * database and ends in the catch; otherwise one page of the caller's listed
   * bookmarks, newest first, with the count of all of them.
   */
  function GetUserBookmarks(store: Store, bookmarks: seq<Bookmark>, caller: Caller, pricingType: Option<string>, page: Option<int>, limit: Option<int>): (r: Reply<BookmarkPage>)
    ensures caller.None? <==> r == Err(401, NotAuthenticated)
    ensures caller.Some? && SkipOf(page, limit) < 0 ==> r == Err(500, BookmarkFetchError)
    ensures r.Ok? <==> caller.Some? && SkipOf(page, limit) >= 0
    ensures r.Ok? ==>
      && r.status == 200
      && Window(BookmarkListing(store, bookmarks, caller.value.id, pricingType), page, limit) == Some(r.data.bookmarks)
      && r.data.pagination == Paginate(page, limit, |ListedBookmarks(store, bookmarks, caller.value.id, pricingType)|)
  {
    if caller.None? then Err(401, NotAuthenticated)
    else
      var all := BookmarkListing(store, bookmarks, caller.value.id, pricingType);
      match Window(all, page, limit)
      case None => Err(500, BookmarkFetchError)
      case Some(shown) => Ok(200, BookmarkPage(shown, Paginate(page, limit, |all|)))
  }

  /** Appending a bookmark puts it at the head of the listing when it passes the filter, and nowhere otherwise. */
  lemma ListingAfterAppend(store: Store, bookmarks: seq<Bookmark>, userId: string, pricingType: Option<string>, b: Bookmark)
    ensures BookmarkListing(store, bookmarks + [b], userId, pricingType)
            == (if Listed(store, userId, pricingType, b) then [b] else []) + BookmarkListing(store, bookmarks, userId, pricingType)
  {
    var keep := (x: Bookmark) => Listed(store, userId, pricingType, x);
    var before := ListedBookmarks(store, bookmarks, userId, pricingType);
    FilterAppend(bookmarks, [b], keep);
    if keep(b) {
      assert Filter([b], keep) == [b];
      ReverseSnoc(before, b);
    } else {
      assert Filter([b], keep) == [];
      assert before + [] == before;
    }
  }

  /**
   * A bookmark just added heads the caller's listing when it passes the
   * pricing filter (always, without one; with one, when the resource is
   * approved and of that pricing type), and leaves the listing alone
   * otherwise; the earlier entries keep their order.
   */
  lemma BookmarkThenListedFirst(store: Store, bookmarks: seq<Bookmark>, user: UserPayload, resourceId: string,
                                pricingType: Option<string>, limit: Option<int>)
    requires BookmarkResource(store, bookmarks, Some(user), resourceId).0.Ok?
    ensures var (reply, after) := BookmarkResource(store, bookmarks, Some(user), resourceId);
            var shown := Listed(store, user.id, pricingType, reply.data);
            && (shown <==> (!Truthy(pricingType) || (store[resourceId].status == Approved
                                                         && PricingName(store[resourceId].pricingType) == pricingType.value)))
            && BookmarkListing(store, after, user.id, pricingType)
               == (if shown then [reply.data] else []) + BookmarkListing(store, bookmarks, user.id, pricingType)
            && (shown ==> var first := GetUserBookmarks(store, after, Some(user), pricingType, None, limit);
                          first.Ok? && |first.data.bookmarks| > 0 && first.data.bookmarks[0] == reply.data)
  {
    var (reply, after) := BookmarkResource(store, bookmarks, Some(user), resourceId);
    assert after == bookmarks + [reply.data] && reply.data == Bookmark(resourceId, user.id);
    ListingAfterAppend(store, bookmarks, user.id, pricingType, reply.data);
    FirstPageIsHead(BookmarkListing(store, after, user.id, pricingType), limit);
  }

  /** The counter a vote type raises. */
  function Raise(v: Votes, voteType: string): Votes {
    if voteType == "upvote" then v.(upvotes := v.upvotes + 1) else v.(downvotes := v.downvotes + 1)
  }

  /** voteResource: validate the vote type, find the resource, raise one counter by one. */
  function VoteResource(store: Store, caller: Caller, resourceId: string, voteType: Option<string>): (res: (Reply<Votes>, Store))
    ensures caller.None? ==> res == (Err(401, NotAuthenticated), store)
    ensures caller.Some? && voteType != Some("upvote") && voteType != Some("downvote") ==>
      res == (Err(400, InvalidVoteType), store)
    ensures caller.Some? && (voteType == Some("upvote") || voteType == Some("downvote")) && resourceId !in store ==>
      res == (Err(404, ResourceNotFound), store)
    ensures caller.Some? && (voteType == Some("upvote") || voteType == Some("downvote")) && resourceId in store ==>
      res.0.Ok?
    ensures res.0.Err? ==> res.1 == store
    ensures res.0.Ok? ==>
      && resourceId in store && OnlyChanged(store, res.1, resourceId)
      && res.1[resourceId] == store[resourceId].(votes := res.0.data)
      && var before := store[resourceId].votes;
         (voteType == Some("upvote") ==> res.0.data == Votes(before.upvotes + 1, before.downvotes))
         && (voteType == Some("downvote") ==> res.0.data == Votes(before.upvotes, before.downvotes + 1))
  {
    if caller.None? then (Err(401, NotAuthenticated), store)
    else if voteType != Some("upvote") && voteType != Some("downvote") then (Err(400, InvalidVoteType), store)
    else if resourceId !in store then (Err(404, ResourceNotFound), store)
    else
      var v := Raise(store[resourceId].votes, voteType.value);
      (Ok(200, v), store[resourceId := store[resourceId].(votes := v)])
  }

  /** A vote raises the total by exactly one and never lowers either counter. */
  lemma VoteRaisesOneCounter(store: Store, caller: Caller, resourceId: string, voteType: Option<string>)
    requires VoteResource(store, caller, resourceId, voteType).0.Ok?
    ensures var after := VoteResource(store, caller, resourceId, voteType).1[resourceId].votes;
            var before := store[resourceId].votes;
            && after.upvotes >= before.upvotes && after.downvotes >= before.downvotes
            && after.upvotes + after.downvotes == before.upvotes + before.downvotes + 1
            && VoteCount(Some(after)) == VoteCount(Some(before)) + (if voteType == Some("upvote") then 1 else -1)
  {
  }

  /** Votes are not tracked per user: the same user's repeated upvote counts again. */
  lemma RepeatedUpvotesAccumulate(store: Store, user: UserPayload, resourceId: string)
    requires resourceId in store
    ensures var s1 := VoteResource(store, Some(user), resourceId, Some("upvote")).1;
            var s2 := VoteResource(s1, Some(user), resourceId, Some("upvote")).1;
            s2[resourceId].votes.upvotes == store[resourceId].votes.upvotes + 2
  {
  }

  /** Voting keeps every stored document valid. */
  lemma VotePreservesValidStore(store: Store, caller: Caller, resourceId: string, voteType: Option<string>)
    requires ValidStore(store)
    ensures ValidStore(VoteResource(store, caller, resourceId, voteType).1)
  {
  }
}
