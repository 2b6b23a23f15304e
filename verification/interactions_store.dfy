/**
 * The front end's interactions store: a map from resource id to the signed-in
 * user's interaction with that resource (own vote, bookmark flag, vote
 * counts), read through getters that default for absent ids, updated locally
 * after a vote or bookmark, merged right-biased with fetched data, and
 * filled on demand for the ids it does not know yet.
 */
module InteractionsStore {
  import opened Wrappers
  import opened Seqs

  datatype VoteValue = Up | Down

  /** A vote as the store keeps it; only its value is ever read. */
  datatype Vote = Vote(value: VoteValue)

  datatype Counts = Counts(upvotes: int, downvotes: int)

  datatype Interaction = Interaction(vote: Option<Vote>, isBookmarked: bool, votes: Counts)

  type InteractionMap = map<string, Interaction>

  const NoVotes: Counts := Counts(0, 0)

  const FetchErrorMessage: string := "Failed to load resource interactions"

  /** The store's state; an entry object is always truthy, so "keyed" is "in the map". */
  datatype State = State(interactions: InteractionMap, isLoading: bool, error: Option<string>)

  /** getResourceInteraction: the entry, or null. */
  function GetResourceInteraction(m: InteractionMap, resourceId: string): (r: Option<Interaction>)
    ensures r.Some? <==> resourceId in m
    ensures r.Some? ==> r.value == m[resourceId]
  {
    if resourceId in m then Some(m[resourceId]) else None
  }

  /** getUserVote: the vote's value, or null when there is no entry or no vote. */
  function GetUserVote(m: InteractionMap, resourceId: string): (r: Option<VoteValue>)
    ensures r.Some? <==> resourceId in m && m[resourceId].vote.Some?
    ensures r.Some? ==> r.value == m[resourceId].vote.value.value
  {
    var i := GetResourceInteraction(m, resourceId);
    if i.Some? && i.value.vote.Some? then Some(i.value.vote.value.value) else None
  }

  /** isBookmarked: the flag, or false when there is no entry. */
  function IsBookmarked(m: InteractionMap, resourceId: string): (r: bool)
    ensures r <==> resourceId in m && m[resourceId].isBookmarked
  {
    var i := GetResourceInteraction(m, resourceId);
    i.Some? && i.value.isBookmarked
  }

  /** getVoteCounts: the counts, or zero and zero when there is no entry. */
  function GetVoteCounts(m: InteractionMap, resourceId: string): (r: Counts)
    ensures resourceId in m ==> r == m[resourceId].votes
    ensures resourceId !in m ==> r == NoVotes
  {
    var i := GetResourceInteraction(m, resourceId);
    if i.Some? then i.value.votes else NoVotes
  }

  /** updateVote: set vote and counts, keep an existing bookmark flag, start a new entry unbookmarked. */
  function UpdateVote(m: InteractionMap, resourceId: string, vote: Option<Vote>, votes: Counts): (r: InteractionMap)
    ensures r.Keys == m.Keys + {resourceId}
    ensures r[resourceId].vote == vote && r[resourceId].votes == votes
    ensures r[resourceId].isBookmarked == (resourceId in m && m[resourceId].isBookmarked)
    ensures forall k :: k in m && k != resourceId ==> r[k] == m[k]
  {
    if resourceId !in m then m[resourceId := Interaction(vote, false, votes)]
    else m[resourceId := m[resourceId].(vote := vote, votes := votes)]
  }

  /** updateBookmarkStatus: set the flag, keep an existing vote and counts, start a new entry with none. */
  function UpdateBookmarkStatus(m: InteractionMap, resourceId: string, status: bool): (r: InteractionMap)
    ensures r.Keys == m.Keys + {resourceId}
    ensures r[resourceId].isBookmarked == status
    ensures resourceId in m ==> r[resourceId].vote == m[resourceId].vote && r[resourceId].votes == m[resourceId].votes
    ensures resourceId !in m ==> r[resourceId].vote.None? && r[resourceId].votes == NoVotes
    ensures forall k :: k in m && k != resourceId ==> r[k] == m[k]
  {
    if resourceId !in m then m[resourceId := Interaction(None, status, NoVotes)]
    else m[resourceId := m[resourceId].(isBookmarked := status)]
  }

  /** updateInteractionsMap: `{...old, ...new}`, the new value winning on shared keys. */
  function UpdateInteractionsMap(m: InteractionMap, incoming: InteractionMap): (r: InteractionMap)
    ensures r.Keys == m.Keys + incoming.Keys
    ensures forall k :: k in incoming ==> r[k] == incoming[k]
    ensures forall k :: k in m && k !in incoming ==> r[k] == m[k]
  {
    m + incoming
  }

  /** clearInteractions: the empty map. */
  function ClearInteractions(m: InteractionMap): (r: InteractionMap)
    ensures forall k :: k !in r
  {
    map[]
  }

  /** After clearing, every getter answers its default for every id. */
  lemma ClearedGettersDefault(m: InteractionMap, resourceId: string)
    ensures GetResourceInteraction(ClearInteractions(m), resourceId).None?
    ensures GetUserVote(ClearInteractions(m), resourceId).None?
    ensures !IsBookmarked(ClearInteractions(m), resourceId)
    ensures GetVoteCounts(ClearInteractions(m), resourceId) == NoVotes
  {
  }

  /** A local vote is read back through the getters, and the bookmark flag survives it. */
  lemma VoteReadBack(m: InteractionMap, resourceId: string, vote: Option<Vote>, votes: Counts)
    ensures GetUserVote(UpdateVote(m, resourceId, vote, votes), resourceId)
            == (if vote.Some? then Some(vote.value.value) else None)
    ensures GetVoteCounts(UpdateVote(m, resourceId, vote, votes), resourceId) == votes
    ensures IsBookmarked(UpdateVote(m, resourceId, vote, votes), resourceId) == IsBookmarked(m, resourceId)
  {
  }

  /** A local bookmark change is read back, and the vote and counts survive it. */
  lemma BookmarkReadBack(m: InteractionMap, resourceId: string, status: bool)
    ensures IsBookmarked(UpdateBookmarkStatus(m, resourceId, status), resourceId) == status
    ensures GetUserVote(UpdateBookmarkStatus(m, resourceId, status), resourceId) == GetUserVote(m, resourceId)
    ensures GetVoteCounts(UpdateBookmarkStatus(m, resourceId, status), resourceId) == GetVoteCounts(m, resourceId)
  {
  }

  /** The two local updates touch disjoint fields, so their order does not matter. */
  lemma VoteAndBookmarkCommute(m: InteractionMap, resourceId: string, vote: Option<Vote>, votes: Counts, status: bool)
    ensures UpdateBookmarkStatus(UpdateVote(m, resourceId, vote, votes), resourceId, status)
            == UpdateVote(UpdateBookmarkStatus(m, resourceId, status), resourceId, vote, votes)
  {
  }

  /** Merging is associative and the empty map changes nothing. */
  lemma MergeLaws(a: InteractionMap, b: InteractionMap, c: InteractionMap)
    ensures UpdateInteractionsMap(UpdateInteractionsMap(a, b), c) == UpdateInteractionsMap(a, UpdateInteractionsMap(b, c))
    ensures UpdateInteractionsMap(a, map[]) == a
    ensures UpdateInteractionsMap(a, a) == a
  {
  }

  /** An id worth requesting: non-empty and not already keyed. */
  predicate Wanted(m: InteractionMap, id: string) {
    id !in m && id != ""
  }

  /** The ids to request: each wanted id as often as it is listed, and no other. */
  function MissingIds(m: InteractionMap, resourceIds: seq<string>): (r: seq<string>)
    ensures forall id :: id in r <==> id in resourceIds && Wanted(m, id)
    ensures forall id :: multiset(r)[id] == if Wanted(m, id) then multiset(resourceIds)[id] else 0
    ensures |r| <= |resourceIds|
  {
    var r := Filter(resourceIds, (id: string) => Wanted(m, id));
    assert forall id :: multiset(r)[id] == if Wanted(m, id) then multiset(resourceIds)[id] else 0 by {
      forall id ensures multiset(r)[id] == if Wanted(m, id) then multiset(resourceIds)[id] else 0 {
        FilterMultiset(resourceIds, (id: string) => Wanted(m, id), id);
      }
    }
    assert forall id :: id in r <==> id in resourceIds && Wanted(m, id) by {
      forall id ensures id in r <==> id in resourceIds && Wanted(m, id) {
        FilterMembership(resourceIds, (id: string) => Wanted(m, id), id);
      }
    }
    r
  }

  /** What the batch request does: answer (with or without success and data), or throw. */
  datatype Fetched = Answered(success: bool, data: Option<InteractionMap>) | Threw

  /**
   * fetchResourceInteractions. `authenticated` is the auth store's flag and
   * `service` stands for the batch request. The second component is the list
   * of ids requested, or None when no request is made.
   */
  function FetchResourceInteractions(s: State, authenticated: bool, resourceIds: seq<string>,
                                     service: seq<string> -> Fetched): (res: (State, Option<seq<string>>))
    ensures res.1.None? <==> !authenticated || |resourceIds| == 0
                             || forall id :: id in resourceIds ==> !Wanted(s.interactions, id)
    ensures res.1.None? ==> res.0 == s
    ensures res.1.Some? ==> res.1.value == MissingIds(s.interactions, resourceIds)
    ensures res.1.Some? ==> forall id :: id in res.1.value <==> id in resourceIds && Wanted(s.interactions, id)
    ensures res.1.Some? ==> !res.0.isLoading
    ensures res.1.Some? ==>
      var answer := service(res.1.value);
      && (answer.Answered? && answer.success && answer.data.Some? ==>
            res.0.interactions == UpdateInteractionsMap(s.interactions, answer.data.value))
      && (!(answer.Answered? && answer.success && answer.data.Some?) ==> res.0.interactions == s.interactions)
      && (res.0.error == if answer.Threw? then Some(FetchErrorMessage) else None)
  {
    if !authenticated || |resourceIds| == 0 then (s, None)
    else
      var missing := MissingIds(s.interactions, resourceIds);
      if |missing| == 0 then
        assert forall id :: id in resourceIds ==> !Wanted(s.interactions, id);
        (s, None)
      else
        assert missing[0] in resourceIds && Wanted(s.interactions, missing[0]);
        var answer := service(missing);
        var next :=
          if answer.Threw? then s.(isLoading := false, error := Some(FetchErrorMessage))
          else if answer.success && answer.data.Some? then
            State(UpdateInteractionsMap(s.interactions, answer.data.value), false, None)
          else s.(isLoading := false, error := None);
        (next, Some(missing))
  }

  /**
   * fetchResourceInteractions as the store is written: the interaction service
   * it calls has no batch method, so every request it makes throws.
   */
  function FetchAsWritten(s: State, authenticated: bool, resourceIds: seq<string>): (res: (State, Option<seq<string>>))
    ensures res.1.None? <==> !authenticated || |resourceIds| == 0
                             || forall id :: id in resourceIds ==> !Wanted(s.interactions, id)
    ensures res.1.None? ==> res.0 == s
    ensures res.1.Some? ==> res.0 == State(s.interactions, false, Some(FetchErrorMessage))
  {
    FetchResourceInteractions(s, authenticated, resourceIds, (ids: seq<string>) => Threw)
  }

  /**
   * Where the written fetch and one with a working batch request part: for an
   * id that is wanted, the written one never learns its interactions, while a
   * successful answer covering it makes it known.
   */
  lemma {:induction false} AsWrittenFetchNeverFills(s: State, resourceIds: seq<string>, id: string,
                                                   service: seq<string> -> Fetched)
    requires id in resourceIds && Wanted(s.interactions, id)
    requires var answer := service(MissingIds(s.interactions, resourceIds));
             answer.Answered? && answer.success && answer.data.Some? && id in answer.data.value
    ensures FetchAsWritten(s, true, resourceIds).0.interactions == s.interactions
    ensures FetchAsWritten(s, true, resourceIds).0.error == Some(FetchErrorMessage)
    ensures id !in FetchAsWritten(s, true, resourceIds).0.interactions
    ensures id in FetchResourceInteractions(s, true, resourceIds, service).0.interactions
  {
    var (after, requested) := FetchResourceInteractions(s, true, resourceIds, service);
    assert requested.Some?;
    var data := service(requested.value).data.value;
    assert after.interactions == UpdateInteractionsMap(s.interactions, data);
  }

  /**
   * After a successful fetch every requested id the answer covers is known,
   * and an entry the answer does not mention is kept.
   */
  lemma FetchFillsAnswered(s: State, resourceIds: seq<string>, service: seq<string> -> Fetched)
    requires FetchResourceInteractions(s, true, resourceIds, service).1.Some?
    ensures var (after, requested) := FetchResourceInteractions(s, true, resourceIds, service);
            var answer := service(requested.value);
            answer.Answered? && answer.success && answer.data.Some? ==>
              (forall id :: id in answer.data.value ==> GetResourceInteraction(after.interactions, id) == Some(answer.data.value[id]))
              && (forall id :: id in s.interactions && id !in answer.data.value ==>
                    GetResourceInteraction(after.interactions, id) == GetResourceInteraction(s.interactions, id))
  {
  }

  /** A second fetch of ids the first one filled makes no request. */
  lemma RefetchIsSkipped(s: State, resourceIds: seq<string>, service: seq<string> -> Fetched)
    requires var (after, requested) := FetchResourceInteractions(s, true, resourceIds, service);
             requested.Some? && service(requested.value).Answered? && service(requested.value).success
             && service(requested.value).data.Some?
             && forall id :: id in requested.value ==> id in service(requested.value).data.value
    ensures FetchResourceInteractions(FetchResourceInteractions(s, true, resourceIds, service).0,
                                      true, resourceIds, service).1.None?
  {
    var (after, requested) := FetchResourceInteractions(s, true, resourceIds, service);
    forall id | id in resourceIds ensures !Wanted(after.interactions, id) {
      if id != "" && id !in s.interactions {
        assert id in requested.value;
      }
    }
  }
}
