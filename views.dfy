/** The learning-request handlers of the backend: creating a request,
    accepting or rejecting it, listing a user's incoming and outgoing
    requests, and shaping the mentor recommendations. The request and
    conversation tables are fields of a board object that the handlers
    update in place; the authenticated caller is a parameter. */
module Views {
  import opened Models
  import opened Matcher

  // ---------------------------------------------------------------------
  // Outcomes and their HTTP status codes
  // ---------------------------------------------------------------------

  datatype CreateOutcome =
    | Created(request: LearningRequest)
    | MissingTarget        // "to_user_id is required"
    | TargetNotFound       // "Target user not found"
    | SelfRequest          // "You cannot send a request to yourself."
    | DuplicatePending     // "You already have a pending request to this user."

  function CreateStatusCode(o: CreateOutcome): (code: int)
    ensures code == 201 <==> o.Created?
    ensures code == 404 <==> o == TargetNotFound
    ensures code == 400 <==> o == MissingTarget || o == SelfRequest || o == DuplicatePending
  {
    match o
    case Created(_) => 201
    case TargetNotFound => 404
    case _ => 400
  }

  datatype ActionOutcome =
    | RequestAccepted(conversationId: nat)   // "Request accepted."
    | RequestRejected                        // "Request rejected."
    | RequestNotFound                        // "Request not found."
    | AlreadyProcessed                       // "Request is already processed."
    | InvalidAction                          // "Invalid action."

  function ActionStatusCode(o: ActionOutcome): (code: int)
    ensures code == 200 <==> o.RequestAccepted? || o == RequestRejected
    ensures code == 404 <==> o == RequestNotFound
    ensures code == 400 <==> o == AlreadyProcessed || o == InvalidAction
  {
    match o
    case RequestAccepted(_) => 200
    case RequestRejected => 200
    case RequestNotFound => 404
    case _ => 400
  }

  // ---------------------------------------------------------------------
  // Queries over the tables
  // ---------------------------------------------------------------------

  /** `not to_user_id`: a missing value or zero. */
  predicate IsFalsy(toUserId: Option<int>)
  {
    toUserId.None? || toUserId.value == 0
  }

  /** Is there a pending request from `fromUser` to `toUser`? */
  predicate HasPending(rs: seq<LearningRequest>, fromUser: int, toUser: int)
  {
    exists i :: 0 <= i < |rs| && rs[i].fromUser == fromUser && rs[i].toUser == toUser && rs[i].status == Pending
  }

  /** `LearningRequest.objects.get(pk=pk, to_user=caller)`: the position of
      the request with this id whose recipient is the caller. */
  function FindRequest(rs: seq<LearningRequest>, pk: int, caller: int): (r: Option<nat>)
    ensures r.Some? ==> r.value < |rs| && rs[r.value].id == pk && rs[r.value].toUser == caller
    ensures r.None? ==> forall i :: 0 <= i < |rs| ==> !(rs[i].id == pk && rs[i].toUser == caller)
  {
    if rs == [] then None
    else if rs[0].id == pk && rs[0].toUser == caller then Some(0)
    else
      match FindRequest(rs[1..], pk, caller)
      case None => None
      case Some(k) => Some(k + 1)
  }

  /** `sorted([a, b], key=id)`: the two users, smaller id first. */
  function OrderedPair(a: int, b: int): (p: (int, int))
    ensures p.0 <= p.1
    ensures (p.0 == a && p.1 == b) || (p.0 == b && p.1 == a)
  {
    if a <= b then (a, b) else (b, a)
  }

  lemma OrderedPairSymmetric(a: int, b: int)
    ensures OrderedPair(a, b) == OrderedPair(b, a)
  {
  }

  /** The position of the conversation of this pair, if there is one. */
  function FindConversation(cs: seq<Conversation>, pair: (int, int)): (r: Option<nat>)
    ensures r.Some? ==> r.value < |cs| && (cs[r.value].user1, cs[r.value].user2) == pair
    ensures r.None? ==> forall i :: 0 <= i < |cs| ==> (cs[i].user1, cs[i].user2) != pair
  {
    if cs == [] then None
    else if (cs[0].user1, cs[0].user2) == pair then Some(0)
    else
      match FindConversation(cs[1..], pair)
      case None => None
      case Some(k) => Some(k + 1)
  }

  /** The result of `Conversation.objects.get_or_create` on the table. */
  datatype ConversationLookup = ConversationLookup(
    conversations: seq<Conversation>,
    id: nat,
    nextId: nat,
    created: bool)

  /** Returns the conversation of `pair`, inserting it with id `nextId` when
      there is none yet. */
  function GetOrCreate(cs: seq<Conversation>, pair: (int, int), nextId: nat): (r: ConversationLookup)
    ensures r.created <==> FindConversation(cs, pair).None?
    ensures !r.created ==> r.conversations == cs && r.nextId == nextId
    ensures r.created ==> r.conversations == cs + [Conversation(nextId, pair.0, pair.1)] && r.nextId == nextId + 1
  {
    match FindConversation(cs, pair)
    case Some(k) => ConversationLookup(cs, cs[k].id, nextId, false)
    case None => ConversationLookup(cs + [Conversation(nextId, pair.0, pair.1)], nextId, nextId + 1, true)
  }

  /** The conversation table: one row per ordered pair, ids increasing and
      below the next id to hand out. */
  predicate ConversationsWellFormed(cs: seq<Conversation>, nextId: nat)
  {
    ConversationPairsUnique(cs) &&
    (forall i :: 0 <= i < |cs| ==> cs[i].user1 <= cs[i].user2 && cs[i].id < nextId) &&
    (forall i, j :: 0 <= i < j < |cs| ==> cs[i].id < cs[j].id)
  }

  /** After get-or-create the pair has exactly the returned conversation,
      and the table keeps its shape. */
  lemma GetOrCreateFinds(cs: seq<Conversation>, pair: (int, int), nextId: nat)
    requires ConversationsWellFormed(cs, nextId)
    requires pair.0 <= pair.1
    ensures var r := GetOrCreate(cs, pair, nextId);
      ConversationsWellFormed(r.conversations, r.nextId) &&
      FindConversation(r.conversations, pair).Some? &&
      r.conversations[FindConversation(r.conversations, pair).value].id == r.id &&
      (forall i :: 0 <= i < |r.conversations| && (r.conversations[i].user1, r.conversations[i].user2) == pair ==>
         r.conversations[i].id == r.id)
  {
    var r := GetOrCreate(cs, pair, nextId);
    if r.created {
      assert (r.conversations[|cs|].user1, r.conversations[|cs|].user2) == pair;
      assert r.conversations[|cs|].id == nextId;
    }
  }

  /** Accepting twice for the same pair creates no second conversation. */
  lemma GetOrCreateIdempotent(cs: seq<Conversation>, pair: (int, int), nextId: nat)
    ensures var r := GetOrCreate(cs, pair, nextId);
      var r2 := GetOrCreate(r.conversations, pair, r.nextId);
      !r2.created && r2.conversations == r.conversations && r2.nextId == r.nextId
  {
    var r := GetOrCreate(cs, pair, nextId);
    if r.created {
      assert (r.conversations[|cs|].user1, r.conversations[|cs|].user2) == pair;
    }
  }

  // ---------------------------------------------------------------------
  // Invariants of the request table
  // ---------------------------------------------------------------------

  /** Every request joins two different existing users, ids and timestamps
      increase with insertion and stay below the next ones to hand out. */
  predicate RequestsWellFormed(rs: seq<LearningRequest>, users: set<int>, clock: nat, nextId: nat)
  {
    (forall i :: 0 <= i < |rs| ==>
       rs[i].fromUser in users && rs[i].toUser in users && rs[i].fromUser != rs[i].toUser &&
       rs[i].id < nextId && rs[i].createdAt < clock) &&
    (forall i, j :: 0 <= i < j < |rs| ==> rs[i].id < rs[j].id && rs[i].createdAt < rs[j].createdAt)
  }

  /** At most one pending request per (from, to) pair. */
  predicate AtMostOnePending(rs: seq<LearningRequest>)
  {
    forall i, j :: 0 <= i < j < |rs| && rs[i].status == Pending && rs[j].status == Pending ==>
      (rs[i].fromUser, rs[i].toUser) != (rs[j].fromUser, rs[j].toUser)
  }

  /** No pending request has a later request for the same (from, to) pair:
      a new request is only created while none of its pair is pending, and
      a request never returns to pending. */
  predicate PendingIsLatest(rs: seq<LearningRequest>)
  {
    forall i, j :: 0 <= i < j < |rs| && rs[i].fromUser == rs[j].fromUser && rs[i].toUser == rs[j].toUser ==>
      rs[i].status != Pending
  }

  lemma PendingIsLatestAtMostOne(rs: seq<LearningRequest>)
    requires PendingIsLatest(rs)
    ensures AtMostOnePending(rs)
  {
  }

  /** The status of the latest request from `fromUser` to `toUser`, if any. */
  function LatestStatus(rs: seq<LearningRequest>, fromUser: int, toUser: int): Option<Status>
  {
    if rs == [] then None
    else
      var last := rs[|rs| - 1];
      if last.fromUser == fromUser && last.toUser == toUser then Some(last.status)
      else LatestStatus(rs[..|rs| - 1], fromUser, toUser)
  }

  /** On a table that keeps pending requests latest, the latest request of a
      pair is pending exactly when the pair has a pending request. */
  lemma {:induction false} LatestStatusPending(rs: seq<LearningRequest>, fromUser: int, toUser: int)
    requires PendingIsLatest(rs)
    ensures LatestStatus(rs, fromUser, toUser) == Some(Pending) <==> HasPending(rs, fromUser, toUser)
  {
    if rs != [] {
      var n := |rs| - 1;
      var init := rs[..n];
      var last := rs[n];
      assert PendingIsLatest(init) by {
        forall i, j | 0 <= i < j < |init| && init[i].fromUser == init[j].fromUser && init[i].toUser == init[j].toUser
          ensures init[i].status != Pending
        {
          assert init[i] == rs[i] && init[j] == rs[j];
        }
      }
      LatestStatusPending(init, fromUser, toUser);
      if last.fromUser == fromUser && last.toUser == toUser {
        if HasPending(rs, fromUser, toUser) {
          var i :| 0 <= i < |rs| && rs[i].fromUser == fromUser && rs[i].toUser == toUser && rs[i].status == Pending;
          if i < n {
            assert false;
          }
        }
      } else {
        if HasPending(rs, fromUser, toUser) {
          var i :| 0 <= i < |rs| && rs[i].fromUser == fromUser && rs[i].toUser == toUser && rs[i].status == Pending;
          assert init[i] == rs[i];
        }
        if HasPending(init, fromUser, toUser) {
          var i :| 0 <= i < |init| && init[i].fromUser == fromUser && init[i].toUser == toUser && init[i].status == Pending;
          assert rs[i] == init[i];
        }
      }
    }
  }

  /** Settling a pending request (accepting or rejecting it) keeps the
      table well formed and its pending requests latest. */
  lemma SettleKeepsInvariants(rs: seq<LearningRequest>, users: set<int>, clock: nat, nextId: nat, k: nat, s: Status)
    requires RequestsWellFormed(rs, users, clock, nextId) && PendingIsLatest(rs)
    requires k < |rs| && s != Pending
    ensures RequestsWellFormed(rs[k := rs[k].(status := s)], users, clock, nextId)
    ensures PendingIsLatest(rs[k := rs[k].(status := s)])
  {
  }

  /** Every accepted request has the conversation of its pair. */
  predicate AcceptedAreConnected(rs: seq<LearningRequest>, cs: seq<Conversation>)
  {
    forall i :: 0 <= i < |rs| && rs[i].status == Accepted ==>
      FindConversation(cs, OrderedPair(rs[i].fromUser, rs[i].toUser)).Some?
  }

  /** With distinct ids, `get(pk=…, to_user=…)` can match one row only. */
  lemma FindRequestUnique(rs: seq<LearningRequest>, users: set<int>, clock: nat, nextId: nat, pk: int, caller: int)
    requires RequestsWellFormed(rs, users, clock, nextId)
    ensures FindRequest(rs, pk, caller).Some? ==>
      forall i :: 0 <= i < |rs| && rs[i].id == pk ==> i == FindRequest(rs, pk, caller).value
  {
  }

  // ---------------------------------------------------------------------
  // Listings
  // ---------------------------------------------------------------------

  datatype Side = Incoming | Outgoing

  /** The user a listing filters on: the recipient for incoming requests,
      the sender for outgoing ones. */
  function Party(r: LearningRequest, side: Side): int
  {
    match side
    case Incoming => r.toUser
    case Outgoing => r.fromUser
  }

  /** `filter(to_user=…)` or `filter(from_user=…)` with
      `order_by("-created_at")`, read off a table kept in insertion order:
      the latest rows come first. */
  function Listing(rs: seq<LearningRequest>, user: int, side: Side): seq<LearningRequest>
  {
    if rs == [] then []
    else
      var last := rs[|rs| - 1];
      (if Party(last, side) == user then [last] else []) + Listing(rs[..|rs| - 1], user, side)
  }

  /** A listing holds exactly the requests of the user on that side. */
  lemma {:induction false} ListingMembers(rs: seq<LearningRequest>, user: int, side: Side, r: LearningRequest)
    ensures r in Listing(rs, user, side) <==> r in rs && Party(r, side) == user
  {
    if rs != [] {
      var init := rs[..|rs| - 1];
      ListingMembers(init, user, side, r);
      assert rs == init + [rs[|rs| - 1]];
    }
  }

  /** Every listed request was created before `bound` and after nothing
      later in the table: used to show the listing is newest first. */
  lemma {:induction false} ListingNewestFirst(rs: seq<LearningRequest>, user: int, side: Side)
    requires forall i, j :: 0 <= i < j < |rs| ==> rs[i].createdAt < rs[j].createdAt
    ensures NewestFirst(Listing(rs, user, side))
  {
    if rs != [] {
      var init := rs[..|rs| - 1];
      var last := rs[|rs| - 1];
      ListingNewestFirst(init, user, side);
      var rest := Listing(init, user, side);
      forall j | 0 <= j < |rest| ensures last.createdAt > rest[j].createdAt {
        assert rest[j] in rest;
        ListingMembers(init, user, side, rest[j]);
        var k :| 0 <= k < |init| && init[k] == rest[j];
        assert rs[k] == init[k];
      }
      var l := Listing(rs, user, side);
      if Party(last, side) == user {
        assert l == [last] + rest;
        forall i, j | 0 <= i < j < |l| ensures l[i].createdAt > l[j].createdAt {
          if i > 0 {
            assert l[i] == rest[i - 1] && l[j] == rest[j - 1];
          } else {
            assert l[j] == rest[j - 1];
          }
        }
      } else {
        assert l == rest;
      }
    }
  }

  // ---------------------------------------------------------------------
  // The board
  // ---------------------------------------------------------------------

  /** The request and conversation tables with the counters the database
      keeps: the next primary keys and the `created_at` clock. */
  class LearningBoard {
    const users: set<int>
    var requests: seq<LearningRequest>
    var conversations: seq<Conversation>
    var clock: nat
    var nextRequestId: nat
    var nextConversationId: nat

    ghost predicate Valid()
      reads this
    {
      RequestsWellFormed(requests, users, clock, nextRequestId) &&
      PendingIsLatest(requests) &&
      ConversationsWellFormed(conversations, nextConversationId) &&
      AcceptedAreConnected(requests, conversations)
    }

    constructor(users: set<int>)
      ensures Valid()
      ensures this.users == users && requests == [] && conversations == []
      ensures nextRequestId == 1 && nextConversationId == 1
    {
      this.users := users;
      requests := [];
      conversations := [];
      clock := 0;
      nextRequestId := 1;
      nextConversationId := 1;
    }

    /** `LearningRequestCreateView.post`, called by the authenticated
        `caller`. The checks run in the order of the source. */
    method CreateRequest(caller: int, toUserId: Option<int>, message: string) returns (outcome: CreateOutcome)
      requires Valid()
      requires caller in users
      modifies this
      ensures Valid()
      ensures outcome == MissingTarget <==> IsFalsy(toUserId)
      ensures outcome == TargetNotFound <==> !IsFalsy(toUserId) && toUserId.value !in users
      ensures outcome == SelfRequest <==>
        !IsFalsy(toUserId) && toUserId.value in users && toUserId.value == caller
      ensures outcome == DuplicatePending <==>
        !IsFalsy(toUserId) && toUserId.value in users && toUserId.value != caller &&
        HasPending(old(requests), caller, toUserId.value)
      ensures outcome.Created? <==>
        !IsFalsy(toUserId) && toUserId.value in users && toUserId.value != caller &&
        !HasPending(old(requests), caller, toUserId.value)
      ensures outcome.Created? ==>
        outcome.request == LearningRequest(old(nextRequestId), caller, toUserId.value, message, DefaultStatus, old(clock)) &&
        requests == old(requests) + [outcome.request]
      ensures !outcome.Created? ==>
        requests == old(requests) && clock == old(clock) && nextRequestId == old(nextRequestId)
      ensures conversations == old(conversations) && nextConversationId == old(nextConversationId)
    {
      if IsFalsy(toUserId) {
        return MissingTarget;
      }
      var target := toUserId.value;
      if target !in users {
        return TargetNotFound;
      }
      if target == caller {
        return SelfRequest;
      }
      if HasPending(requests, caller, target) {
        return DuplicatePending;
      }
      var lr := LearningRequest(nextRequestId, caller, target, message, DefaultStatus, clock);
      requests := requests + [lr];
      nextRequestId := nextRequestId + 1;
      clock := clock + 1;
      outcome := Created(lr);
    }

    /** `LearningRequestActionView.post`, called by the authenticated
        `caller` on the request with primary key `pk`. */
    method ApplyAction(caller: int, pk: int, action: Option<string>) returns (outcome: ActionOutcome)
      requires Valid()
      requires caller in users
      modifies this
      ensures Valid()
      ensures var found := FindRequest(old(requests), pk, caller);
        (outcome == RequestNotFound <==> found.None?) &&
        (outcome == AlreadyProcessed <==> found.Some? && old(requests)[found.value].status != Pending) &&
        (outcome == InvalidAction <==>
           found.Some? && old(requests)[found.value].status == Pending &&
           action != Some("accept") && action != Some("reject")) &&
        (outcome.RequestAccepted? <==>
           found.Some? && old(requests)[found.value].status == Pending && action == Some("accept")) &&
        (outcome == RequestRejected <==>
           found.Some? && old(requests)[found.value].status == Pending && action == Some("reject"))
      ensures outcome.RequestAccepted? ==>
        var k := FindRequest(old(requests), pk, caller).value;
        var lr := old(requests)[k];
        var lookup := GetOrCreate(old(conversations), OrderedPair(lr.fromUser, lr.toUser), old(nextConversationId));
        requests == old(requests)[k := lr.(status := Accepted)] &&
        conversations == lookup.conversations && nextConversationId == lookup.nextId &&
        outcome.conversationId == lookup.id
      ensures outcome == RequestRejected ==>
        var k := FindRequest(old(requests), pk, caller).value;
        requests == old(requests)[k := old(requests)[k].(status := Rejected)]
      ensures !outcome.RequestAccepted? ==>
        conversations == old(conversations) && nextConversationId == old(nextConversationId)
      ensures !outcome.RequestAccepted? && outcome != RequestRejected ==> requests == old(requests)
      ensures clock == old(clock) && nextRequestId == old(nextRequestId)
    {
      var found := FindRequest(requests, pk, caller);
      if found.None? {
        return RequestNotFound;
      }
      var k := found.value;
      var lr := requests[k];
      if lr.status != Pending {
        return AlreadyProcessed;
      }
      if action != Some("accept") && action != Some("reject") {
        return InvalidAction;
      }
      if action == Some("accept") {
        var conversationId := Accept(k);
        outcome := RequestAccepted(conversationId);
      } else {
        Reject(k);
        outcome := RequestRejected;
      }
    }

    /** The accept branch: the request becomes accepted and its pair, ordered
        by id, gets its conversation unless it has one. */
    method Accept(k: nat) returns (conversationId: nat)
      requires Valid()
      requires k < |requests| && requests[k].status == Pending
      modifies this
      ensures Valid()
      ensures var lr := old(requests)[k];
        var lookup := GetOrCreate(old(conversations), OrderedPair(lr.fromUser, lr.toUser), old(nextConversationId));
        requests == old(requests)[k := lr.(status := Accepted)] &&
        conversations == lookup.conversations && nextConversationId == lookup.nextId &&
        conversationId == lookup.id
      ensures clock == old(clock) && nextRequestId == old(nextRequestId)
    {
      var lr := requests[k];
      SettleKeepsInvariants(requests, users, clock, nextRequestId, k, Accepted);
      requests := requests[k := lr.(status := Accepted)];
      var pair := OrderedPair(lr.fromUser, lr.toUser);
      GetOrCreateFinds(conversations, pair, nextConversationId);
      var lookup := GetOrCreate(conversations, pair, nextConversationId);
      ConnectedStaysConnected(requests, conversations, lookup.conversations);
      conversations := lookup.conversations;
      nextConversationId := lookup.nextId;
      conversationId := lookup.id;
    }

    /** The reject branch: the request becomes rejected, nothing else moves. */
    method Reject(k: nat)
      requires Valid()
      requires k < |requests| && requests[k].status == Pending
      modifies this
      ensures Valid()
      ensures requests == old(requests)[k := old(requests)[k].(status := Rejected)]
      ensures conversations == old(conversations) && nextConversationId == old(nextConversationId)
      ensures clock == old(clock) && nextRequestId == old(nextRequestId)
    {
      SettleKeepsInvariants(requests, users, clock, nextRequestId, k, Rejected);
      requests := requests[k := requests[k].(status := Rejected)];
    }
  }

  /** Adding conversations keeps every pair that had one. */
  lemma ConnectedStaysConnected(rs: seq<LearningRequest>, cs: seq<Conversation>, cs': seq<Conversation>)
    requires |cs| <= |cs'| && cs'[..|cs|] == cs
    ensures forall i :: 0 <= i < |rs| && FindConversation(cs, OrderedPair(rs[i].fromUser, rs[i].toUser)).Some? ==>
      FindConversation(cs', OrderedPair(rs[i].fromUser, rs[i].toUser)).Some?
  {
    forall i | 0 <= i < |rs| && FindConversation(cs, OrderedPair(rs[i].fromUser, rs[i].toUser)).Some?
      ensures FindConversation(cs', OrderedPair(rs[i].fromUser, rs[i].toUser)).Some?
    {
      var p := OrderedPair(rs[i].fromUser, rs[i].toUser);
      var k := FindConversation(cs, p).value;
      assert cs'[k] == cs[k];
    }
  }

  // ---------------------------------------------------------------------
  // Recommendations
  // ---------------------------------------------------------------------

  /** One row of the recommendations response. */
  datatype RecommendationRow = RecommendationRow(
    id: int,
    name: string,
    score: real,
    skillsHave: seq<HaveEntry>,
    skillsWant: seq<string>)

  function RowOf(m: Match): RecommendationRow
  {
    RecommendationRow(m.user.id, m.user.name, m.score, m.user.skillsHave, m.user.skillsWant)
  }

  /** `get_recommendations_for_user` asks for the top 5 at the default
      minimum score. */
  const RecommendationCount: int := 5
  const RecommendationMinScore: real := 0.0

  /** The response rows for a list of matches, in order. */
  function Rows(matches: seq<Match>): (rows: seq<RecommendationRow>)
    ensures |rows| == |matches|
  {
    seq(|matches|, i requires 0 <= i < |matches| => RowOf(matches[i]))
  }

  /** The loop of `recommendations_view` that formats every match. */
  method FormatMatches(matches: seq<Match>) returns (rows: seq<RecommendationRow>)
    ensures rows == Rows(matches)
  {
    rows := [];
    for i := 0 to |matches|
      invariant rows == Rows(matches[..i])
    {
      var item := matches[i];
      rows := rows + [RecommendationRow(item.user.id, item.user.name, item.score, item.user.skillsHave, item.user.skillsWant)];
    }
    assert matches[..|matches|] == matches;
  }

  /** `recommendations_view`: the best mentors of `userId`, one row each. */
  method Recommendations(userId: int, users: seq<UserRecord>, score: Scorer) returns (rows: seq<RecommendationRow>)
    ensures rows == Rows(BestMentors(userId, users, RecommendationCount, RecommendationMinScore, score))
  {
    var matches := FindBestMentors(userId, users, RecommendationCount, RecommendationMinScore, score);
    rows := FormatMatches(matches);
  }

  /** What the response promises: at most five rows, never the caller,
      only users with something to teach, scores non-negative and
      highest first. */
  lemma RecommendationsShape(userId: int, users: seq<UserRecord>, score: Scorer, rows: seq<RecommendationRow>)
    requires rows == Rows(BestMentors(userId, users, RecommendationCount, RecommendationMinScore, score))
    ensures |rows| <= 5
    ensures forall i :: 0 <= i < |rows| ==> rows[i].id != userId && rows[i].skillsHave != [] && rows[i].score >= 0.0
    ensures forall i, j :: 0 <= i < j < |rows| ==> rows[i].score >= rows[j].score
  {
    var matches := BestMentors(userId, users, RecommendationCount, RecommendationMinScore, score);
    BestMentorsBound(userId, users, RecommendationCount, RecommendationMinScore, score);
    BestMentorsOrdered(userId, users, RecommendationCount, RecommendationMinScore, score);
    forall i | 0 <= i < |rows| ensures rows[i].id != userId && rows[i].skillsHave != [] && rows[i].score >= 0.0 {
      BestMentorsMembers(userId, users, RecommendationCount, RecommendationMinScore, score, matches[i]);
    }
  }
}
