/** The records of the skill-exchange backend: skills, "have" levels,
    learning requests, conversations and chat messages, with the choices,
    defaults and uniqueness constraints their tables declare. Timestamps
    (`created_at`, filled in on insert) are a counter that grows with every
    insert. */
module Models {

  datatype Option<+T> = None | Some(value: T)

  // ---------------------------------------------------------------------
  // Skills and levels
  // ---------------------------------------------------------------------

  datatype Skill = Skill(id: int, name: string)

  /** The skill table: `name` is declared unique. */
  predicate SkillNamesUnique(skills: seq<Skill>)
  {
    forall i, j :: 0 <= i < j < |skills| ==> skills[i].name != skills[j].name
  }

  /** Looks a skill up by name, as the unique index allows. */
  function SkillNamed(skills: seq<Skill>, name: string): (r: Option<Skill>)
    ensures r.Some? <==> exists i :: 0 <= i < |skills| && skills[i].name == name
    ensures r.Some? ==> r.value in skills && r.value.name == name
    ensures r.Some? && SkillNamesUnique(skills) ==>
      forall i :: 0 <= i < |skills| && skills[i].name == name ==> skills[i] == r.value
  {
    if skills == [] then None
    else if skills[0].name == name then
      assert forall i :: 0 < i < |skills| && SkillNamesUnique(skills) ==> skills[i].name != name by {
        forall i | 0 < i < |skills| && SkillNamesUnique(skills) ensures skills[i].name != name {
          assert skills[0].name != skills[i].name;
        }
      }
      Some(skills[0])
    else
      var r := SkillNamed(skills[1..], name);
      assert forall i :: 0 < i < |skills| ==> skills[i] == skills[1..][i - 1];
      assert SkillNamesUnique(skills) ==> SkillNamesUnique(skills[1..]) by {
        if SkillNamesUnique(skills) {
          forall i, j | 0 <= i < j < |skills[1..]| ensures skills[1..][i].name != skills[1..][j].name {
            assert skills[1..][i] == skills[i + 1] && skills[1..][j] == skills[j + 1];
          }
        }
      }
      r
  }

  /** The level choices of a "have" skill. */
  datatype Level = Beginner | Intermediate | Advanced

  function LevelName(l: Level): string
  {
    match l
    case Beginner => "beginner"
    case Intermediate => "intermediate"
    case Advanced => "advanced"
  }

  /** Reads a stored level; anything outside the three choices is refused. */
  function ParseLevel(name: string): (r: Option<Level>)
    ensures r.Some? <==> name == "beginner" || name == "intermediate" || name == "advanced"
    ensures r.Some? ==> LevelName(r.value) == name
  {
    if name == "beginner" then Some(Beginner)
    else if name == "intermediate" then Some(Intermediate)
    else if name == "advanced" then Some(Advanced)
    else None
  }

  lemma LevelRoundTrip(l: Level)
    ensures ParseLevel(LevelName(l)) == Some(l)
  {
  }

  // ---------------------------------------------------------------------
  // Learning requests
  // ---------------------------------------------------------------------

  /** The status choices of a learning request. */
  datatype Status = Pending | Accepted | Rejected

  /** The column default: a new request is pending. */
  const DefaultStatus: Status := Pending

  function StatusName(s: Status): string
  {
    match s
    case Pending => "pending"
    case Accepted => "accepted"
    case Rejected => "rejected"
  }

  function ParseStatus(name: string): (r: Option<Status>)
    ensures r.Some? <==> name == "pending" || name == "accepted" || name == "rejected"
    ensures r.Some? ==> StatusName(r.value) == name
  {
    if name == "pending" then Some(Pending)
    else if name == "accepted" then Some(Accepted)
    else if name == "rejected" then Some(Rejected)
    else None
  }

  lemma StatusRoundTrip(s: Status)
    ensures ParseStatus(StatusName(s)) == Some(s)
  {
  }

  datatype LearningRequest = LearningRequest(
    id: nat,
    fromUser: int,
    toUser: int,
    message: string,
    status: Status,
    createdAt: nat)

  /** The default ordering of request listings: newest first. */
  predicate NewestFirst(rs: seq<LearningRequest>)
  {
    forall i, j :: 0 <= i < j < |rs| ==> rs[i].createdAt > rs[j].createdAt
  }

  // ---------------------------------------------------------------------
  // Conversations and messages
  // ---------------------------------------------------------------------

  datatype Conversation = Conversation(id: nat, user1: int, user2: int)

  /** `unique_together = ("user1", "user2")`. */
  predicate ConversationPairsUnique(cs: seq<Conversation>)
  {
    forall i, j :: 0 <= i < j < |cs| ==> (cs[i].user1, cs[i].user2) != (cs[j].user1, cs[j].user2)
  }

  datatype Message = Message(
    id: nat,
    conversation: nat,
    sender: int,
    text: string,
    createdAt: nat,
    isRead: bool)

  /** Rows in insertion order: every insert is later than the ones before. */
  predicate InsertedInOrder(ms: seq<Message>)
  {
    forall i, j :: 0 <= i < j < |ms| ==> ms[i].createdAt < ms[j].createdAt
  }

  /** The default ordering of message listings: oldest first. */
  predicate OldestFirst(ms: seq<Message>)
  {
    forall i, j :: 0 <= i < j < |ms| ==> ms[i].createdAt <= ms[j].createdAt
  }

  /** The messages of one conversation, read from the message table in
      insertion order. */
  function MessagesOf(ms: seq<Message>, conversation: nat): (r: seq<Message>)
    ensures forall m {:trigger m in r} :: m in r <==> m in ms && m.conversation == conversation
  {
    if ms == [] then []
    else if ms[0].conversation == conversation then [ms[0]] + MessagesOf(ms[1..], conversation)
    else MessagesOf(ms[1..], conversation)
  }

  /** A conversation's messages come out oldest first. */
  lemma {:induction false} MessagesOfOldestFirst(ms: seq<Message>, conversation: nat)
    requires InsertedInOrder(ms)
    ensures OldestFirst(MessagesOf(ms, conversation))
  {
    if ms != [] {
      var tail := ms[1..];
      assert InsertedInOrder(tail) by {
        forall i, j | 0 <= i < j < |tail| ensures tail[i].createdAt < tail[j].createdAt {
          assert tail[i] == ms[i + 1] && tail[j] == ms[j + 1];
        }
      }
      MessagesOfOldestFirst(tail, conversation);
      var rest := MessagesOf(tail, conversation);
      if ms[0].conversation == conversation {
        var r := [ms[0]] + rest;
        assert forall m :: m in tail ==> ms[0].createdAt < m.createdAt by {
          forall m | m in tail ensures ms[0].createdAt < m.createdAt {
            var k :| 0 <= k < |tail| && tail[k] == m;
            assert ms[k + 1] == m;
          }
        }
        forall i, j | 0 <= i < j < |r| ensures r[i].createdAt <= r[j].createdAt {
          if i == 0 {
            assert r[j] == rest[j - 1] && rest[j - 1] in rest;
          } else {
            assert r[i] == rest[i - 1] && r[j] == rest[j - 1];
          }
        }
        assert MessagesOf(ms, conversation) == r;
      }
    }
  }
}
