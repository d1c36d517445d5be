/** The derivations of the learner dashboard: the status of the learner's
    request to a mentor and the button it drives, the connections derived
    from accepted requests through an insertion-ordered map, the overview
    counts, the skill-list rendering rule, the overview slices and the
    empty-query branch of the search. The request lists are the rows the
    backend serialises from its listings. */
module Dashboard {
  import opened Models
  import opened Text
  import Views

  // ---------------------------------------------------------------------
  // Request rows as the dashboard receives them
  // ---------------------------------------------------------------------

  /** The fields of a serialised learning request that the dashboard reads. */
  datatype RequestRow = RequestRow(
    id: nat,
    fromUser: int,
    toUser: int,
    fromUsername: string,
    toUsername: string,
    status: Status)

  /** A request as the backend serialiser writes it; `username` resolves a
      user id to its user name. */
  function RowOf(r: LearningRequest, username: int -> string): RequestRow
  {
    RequestRow(r.id, r.fromUser, r.toUser, username(r.fromUser), username(r.toUser), r.status)
  }

  function RowsOf(rs: seq<LearningRequest>, username: int -> string): (rows: seq<RequestRow>)
    ensures |rows| == |rs|
    ensures forall i :: 0 <= i < |rs| ==> rows[i] == RowOf(rs[i], username)
  {
    seq(|rs|, i requires 0 <= i < |rs| => RowOf(rs[i], username))
  }

  // ---------------------------------------------------------------------
  // Request status and the request button
  // ---------------------------------------------------------------------

  /** `getRequestStatusForUser`: the status of the first outgoing row sent
      to `userId`, or nothing when there is none. */
  function RequestStatusFor(outgoing: seq<RequestRow>, userId: int): (r: Option<Status>)
    ensures r.None? <==> forall i :: 0 <= i < |outgoing| ==> outgoing[i].toUser != userId
    ensures r.Some? ==> exists i :: (0 <= i < |outgoing| && outgoing[i].toUser == userId &&
      outgoing[i].status == r.value && forall j :: 0 <= j < i ==> outgoing[j].toUser != userId)
  {
    if outgoing == [] then None
    else if outgoing[0].toUser == userId then Some(outgoing[0].status)
    else
      var rest := RequestStatusFor(outgoing[1..], userId);
      assert forall i :: 1 <= i < |outgoing| ==> outgoing[i] == outgoing[1..][i - 1];
      if rest.Some? then
        assert exists i :: (1 <= i < |outgoing| && outgoing[i].toUser == userId &&
          outgoing[i].status == rest.value && forall j :: 0 <= j < i ==> outgoing[j].toUser != userId) by {
          var k :| 0 <= k < |outgoing[1..]| && outgoing[1..][k].toUser == userId &&
            outgoing[1..][k].status == rest.value && forall j :: 0 <= j < k ==> outgoing[1..][j].toUser != userId;
          assert outgoing[k + 1] == outgoing[1..][k];
          forall j | 0 <= j < k + 1 ensures outgoing[j].toUser != userId {
            if j > 0 {
              assert outgoing[j] == outgoing[1..][j - 1];
            }
          }
        }
        rest
      else rest
  }

  /** Whether a mentor's request button is disabled, and its label. */
  datatype Button = Button(disabled: bool, caption: string)

  const RequestedLabel: string := "Requested"
  const ConnectedLabel: string := "Connected"
  const RequestLabel: string := "Request to learn"

  /** The button rule of the overview and the matches tab. */
  function ButtonFor(status: Option<Status>): (b: Button)
    ensures b.disabled <==> status == Some(Pending) || status == Some(Accepted)
    ensures b.caption == RequestedLabel <==> status == Some(Pending)
    ensures b.caption == ConnectedLabel <==> status == Some(Accepted)
    ensures b.caption == RequestLabel <==> status.None? || status == Some(Rejected)
    ensures b.disabled <==> b.caption != RequestLabel
  {
    assert RequestedLabel[8] != RequestLabel[8] && ConnectedLabel[0] != RequestLabel[0];
    assert RequestedLabel[0] != ConnectedLabel[0];
    var disabled := status == Some(Pending) || status == Some(Accepted);
    match status
    case Some(Pending) => Button(disabled, RequestedLabel)
    case Some(Accepted) => Button(disabled, ConnectedLabel)
    case _ => Button(disabled, RequestLabel)
  }

  /** Read off the backend's outgoing listing, the first row sent to a user
      is the latest request of the pair. */
  lemma {:induction false} StatusForListing(rs: seq<LearningRequest>, learner: int, mentor: int, username: int -> string)
    ensures RequestStatusFor(RowsOf(Views.Listing(rs, learner, Views.Outgoing), username), mentor) ==
      Views.LatestStatus(rs, learner, mentor)
  {
    if rs != [] {
      var init := rs[..|rs| - 1];
      var last := rs[|rs| - 1];
      StatusForListing(init, learner, mentor, username);
      var rest := Views.Listing(init, learner, Views.Outgoing);
      if last.fromUser == learner {
        var rows := RowsOf(Views.Listing(rs, learner, Views.Outgoing), username);
        assert Views.Listing(rs, learner, Views.Outgoing) == [last] + rest;
        assert rows[0] == RowOf(last, username);
        assert rows[1..] == RowsOf(rest, username);
      } else {
        assert Views.Listing(rs, learner, Views.Outgoing) == rest;
      }
    }
  }

  /** On a board whose pending requests are the latest of their pair, a
      mentor's button reads "Requested" exactly when the backend would
      refuse another request to that mentor as a duplicate. */
  lemma ButtonShowsPendingRequest(rs: seq<LearningRequest>, learner: int, mentor: int, username: int -> string)
    requires Views.PendingIsLatest(rs)
    ensures (ButtonFor(RequestStatusFor(RowsOf(Views.Listing(rs, learner, Views.Outgoing), username), mentor)).caption ==
             RequestedLabel) <==> Views.HasPending(rs, learner, mentor)
  {
    StatusForListing(rs, learner, mentor, username);
    Views.LatestStatusPending(rs, learner, mentor);
  }

  // ---------------------------------------------------------------------
  // An insertion-ordered map, as JavaScript's Map
  // ---------------------------------------------------------------------

  /** The keys `in-<user>` and `out-<user>`. */
  datatype ConnKey = InKey(user: int) | OutKey(user: int)

  datatype Connection = Connection(id: int, username: string)

  /** Map entries in insertion order. */
  type Entries = seq<(ConnKey, Connection)>

  function KeysOf(m: Entries): (ks: seq<ConnKey>)
    ensures |ks| == |m|
    ensures forall i :: 0 <= i < |m| ==> ks[i] == m[i].0
  {
    seq(|m|, i requires 0 <= i < |m| => m[i].0)
  }

  function ValuesOf(m: Entries): (vs: seq<Connection>)
    ensures |vs| == |m|
    ensures forall i :: 0 <= i < |m| ==> vs[i] == m[i].1
  {
    seq(|m|, i requires 0 <= i < |m| => m[i].1)
  }

  predicate KeysDistinct(m: Entries)
  {
    forall i, j :: 0 <= i < |m| && 0 <= j < |m| && m[i].0 == m[j].0 ==> i == j
  }

  /** The position of key `k`, if present. */
  function KeyIndex(m: Entries, k: ConnKey): (r: Option<nat>)
    ensures r.Some? ==> r.value < |m| && m[r.value].0 == k
    ensures r.None? <==> k !in KeysOf(m)
  {
    if m == [] then None
    else if m[|m| - 1].0 == k then Some(|m| - 1)
    else
      var r := KeyIndex(m[..|m| - 1], k);
      assert KeysOf(m) == KeysOf(m[..|m| - 1]) + [m[|m| - 1].0];
      r
  }

  /** The value stored under `k`, if any. */
  function Lookup(m: Entries, k: ConnKey): Option<Connection>
  {
    match KeyIndex(m, k)
    case None => None
    case Some(p) => Some(m[p].1)
  }

  /** `map.set(k, v)`: a present key keeps its position and takes the new
      value; a new key goes to the end. */
  function MapSet(m: Entries, k: ConnKey, v: Connection): (r: Entries)
    ensures k in KeysOf(m) ==> KeysOf(r) == KeysOf(m)
    ensures k !in KeysOf(m) ==> KeysOf(r) == KeysOf(m) + [k]
    ensures KeysDistinct(m) ==> KeysDistinct(r)
  {
    match KeyIndex(m, k)
    case Some(p) => m[p := (k, v)]
    case None => m + [(k, v)]
  }

  /** After `map.set(k, v)` the key `k` reads `v` and every other key reads
      what it read before. */
  lemma MapSetLookup(m: Entries, k: ConnKey, v: Connection, k': ConnKey)
    requires KeysDistinct(m)
    ensures Lookup(MapSet(m, k, v), k') == if k' == k then Some(v) else Lookup(m, k')
  {
    var r := MapSet(m, k, v);
    var p := KeyIndex(r, k');
    if p.Some? && k' != k {
      var q := KeyIndex(m, k');
      assert r[p.value] == m[p.value];
      assert q.Some?;
    }
  }

  /** A run of `map.set` calls, one per entry of `es`, in order. */
  function SetAll(m: Entries, es: Entries): Entries
  {
    if es == [] then m
    else
      var last := es[|es| - 1];
      MapSet(SetAll(m, es[..|es| - 1]), last.0, last.1)
  }

  lemma {:induction false} SetAllDistinct(m: Entries, es: Entries)
    requires KeysDistinct(m)
    ensures KeysDistinct(SetAll(m, es))
  {
    if es != [] {
      SetAllDistinct(m, es[..|es| - 1]);
    }
  }

  /** Two runs of `map.set` are one run over both entry lists. */
  lemma {:induction false} SetAllAppend(m: Entries, a: Entries, b: Entries)
    ensures SetAll(SetAll(m, a), b) == SetAll(m, a + b)
  {
    if b != [] {
      SetAllAppend(m, a, b[..|b| - 1]);
      assert (a + b)[..|a + b| - 1] == a + b[..|b| - 1];
    } else {
      assert a + b == a;
    }
  }

  /** The value of the last entry of `es` with key `k`, if any. */
  function LastValue(es: Entries, k: ConnKey): Option<Connection>
  {
    if es == [] then None
    else if es[|es| - 1].0 == k then Some(es[|es| - 1].1)
    else LastValue(es[..|es| - 1], k)
  }

  /** A repeated key takes the value of its last `set`. */
  lemma {:induction false} SetAllLastValueWins(m: Entries, es: Entries, k: ConnKey)
    requires KeysDistinct(m)
    ensures Lookup(SetAll(m, es), k) == if LastValue(es, k).Some? then LastValue(es, k) else Lookup(m, k)
  {
    if es != [] {
      var init := es[..|es| - 1];
      var last := es[|es| - 1];
      SetAllLastValueWins(m, init, k);
      SetAllDistinct(m, init);
      MapSetLookup(SetAll(m, init), last.0, last.1, k);
    }
  }

  /** The keys of `ks` without repeats, each where it first occurs. */
  function FirstOccurrences(ks: seq<ConnKey>): (r: seq<ConnKey>)
    ensures forall k :: k in r <==> k in ks
    ensures forall i, j :: 0 <= i < |r| && 0 <= j < |r| && r[i] == r[j] ==> i == j
  {
    if ks == [] then []
    else
      var init := ks[..|ks| - 1];
      var last := ks[|ks| - 1];
      assert ks == init + [last];
      var p := FirstOccurrences(init);
      if last in init then p else p + [last]
  }

  /** A key keeps the position of its first `set`: the map's keys are the
      keys set, in order of first occurrence. */
  lemma {:induction false} SetAllKeyOrder(es: Entries)
    ensures KeysOf(SetAll([], es)) == FirstOccurrences(KeysOf(es))
  {
    if es != [] {
      var init := es[..|es| - 1];
      var last := es[|es| - 1];
      SetAllKeyOrder(init);
      assert KeysOf(es)[..|es| - 1] == KeysOf(init);
      assert KeysOf(es)[|es| - 1] == last.0;
    }
  }

  /** A run of `set` adds at most one key per entry. */
  lemma {:induction false} SetAllSize(m: Entries, es: Entries)
    ensures |SetAll(m, es)| <= |m| + |es|
  {
    if es != [] {
      SetAllSize(m, es[..|es| - 1]);
    }
  }

  // ---------------------------------------------------------------------
  // Connections
  // ---------------------------------------------------------------------

  /** `filter(r => r.status === "accepted")`. */
  function AcceptedOnly(rows: seq<RequestRow>): (r: seq<RequestRow>)
    ensures |r| <= |rows|
    ensures forall x :: x in r <==> x in rows && x.status == Accepted
  {
    if rows == [] then []
    else
      var last := rows[|rows| - 1];
      assert rows == rows[..|rows| - 1] + [last];
      AcceptedOnly(rows[..|rows| - 1]) + (if last.status == Accepted then [last] else [])
  }

  /** The entry an accepted incoming request sets: the sender. */
  function InEntry(r: RequestRow): (ConnKey, Connection)
  {
    (InKey(r.fromUser), Connection(r.fromUser, r.fromUsername))
  }

  /** The entry an accepted outgoing request sets: the recipient. */
  function OutEntry(r: RequestRow): (ConnKey, Connection)
  {
    (OutKey(r.toUser), Connection(r.toUser, r.toUsername))
  }

  function InEntries(rows: seq<RequestRow>): (es: Entries)
    ensures |es| == |rows|
    ensures forall i :: 0 <= i < |rows| ==> es[i] == InEntry(rows[i])
  {
    seq(|rows|, i requires 0 <= i < |rows| => InEntry(rows[i]))
  }

  function OutEntries(rows: seq<RequestRow>): (es: Entries)
    ensures |es| == |rows|
    ensures forall i :: 0 <= i < |rows| ==> es[i] == OutEntry(rows[i])
  {
    seq(|rows|, i requires 0 <= i < |rows| => OutEntry(rows[i]))
  }

  /** Every entry `set` during the memo, in order. */
  function ConnectionEntries(incoming: seq<RequestRow>, outgoing: seq<RequestRow>): Entries
  {
    InEntries(AcceptedOnly(incoming)) + OutEntries(AcceptedOnly(outgoing))
  }

  /** The map the memo builds. */
  function ConnectionMap(incoming: seq<RequestRow>, outgoing: seq<RequestRow>): Entries
  {
    SetAll(SetAll([], InEntries(AcceptedOnly(incoming))), OutEntries(AcceptedOnly(outgoing)))
  }

  /** `Array.from(map.values())`. */
  function ConnectionsOf(incoming: seq<RequestRow>, outgoing: seq<RequestRow>): seq<Connection>
  {
    ValuesOf(ConnectionMap(incoming, outgoing))
  }

  /** The `connections` memo: one `map.set` per accepted incoming request,
      then one per accepted outgoing request. */
  method BuildConnections(incoming: seq<RequestRow>, outgoing: seq<RequestRow>) returns (connections: seq<Connection>)
    ensures connections == ConnectionsOf(incoming, outgoing)
  {
    var m: Entries := [];
    var accIn := AcceptedOnly(incoming);
    var ins := InEntries(accIn);
    for i := 0 to |accIn|
      invariant m == SetAll([], ins[..i])
    {
      assert ins[..i + 1][..i] == ins[..i];
      m := MapSet(m, InKey(accIn[i].fromUser), Connection(accIn[i].fromUser, accIn[i].fromUsername));
    }
    assert ins[..|accIn|] == ins;
    var base := m;
    var accOut := AcceptedOnly(outgoing);
    var outs := OutEntries(accOut);
    for i := 0 to |accOut|
      invariant m == SetAll(base, outs[..i])
    {
      assert outs[..i + 1][..i] == outs[..i];
      m := MapSet(m, OutKey(accOut[i].toUser), Connection(accOut[i].toUser, accOut[i].toUsername));
    }
    assert outs[..|accOut|] == outs;
    connections := ValuesOf(m);
  }

  lemma ConnectionMapIsOneRun(incoming: seq<RequestRow>, outgoing: seq<RequestRow>)
    ensures ConnectionMap(incoming, outgoing) == SetAll([], ConnectionEntries(incoming, outgoing))
  {
    SetAllAppend([], InEntries(AcceptedOnly(incoming)), OutEntries(AcceptedOnly(outgoing)));
  }

  lemma KeysOfAppend(a: Entries, b: Entries)
    ensures KeysOf(a + b) == KeysOf(a) + KeysOf(b)
  {
  }

  /** The keys an accepted incoming request sets: its sender's. */
  lemma InEntriesKeys(incoming: seq<RequestRow>, k: ConnKey)
    ensures k in KeysOf(InEntries(AcceptedOnly(incoming))) <==>
      k.InKey? && exists r :: r in incoming && r.status == Accepted && r.fromUser == k.user
  {
    var acc := AcceptedOnly(incoming);
    var es := InEntries(acc);
    if k in KeysOf(es) {
      var i :| 0 <= i < |es| && KeysOf(es)[i] == k;
      assert acc[i] in acc;
    }
    if k.InKey? && exists r :: r in incoming && r.status == Accepted && r.fromUser == k.user {
      var r :| r in incoming && r.status == Accepted && r.fromUser == k.user;
      var i :| 0 <= i < |acc| && acc[i] == r;
      assert KeysOf(es)[i] == k;
    }
  }

  /** The keys an accepted outgoing request sets: its recipient's. */
  lemma OutEntriesKeys(outgoing: seq<RequestRow>, k: ConnKey)
    ensures k in KeysOf(OutEntries(AcceptedOnly(outgoing))) <==>
      k.OutKey? && exists r :: r in outgoing && r.status == Accepted && r.toUser == k.user
  {
    var acc := AcceptedOnly(outgoing);
    var es := OutEntries(acc);
    if k in KeysOf(es) {
      var i :| 0 <= i < |es| && KeysOf(es)[i] == k;
      assert acc[i] in acc;
    }
    if k.OutKey? && exists r :: r in outgoing && r.status == Accepted && r.toUser == k.user {
      var r :| r in outgoing && r.status == Accepted && r.toUser == k.user;
      var i :| 0 <= i < |acc| && acc[i] == r;
      assert KeysOf(es)[i] == k;
    }
  }

  /** The map's keys are the keys set, each once, in order of first `set`. */
  lemma ConnectionKeyOrder(incoming: seq<RequestRow>, outgoing: seq<RequestRow>)
    ensures KeysOf(ConnectionMap(incoming, outgoing)) == FirstOccurrences(KeysOf(ConnectionEntries(incoming, outgoing)))
  {
    ConnectionMapIsOneRun(incoming, outgoing);
    SetAllKeyOrder(ConnectionEntries(incoming, outgoing));
  }

  /** The map's keys: `in-<u>` for each sender of an accepted incoming
      request and `out-<u>` for each recipient of an accepted outgoing one. */
  lemma ConnectionKeys(incoming: seq<RequestRow>, outgoing: seq<RequestRow>, k: ConnKey)
    ensures k in KeysOf(ConnectionMap(incoming, outgoing)) <==>
      (k.InKey? && exists r :: r in incoming && r.status == Accepted && r.fromUser == k.user) ||
      (k.OutKey? && exists r :: r in outgoing && r.status == Accepted && r.toUser == k.user)
  {
    ConnectionKeyOrder(incoming, outgoing);
    KeysOfAppend(InEntries(AcceptedOnly(incoming)), OutEntries(AcceptedOnly(outgoing)));
    InEntriesKeys(incoming, k);
    OutEntriesKeys(outgoing, k);
  }

  /** Every connection is the user its key names. */
  predicate IdsMatchKeys(m: Entries)
  {
    forall i :: 0 <= i < |m| ==> m[i].1.id == m[i].0.user
  }

  lemma {:induction false} SetAllIdsMatchKeys(m: Entries, es: Entries)
    requires IdsMatchKeys(m) && IdsMatchKeys(es)
    ensures IdsMatchKeys(SetAll(m, es))
  {
    if es != [] {
      var init := es[..|es| - 1];
      assert IdsMatchKeys(init) by {
        forall i | 0 <= i < |init| ensures init[i].1.id == init[i].0.user {
          assert init[i] == es[i];
        }
      }
      SetAllIdsMatchKeys(m, init);
    }
  }

  /** Every connection is the user of the request that set it. */
  lemma ConnectionIds(incoming: seq<RequestRow>, outgoing: seq<RequestRow>)
    ensures IdsMatchKeys(ConnectionMap(incoming, outgoing))
  {
    var ins := InEntries(AcceptedOnly(incoming));
    var outs := OutEntries(AcceptedOnly(outgoing));
    SetAllIdsMatchKeys([], ins);
    SetAllIdsMatchKeys(SetAll([], ins), outs);
  }

  lemma TwoKeysTwoValues(m: Entries, u: int)
    requires IdsMatchKeys(m)
    requires InKey(u) in KeysOf(m) && OutKey(u) in KeysOf(m)
    ensures exists i, j :: 0 <= i < j < |ValuesOf(m)| && ValuesOf(m)[i].id == u && ValuesOf(m)[j].id == u
  {
    var p := KeyIndex(m, InKey(u)).value;
    var q := KeyIndex(m, OutKey(u)).value;
    var cs := ValuesOf(m);
    assert cs[p].id == u && cs[q].id == u;
    if p < q {
      assert 0 <= p < q < |cs|;
    } else {
      assert 0 <= q < p < |cs|;
    }
  }

  /** A user connected in both directions appears twice. */
  lemma ConnectedBothWaysAppearsTwice(incoming: seq<RequestRow>, outgoing: seq<RequestRow>, u: int)
    requires exists r :: r in incoming && r.status == Accepted && r.fromUser == u
    requires exists r :: r in outgoing && r.status == Accepted && r.toUser == u
    ensures exists i, j :: (0 <= i < j < |ConnectionsOf(incoming, outgoing)| &&
      ConnectionsOf(incoming, outgoing)[i].id == u && ConnectionsOf(incoming, outgoing)[j].id == u)
  {
    var m := ConnectionMap(incoming, outgoing);
    assert ConnectionsOf(incoming, outgoing) == ValuesOf(m);
    ConnectionKeys(incoming, outgoing, InKey(u));
    ConnectionKeys(incoming, outgoing, OutKey(u));
    ConnectionIds(incoming, outgoing);
    TwoKeysTwoValues(m, u);
  }

  /** A connection shows the user name of the last accepted request that
      set its key. */
  lemma ConnectionTakesLastValue(incoming: seq<RequestRow>, outgoing: seq<RequestRow>, k: ConnKey)
    ensures Lookup(ConnectionMap(incoming, outgoing), k) == LastValue(ConnectionEntries(incoming, outgoing), k)
  {
    ConnectionMapIsOneRun(incoming, outgoing);
    SetAllLastValueWins([], ConnectionEntries(incoming, outgoing), k);
  }

  // ---------------------------------------------------------------------
  // Overview counts
  // ---------------------------------------------------------------------

  datatype Stats = Stats(matches: nat, incoming: nat, outgoing: nat, connections: nat)

  /** The `stats` object. */
  function StatsOf<M>(matches: seq<M>, incoming: seq<RequestRow>, outgoing: seq<RequestRow>): Stats
  {
    Stats(|matches|, |incoming|, |outgoing|, |ConnectionsOf(incoming, outgoing)|)
  }

  /** Each count is the length of its list, and there are never more
      connections than accepted requests. */
  lemma StatsConnectionsBound<M>(matches: seq<M>, incoming: seq<RequestRow>, outgoing: seq<RequestRow>)
    ensures StatsOf(matches, incoming, outgoing).connections <=
      |AcceptedOnly(incoming)| + |AcceptedOnly(outgoing)|
    ensures StatsOf(matches, incoming, outgoing).connections <= |incoming| + |outgoing|
    ensures StatsOf(matches, incoming, outgoing).matches == |matches|
    ensures StatsOf(matches, incoming, outgoing).incoming == |incoming|
    ensures StatsOf(matches, incoming, outgoing).outgoing == |outgoing|
    ensures StatsOf(matches, incoming, outgoing).connections == |ConnectionsOf(incoming, outgoing)|
  {
    ConnectionMapIsOneRun(incoming, outgoing);
    SetAllSize([], ConnectionEntries(incoming, outgoing));
  }

  // ---------------------------------------------------------------------
  // Skill-list rendering
  // ---------------------------------------------------------------------

  /** An element of a serialised skill list: a plain name, an object whose
      `name`, `skill` and `title` fields are read (an absent field is the
      empty string, which is falsy), or `null`. */
  datatype SkillValue = Plain(text: string) | Record(name: string, skill: string, title: string) | Null

  /** What the expression evaluates to: a text, or a thrown `TypeError`
      (reading a field of `null`). */
  datatype Rendered = Shown(text: string) | Throws

  const Dash: string := "–"
  const Separator: string := ", "

  /** `parts.join(sep)`. */
  function Join(parts: seq<string>, sep: string): (r: string)
    ensures parts == [] ==> r == []
    ensures |parts| == 1 ==> r == parts[0]
  {
    if parts == [] then []
    else if |parts| == 1 then parts[0]
    else Join(parts[..|parts| - 1], sep) + sep + parts[|parts| - 1]
  }

  function TotalLength(parts: seq<string>): nat
  {
    if parts == [] then 0 else TotalLength(parts[..|parts| - 1]) + |parts[|parts| - 1]|
  }

  /** The joined text holds every part and one separator between each two. */
  lemma {:induction false} JoinLength(parts: seq<string>, sep: string)
    requires parts != []
    ensures |Join(parts, sep)| == TotalLength(parts) + |sep| * (|parts| - 1)
  {
    var n := |parts|;
    if n > 1 {
      var init := parts[..n - 1];
      JoinLength(init, sep);
      assert |Join(parts, sep)| == |Join(init, sep)| + |sep| + |parts[n - 1]|;
      assert TotalLength(parts) == TotalLength(init) + |parts[n - 1]|;
      assert |sep| * (n - 2) + |sep| == |sep| * (n - 1);
    }
  }

  /** How `join` writes an element: `null` as the empty string and an object
      as `[object Object]`. */
  function JoinText(v: SkillValue): string
  {
    match v
    case Plain(t) => t
    case Record(_, _, _) => "[object Object]"
    case Null => []
  }

  /** `s.name || s.skill || s.title || "Skill"` for an element that is not
      `null`; a string has none of these fields. */
  function Label(v: SkillValue): (l: string)
    requires !v.Null?
    ensures l != []
    ensures v.Record? && v.name != [] ==> l == v.name
    ensures v.Record? && v.name == [] && v.skill != [] ==> l == v.skill
    ensures v.Record? && v.name == [] && v.skill == [] && v.title != [] ==> l == v.title
    ensures v.Record? && v.name == [] && v.skill == [] && v.title == [] ==> l == "Skill"
    ensures v.Plain? ==> l == "Skill"
  {
    match v
    case Plain(_) => "Skill"
    case Record(n, s, t) =>
      if n != [] then n else if s != [] then s else if t != [] then t else "Skill"
  }

  function JoinTexts(vs: seq<SkillValue>): (ts: seq<string>)
    ensures |ts| == |vs|
  {
    seq(|vs|, i requires 0 <= i < |vs| => JoinText(vs[i]))
  }

  function Labels(vs: seq<SkillValue>): (ls: seq<string>)
    requires forall i :: 0 <= i < |vs| ==> !vs[i].Null?
    ensures |ls| == |vs|
    ensures forall i :: 0 <= i < |vs| ==> ls[i] != []
  {
    seq(|vs|, i requires 0 <= i < |vs| => Label(vs[i]))
  }

  /** `renderSkills`: the type of the first element decides. */
  function RenderSkills(skills: Option<seq<SkillValue>>): Rendered
  {
    if skills.None? || skills.value == [] then Shown(Dash)
    else
      var vs := skills.value;
      match vs[0]
      case Plain(_) => Shown(Join(JoinTexts(vs), Separator))
      case Record(_, _, _) =>
        if exists i :: 0 <= i < |vs| && vs[i].Null? then Throws
        else Shown(Join(Labels(vs), Separator))
      case Null => Shown(Dash)
  }

  /** The dash shows for a missing or empty list and for a list starting
      with `null`; a list of objects shows a text with one non-empty label
      per element, or throws when it holds a `null`. */
  lemma RenderSkillsCases(skills: Option<seq<SkillValue>>)
    ensures skills.None? || skills.value == [] || skills.value[0].Null? ==> RenderSkills(skills) == Shown(Dash)
    ensures skills.Some? && skills.value != [] && skills.value[0].Record? ==>
      (RenderSkills(skills) == Throws <==> exists i :: 0 <= i < |skills.value| && skills.value[i].Null?)
    ensures RenderSkills(skills).Shown? && skills.Some? && skills.value != [] && !skills.value[0].Null? ==>
      |RenderSkills(skills).text| >= (if skills.value[0].Record? then 2 * |skills.value| - 1 else 0)
  {
    if skills.Some? && skills.value != [] && skills.value[0].Record? && RenderSkills(skills).Shown? {
      var vs := skills.value;
      var ls := Labels(vs);
      JoinLength(ls, Separator);
      LabelsLength(ls);
    }
  }

  /** A list of objects without `null` shows the labels of its elements
      joined by ", ". */
  lemma RenderSkillRecords(vs: seq<SkillValue>)
    requires vs != [] && vs[0].Record?
    requires forall i :: 0 <= i < |vs| ==> !vs[i].Null?
    ensures RenderSkills(Some(vs)) == Shown(Join(Labels(vs), Separator))
  {
  }

  /** Objects that all carry a `name` show those names joined by ", ". */
  lemma RenderSkillRecordNames(vs: seq<SkillValue>)
    requires vs != []
    requires forall i :: 0 <= i < |vs| ==> vs[i].Record? && vs[i].name != []
    ensures RenderSkills(Some(vs)) ==
      Shown(Join(seq(|vs|, i requires 0 <= i < |vs| => vs[i].name), Separator))
  {
    assert Labels(vs) == seq(|vs|, i requires 0 <= i < |vs| => vs[i].name);
  }

  lemma {:induction false} LabelsLength(ls: seq<string>)
    requires forall i :: 0 <= i < |ls| ==> ls[i] != []
    ensures TotalLength(ls) >= |ls|
  {
    if ls != [] {
      LabelsLength(ls[..|ls| - 1]);
    }
  }

  /** A list of plain names shows them joined by ", ". */
  lemma RenderSkillNames(names: seq<string>)
    requires names != []
    ensures RenderSkills(Some(seq(|names|, i requires 0 <= i < |names| => Plain(names[i])))) ==
      Shown(Join(names, Separator))
  {
    var vs := seq(|names|, i requires 0 <= i < |names| => Plain(names[i]));
    assert JoinTexts(vs) == names;
  }

  // ---------------------------------------------------------------------
  // Overview slices and search
  // ---------------------------------------------------------------------

  /** `xs.slice(0, 3)`: the first three, or all when there are fewer. */
  function Overview<T>(xs: seq<T>): (r: seq<T>)
    ensures |r| == if |xs| < 3 then |xs| else 3
    ensures forall i :: 0 <= i < |r| ==> r[i] == xs[i]
  {
    if |xs| <= 3 then xs else xs[..3]
  }

  /** What `handleSearch` does before any request: clear the results, or
      ask the backend for users matching the query as typed. */
  datatype SearchStep = ClearResults | FetchUsers(query: string)

  function StartSearch(query: string): (step: SearchStep)
    ensures step.FetchUsers? ==> step.query == query
  {
    if Strip(query, JsWhitespace) == [] then ClearResults else FetchUsers(query)
  }

  /** A query that is empty or all white space clears the results and calls
      no API; any other query is sent unchanged. */
  lemma StartSearchClears(query: string)
    ensures StartSearch(query) == ClearResults <==> AllIn(query, JsWhitespace)
  {
    StripEmptyIffAllWhitespace(query, JsWhitespace);
  }
}
