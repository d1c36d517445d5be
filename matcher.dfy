/** The mentor matcher: a vocabulary of normalised skill names, "have"
    vectors weighted by level, a 0/1 "want" vector for the learner, and the
    selection of mentors by score. The similarity score itself (cosine
    similarity in the backend) is a parameter of the model. */
module Matcher {
  import opened Models
  import opened Text

  // ---------------------------------------------------------------------
  // Input records
  // ---------------------------------------------------------------------

  /** One entry of `skills_have`; a missing or null `level` is None. */
  datatype HaveEntry = HaveEntry(name: string, level: Option<string>)

  datatype UserRecord = UserRecord(
    id: int,
    name: string,
    skillsHave: seq<HaveEntry>,
    skillsWant: seq<string>)

  datatype Match = Match(user: UserRecord, score: real)

  /** The similarity of a want vector and a have vector. */
  type Scorer = (seq<int>, seq<int>) -> real

  // ---------------------------------------------------------------------
  // Level weights and name normalisation
  // ---------------------------------------------------------------------

  function Weight(l: Level): nat
  {
    match l
    case Beginner => 1
    case Intermediate => 2
    case Advanced => 3
  }

  /** `LEVEL_WEIGHTS.get(s.get("level", "beginner"), 1)`. */
  function LevelWeight(level: Option<string>): (w: nat)
    ensures 1 <= w <= 3
    ensures w == 2 <==> level == Some("intermediate")
    ensures w == 3 <==> level == Some("advanced")
  {
    var name := if level.Some? then level.value else "beginner";
    match ParseLevel(name)
    case Some(l) => Weight(l)
    case None => 1
  }

  /** `name.strip().lower()`. */
  function Normalize(s: string): string
  {
    Lower(Strip(s, PythonWhitespace))
  }

  /** Normalising twice is normalising once, so a normalised vocabulary key
      looks itself up. */
  lemma NormalizeIdempotent(s: string)
    ensures Normalize(Normalize(s)) == Normalize(s)
  {
    var t := Strip(s, PythonWhitespace);
    var l := Lower(t);
    StripSpec(s, PythonWhitespace);
    LowerSpec(t);
    if t != [] {
      assert l[0] == LowerChar(t[0]) && l[|l| - 1] == LowerChar(t[|t| - 1]);
    }
    StripUnchanged(l, PythonWhitespace);
    LowerIdempotent(t);
  }

  // ---------------------------------------------------------------------
  // Vocabulary
  // ---------------------------------------------------------------------

  function HaveNames(hs: seq<HaveEntry>): set<string>
  {
    if hs == [] then {} else HaveNames(hs[..|hs| - 1]) + {Normalize(hs[|hs| - 1].name)}
  }

  function WantNames(ws: seq<string>): set<string>
  {
    if ws == [] then {} else WantNames(ws[..|ws| - 1]) + {Normalize(ws[|ws| - 1])}
  }

  lemma {:induction false} HaveNamesSpec(hs: seq<HaveEntry>, k: string)
    ensures k in HaveNames(hs) <==> exists i :: 0 <= i < |hs| && Normalize(hs[i].name) == k
  {
    if hs != [] {
      var last := |hs| - 1;
      HaveNamesSpec(hs[..last], k);
      assert forall i :: 0 <= i < last ==> hs[..last][i] == hs[i];
    }
  }

  lemma {:induction false} WantNamesSpec(ws: seq<string>, k: string)
    ensures k in WantNames(ws) <==> exists i :: 0 <= i < |ws| && Normalize(ws[i]) == k
  {
    if ws != [] {
      var last := |ws| - 1;
      WantNamesSpec(ws[..last], k);
      assert forall i :: 0 <= i < last ==> ws[..last][i] == ws[i];
    }
  }

  function UserSkillNames(u: UserRecord): set<string>
  {
    HaveNames(u.skillsHave) + WantNames(u.skillsWant)
  }

  /** Every normalised "have" and "want" name of every user. */
  function SkillNames(users: seq<UserRecord>): set<string>
  {
    if users == [] then {}
    else SkillNames(users[..|users| - 1]) + UserSkillNames(users[|users| - 1])
  }

  lemma {:induction false} SkillNamesSpec(users: seq<UserRecord>, k: string)
    ensures k in SkillNames(users) <==> exists i :: 0 <= i < |users| && k in UserSkillNames(users[i])
  {
    if users != [] {
      var last := |users| - 1;
      SkillNamesSpec(users[..last], k);
      assert forall i :: 0 <= i < last ==> users[..last][i] == users[i];
    }
  }

  /** `{skill: idx for idx, skill in enumerate(names)}`: every name maps to
      a position where it occurs (the last one, as later pairs overwrite). */
  function IndexMap(names: seq<string>): (v: map<string, nat>)
    ensures forall k :: k in v <==> k in names
    ensures forall k :: k in v ==> v[k] < |names| && names[v[k]] == k
  {
    if names == [] then map[]
    else
      var last := |names| - 1;
      var prev := IndexMap(names[..last]);
      assert names == names[..last] + [names[last]];
      assert forall j :: 0 <= j < last ==> names[..last][j] == names[j];
      prev[names[last] := last]
  }

  /** Over distinct names the map numbers them by position, one key each. */
  lemma {:induction false} IndexMapOfDistinct(names: seq<string>)
    requires Distinct(names)
    ensures forall i :: 0 <= i < |names| ==> IndexMap(names)[names[i]] == i
    ensures |IndexMap(names)| == |names|
  {
    var v := IndexMap(names);
    forall i | 0 <= i < |names| ensures v[names[i]] == i {
      assert names[i] in v;
    }
    if names != [] {
      var last := |names| - 1;
      var init := names[..last];
      assert Distinct(init) by {
        forall i, j | 0 <= i < |init| && 0 <= j < |init| && init[i] == init[j] ensures i == j {
          assert init[i] == names[i] && init[j] == names[j];
        }
      }
      IndexMapOfDistinct(init);
      assert names[last] !in IndexMap(init);
    }
  }

  /** The vocabulary `build_skill_vocab` returns for `users`. */
  function VocabOf(users: seq<UserRecord>): map<string, nat>
  {
    IndexMap(SortedStrings(SkillNames(users)))
  }

  /** A vocabulary whose indices address a vector of its own size. */
  predicate IndexesFit(vocab: map<string, nat>)
  {
    forall k :: k in vocab ==> vocab[k] < |vocab|
  }

  /** Numbering a set in sorted order: the keys are the set itself, one
      index per key. */
  lemma NumberingKeys(names: set<string>)
    ensures IndexMap(SortedStrings(names)).Keys == names
    ensures |IndexMap(SortedStrings(names))| == |names|
  {
    var sorted := SortedStrings(names);
    var v := IndexMap(sorted);
    assert v.Keys == names by {
      assert forall k :: k in v <==> k in sorted;
    }
    assert |v| == |names| by {
      SortedDistinct(sorted);
      IndexMapOfDistinct(sorted);
    }
  }

  lemma NumberingFits(names: set<string>)
    ensures IndexesFit(IndexMap(SortedStrings(names)))
  {
    NumberingKeys(names);
  }

  lemma NumberingOnto(names: set<string>)
    ensures forall i :: i in IndexMap(SortedStrings(names)).Values <==> 0 <= i < |IndexMap(SortedStrings(names))|
  {
    var sorted := SortedStrings(names);
    var v := IndexMap(sorted);
    NumberingKeys(names);
    SortedDistinct(sorted);
    IndexMapOfDistinct(sorted);
    assert |v| == |sorted|;
    forall i | 0 <= i < |v| ensures i in v.Values {
      assert sorted[i] in v && v[sorted[i]] == i;
    }
  }

  lemma NumberingOrdered(names: set<string>)
    ensures forall k1, k2 :: k1 in IndexMap(SortedStrings(names)) && k2 in IndexMap(SortedStrings(names)) ==>
      (LexLess(k1, k2) <==> IndexMap(SortedStrings(names))[k1] < IndexMap(SortedStrings(names))[k2])
  {
    var sorted := SortedStrings(names);
    var v := IndexMap(sorted);
    forall k1, k2 | k1 in v && k2 in v ensures LexLess(k1, k2) <==> v[k1] < v[k2] {
      var i, j := v[k1], v[k2];
      assert sorted[i] == k1 && sorted[j] == k2;
      if i == j {
        LexLessIrreflexive(k1);
      } else if j < i {
        LexLessAsymmetric(k2, k1);
      }
    }
  }

  lemma VocabKeys(users: seq<UserRecord>)
    ensures VocabOf(users).Keys == SkillNames(users)
  {
    NumberingKeys(SkillNames(users));
  }

  lemma VocabIndexesFit(users: seq<UserRecord>)
    ensures IndexesFit(VocabOf(users))
  {
    NumberingFits(SkillNames(users));
  }

  /** The vocabulary's keys are exactly the normalised names of all users,
      its indices are 0..n-1 with each used once, and they follow the sorted
      order of the keys. */
  lemma VocabIsSortedEnumeration(users: seq<UserRecord>)
    ensures VocabOf(users).Keys == SkillNames(users)
    ensures IndexesFit(VocabOf(users))
    ensures forall i :: i in VocabOf(users).Values <==> 0 <= i < |VocabOf(users)|
    ensures forall k1, k2 :: k1 in VocabOf(users) && k2 in VocabOf(users) ==>
      (LexLess(k1, k2) <==> VocabOf(users)[k1] < VocabOf(users)[k2])
  {
    var names := SkillNames(users);
    NumberingKeys(names);
    NumberingFits(names);
    NumberingOnto(names);
    NumberingOrdered(names);
  }

  /** A user in the list finds every one of its names in the vocabulary. */
  lemma UserNamesInVocab(users: seq<UserRecord>, u: UserRecord)
    requires u in users
    ensures forall i :: 0 <= i < |u.skillsHave| ==> Normalize(u.skillsHave[i].name) in VocabOf(users)
    ensures forall i :: 0 <= i < |u.skillsWant| ==> Normalize(u.skillsWant[i]) in VocabOf(users)
  {
    VocabKeys(users);
    var j :| 0 <= j < |users| && users[j] == u;
    forall i | 0 <= i < |u.skillsHave| ensures Normalize(u.skillsHave[i].name) in VocabOf(users) {
      SkillNamesSpec(users, Normalize(u.skillsHave[i].name));
      HaveNamesSpec(u.skillsHave, Normalize(u.skillsHave[i].name));
      assert Normalize(u.skillsHave[i].name) in UserSkillNames(users[j]);
    }
    forall i | 0 <= i < |u.skillsWant| ensures Normalize(u.skillsWant[i]) in VocabOf(users) {
      SkillNamesSpec(users, Normalize(u.skillsWant[i]));
      WantNamesSpec(u.skillsWant, Normalize(u.skillsWant[i]));
      assert Normalize(u.skillsWant[i]) in UserSkillNames(users[j]);
    }
  }

  /** `build_skill_vocab`: collect the names into a set, user by user, then
      number them in sorted order. */
  method BuildSkillVocab(users: seq<UserRecord>) returns (vocab: map<string, nat>)
    ensures vocab == VocabOf(users)
  {
    var skills: set<string> := {};
    for i := 0 to |users|
      invariant skills == SkillNames(users[..i])
    {
      skills := AddUserSkills(skills, users[i]);
      assert users[..i + 1][..i] == users[..i];
    }
    assert users[..|users|] == users;
    vocab := IndexMap(SortedStrings(skills));
  }

  /** The body of the outer loop: one user's "have" names, then "want" names. */
  method AddUserSkills(skills: set<string>, user: UserRecord) returns (r: set<string>)
    ensures r == skills + UserSkillNames(user)
  {
    r := skills;
    for j := 0 to |user.skillsHave|
      invariant r == skills + HaveNames(user.skillsHave[..j])
    {
      assert user.skillsHave[..j + 1][..j] == user.skillsHave[..j];
      r := r + {Normalize(user.skillsHave[j].name)};
    }
    assert user.skillsHave[..|user.skillsHave|] == user.skillsHave;
    for j := 0 to |user.skillsWant|
      invariant r == skills + HaveNames(user.skillsHave) + WantNames(user.skillsWant[..j])
    {
      assert user.skillsWant[..j + 1][..j] == user.skillsWant[..j];
      r := r + {Normalize(user.skillsWant[j])};
    }
    assert user.skillsWant[..|user.skillsWant|] == user.skillsWant;
  }

  // ---------------------------------------------------------------------
  // Vectors
  // ---------------------------------------------------------------------

  /** Does this name land on index `idx` of the vocabulary? */
  predicate LandsOn(name: string, vocab: map<string, nat>, idx: nat)
  {
    Normalize(name) in vocab && vocab[Normalize(name)] == idx
  }

  /** Entry `idx` of the have vector: the weight of the LAST entry whose name
      lands there (later writes overwrite earlier ones), 0 if none does. */
  function HaveWeightAt(hs: seq<HaveEntry>, vocab: map<string, nat>, idx: nat): (w: nat)
    ensures w <= 3
    ensures w != 0 <==> exists i :: 0 <= i < |hs| && LandsOn(hs[i].name, vocab, idx)
  {
    if hs == [] then 0
    else
      var last := |hs| - 1;
      assert forall i :: 0 <= i < last ==> hs[..last][i] == hs[i];
      if LandsOn(hs[last].name, vocab, idx) then LevelWeight(hs[last].level)
      else HaveWeightAt(hs[..last], vocab, idx)
  }

  function HaveVector(hs: seq<HaveEntry>, vocab: map<string, nat>): (v: seq<int>)
    ensures |v| == |vocab|
  {
    seq(|vocab|, i requires 0 <= i < |vocab| => HaveWeightAt(hs, vocab, i))
  }

  /** Entry `idx` of the want vector: 1 if some wanted name lands there. */
  function WantAt(ws: seq<string>, vocab: map<string, nat>, idx: nat): (w: nat)
    ensures w == 0 || w == 1
    ensures w == 1 <==> exists i :: 0 <= i < |ws| && LandsOn(ws[i], vocab, idx)
  {
    if ws == [] then 0
    else
      var last := |ws| - 1;
      assert forall i :: 0 <= i < last ==> ws[..last][i] == ws[i];
      if LandsOn(ws[last], vocab, idx) then 1 else WantAt(ws[..last], vocab, idx)
  }

  function WantVector(ws: seq<string>, vocab: map<string, nat>): (v: seq<int>)
    ensures |v| == |vocab|
  {
    seq(|vocab|, i requires 0 <= i < |vocab| => WantAt(ws, vocab, i))
  }

  /** numpy's `vec.any()`. */
  predicate AnyNonzero(v: seq<int>)
  {
    exists i :: 0 <= i < |v| && v[i] != 0
  }

  /** When several entries name the same skill, the weight of the last one
      stands, whatever came before it. */
  lemma {:induction false} LastEntryWins(pre: seq<HaveEntry>, e: HaveEntry, post: seq<HaveEntry>, vocab: map<string, nat>, idx: nat)
    requires LandsOn(e.name, vocab, idx)
    requires forall i :: 0 <= i < |post| ==> !LandsOn(post[i].name, vocab, idx)
    ensures HaveWeightAt(pre + [e] + post, vocab, idx) == LevelWeight(e.level)
  {
    if post != [] {
      var last := |post| - 1;
      var hs := pre + [e] + post;
      assert hs[..|hs| - 1] == pre + [e] + post[..last];
      assert hs[|hs| - 1] == post[last];
      LastEntryWins(pre, e, post[..last], vocab, idx);
    } else {
      assert pre + [e] + post == pre + [e];
    }
  }

  /** A have vector is nonzero exactly when some entry's name is known. */
  lemma HaveVectorNonzero(hs: seq<HaveEntry>, vocab: map<string, nat>)
    requires IndexesFit(vocab)
    ensures AnyNonzero(HaveVector(hs, vocab)) <==> exists i :: 0 <= i < |hs| && Normalize(hs[i].name) in vocab
  {
    var v := HaveVector(hs, vocab);
    if i :| 0 <= i < |hs| && Normalize(hs[i].name) in vocab {
      var idx := vocab[Normalize(hs[i].name)];
      assert LandsOn(hs[i].name, vocab, idx);
      assert v[idx] != 0;
    }
  }

  /** A want vector is nonzero exactly when some wanted name is known. */
  lemma WantVectorNonzero(ws: seq<string>, vocab: map<string, nat>)
    requires IndexesFit(vocab)
    ensures AnyNonzero(WantVector(ws, vocab)) <==> exists i :: 0 <= i < |ws| && Normalize(ws[i]) in vocab
  {
    var v := WantVector(ws, vocab);
    if i :| 0 <= i < |ws| && Normalize(ws[i]) in vocab {
      var idx := vocab[Normalize(ws[i])];
      assert LandsOn(ws[i], vocab, idx);
      assert v[idx] != 0;
    }
  }

  /** Over the vocabulary of a user list, a user's have vector is nonzero
      exactly when the user lists a skill to teach. */
  lemma HaveVectorNonzeroIff(users: seq<UserRecord>, u: UserRecord)
    requires u in users
    ensures AnyNonzero(HaveVector(u.skillsHave, VocabOf(users))) <==> u.skillsHave != []
  {
    VocabIndexesFit(users);
    HaveVectorNonzero(u.skillsHave, VocabOf(users));
    if u.skillsHave != [] {
      UserNamesInVocab(users, u);
      assert Normalize(u.skillsHave[0].name) in VocabOf(users);
    }
  }

  /** Likewise a user's want vector is nonzero exactly when it wants a skill. */
  lemma WantVectorNonzeroIff(users: seq<UserRecord>, u: UserRecord)
    requires u in users
    ensures AnyNonzero(WantVector(u.skillsWant, VocabOf(users))) <==> u.skillsWant != []
  {
    VocabIndexesFit(users);
    WantVectorNonzero(u.skillsWant, VocabOf(users));
    if u.skillsWant != [] {
      UserNamesInVocab(users, u);
      assert Normalize(u.skillsWant[0]) in VocabOf(users);
    }
  }

  /** Names that normalise alike give the same vector: matching ignores case
      and surrounding whitespace. */
  lemma {:induction false} HaveWeightIgnoresSpelling(hs: seq<HaveEntry>, hs': seq<HaveEntry>, vocab: map<string, nat>, idx: nat)
    requires |hs| == |hs'|
    requires forall i :: 0 <= i < |hs| ==> Normalize(hs[i].name) == Normalize(hs'[i].name) && hs[i].level == hs'[i].level
    ensures HaveWeightAt(hs, vocab, idx) == HaveWeightAt(hs', vocab, idx)
  {
    if hs != [] {
      var last := |hs| - 1;
      HaveWeightIgnoresSpelling(hs[..last], hs'[..last], vocab, idx);
    }
  }

  /** One more entry: it sets the index it lands on and leaves the rest. */
  lemma HaveWeightStep(hs: seq<HaveEntry>, j: nat, vocab: map<string, nat>, idx: nat)
    requires j < |hs|
    ensures HaveWeightAt(hs[..j + 1], vocab, idx) ==
      if LandsOn(hs[j].name, vocab, idx) then LevelWeight(hs[j].level) else HaveWeightAt(hs[..j], vocab, idx)
  {
    assert hs[..j + 1][..j] == hs[..j];
  }

  lemma WantAtStep(ws: seq<string>, j: nat, vocab: map<string, nat>, idx: nat)
    requires j < |ws|
    ensures WantAt(ws[..j + 1], vocab, idx) == if LandsOn(ws[j], vocab, idx) then 1 else WantAt(ws[..j], vocab, idx)
  {
    assert ws[..j + 1][..j] == ws[..j];
  }

  /** `build_have_vector`: a zeroed vector, then one write per entry. */
  method BuildHaveVector(user: UserRecord, vocab: map<string, nat>) returns (vec: array<int>)
    requires IndexesFit(vocab)
    ensures vec[..] == HaveVector(user.skillsHave, vocab)
  {
    vec := new int[|vocab|](i => 0);
    for j := 0 to |user.skillsHave|
      invariant vec.Length == |vocab|
      invariant forall i :: 0 <= i < vec.Length ==> vec[i] == HaveWeightAt(user.skillsHave[..j], vocab, i)
    {
      var entry := user.skillsHave[j];
      var name := Normalize(entry.name);
      if name in vocab {
        var idx := vocab[name];
        vec[idx] := LevelWeight(entry.level);
      }
      forall i | 0 <= i < vec.Length ensures vec[i] == HaveWeightAt(user.skillsHave[..j + 1], vocab, i) {
        HaveWeightStep(user.skillsHave, j, vocab, i);
      }
    }
    assert user.skillsHave[..|user.skillsHave|] == user.skillsHave;
  }

  /** `build_want_vector`: a zeroed vector with a 1 at every wanted index. */
  method BuildWantVector(user: UserRecord, vocab: map<string, nat>) returns (vec: array<int>)
    requires IndexesFit(vocab)
    ensures vec[..] == WantVector(user.skillsWant, vocab)
  {
    vec := new int[|vocab|](i => 0);
    for j := 0 to |user.skillsWant|
      invariant vec.Length == |vocab|
      invariant forall i :: 0 <= i < vec.Length ==> vec[i] == WantAt(user.skillsWant[..j], vocab, i)
    {
      var name := Normalize(user.skillsWant[j]);
      var idx := if name in vocab then Some(vocab[name]) else None;
      if idx.Some? {
        vec[idx.value] := 1;
      }
      forall i | 0 <= i < vec.Length ensures vec[i] == WantAt(user.skillsWant[..j + 1], vocab, i) {
        WantAtStep(user.skillsWant, j, vocab, i);
      }
    }
    assert user.skillsWant[..|user.skillsWant|] == user.skillsWant;
  }

  // ---------------------------------------------------------------------
  // Selection of mentors
  // ---------------------------------------------------------------------

  /** The position of the first user with this id, as the search loop with
      `break` finds it. */
  function FirstWithId(users: seq<UserRecord>, id: int): (r: Option<nat>)
    ensures r.Some? ==> r.value < |users| && users[r.value].id == id
    ensures r.Some? ==> forall j :: 0 <= j < r.value ==> users[j].id != id
    ensures r.None? ==> forall j :: 0 <= j < |users| ==> users[j].id != id
  {
    if users == [] then None
    else if users[0].id == id then Some(0)
    else
      match FirstWithId(users[1..], id)
      case None => None
      case Some(k) => Some(k + 1)
  }

  /** The users kept as mentors, in list order: not the learner, and with a
      nonzero have vector. */
  function Mentors(users: seq<UserRecord>, current: int, vocab: map<string, nat>): (r: seq<UserRecord>)
    ensures |r| <= |users|
  {
    if users == [] then []
    else
      var last := users[|users| - 1];
      var prev := Mentors(users[..|users| - 1], current, vocab);
      if last.id != current && AnyNonzero(HaveVector(last.skillsHave, vocab)) then prev + [last] else prev
  }

  lemma {:induction false} MentorsSpec(users: seq<UserRecord>, current: int, vocab: map<string, nat>, u: UserRecord)
    ensures u in Mentors(users, current, vocab) <==>
      u in users && u.id != current && AnyNonzero(HaveVector(u.skillsHave, vocab))
  {
    if users != [] {
      var init := users[..|users| - 1];
      MentorsSpec(init, current, vocab, u);
      assert users == init + [users[|users| - 1]];
    }
  }

  /** The score of every mentor, kept when it reaches `minScore`, in mentor
      order. */
  function Scored(mentors: seq<UserRecord>, want: seq<int>, vocab: map<string, nat>, score: Scorer, minScore: real): (r: seq<Match>)
    ensures |r| <= |mentors|
  {
    if mentors == [] then []
    else
      var last := mentors[|mentors| - 1];
      var prev := Scored(mentors[..|mentors| - 1], want, vocab, score, minScore);
      var s := score(want, HaveVector(last.skillsHave, vocab));
      if s >= minScore then prev + [Match(last, s)] else prev
  }

  lemma {:induction false} ScoredSpec(mentors: seq<UserRecord>, want: seq<int>, vocab: map<string, nat>, score: Scorer, minScore: real, m: Match)
    ensures m in Scored(mentors, want, vocab, score, minScore) <==>
      m.user in mentors && m.score == score(want, HaveVector(m.user.skillsHave, vocab)) && m.score >= minScore
  {
    if mentors != [] {
      var init := mentors[..|mentors| - 1];
      ScoredSpec(init, want, vocab, score, minScore, m);
      assert mentors == init + [mentors[|mentors| - 1]];
    }
  }

  predicate NonIncreasing(ms: seq<Match>)
  {
    forall i, j :: 0 <= i < j < |ms| ==> ms[i].score >= ms[j].score
  }

  /** Places `m` before the first match that does not score higher, so it
      stays ahead of the equal scores that came after it in the input. */
  function InsertByScore(m: Match, sorted: seq<Match>): (r: seq<Match>)
    ensures multiset(r) == multiset(sorted) + multiset{m}
    ensures |r| == |sorted| + 1
  {
    if sorted == [] || sorted[0].score <= m.score then [m] + sorted
    else
      assert sorted == [sorted[0]] + sorted[1..];
      [sorted[0]] + InsertByScore(m, sorted[1..])
  }

  lemma {:induction false} InsertKeepsOrder(m: Match, sorted: seq<Match>)
    requires NonIncreasing(sorted)
    ensures NonIncreasing(InsertByScore(m, sorted))
  {
    if sorted != [] && sorted[0].score > m.score {
      var tail := sorted[1..];
      InsertKeepsOrder(m, tail);
      var rest := InsertByScore(m, tail);
      var r := [sorted[0]] + rest;
      forall j | 0 <= j < |rest| ensures sorted[0].score >= rest[j].score {
        assert rest[j] in multiset(rest);
        if rest[j] != m {
          assert rest[j] in multiset(tail);
          var k :| 0 <= k < |tail| && tail[k] == rest[j];
          assert sorted[k + 1] == rest[j];
        }
      }
      ConsNonIncreasing(sorted[0], rest);
    } else if sorted != [] {
      ConsNonIncreasing(m, sorted);
    }
  }

  lemma ConsNonIncreasing(x: Match, rest: seq<Match>)
    requires NonIncreasing(rest)
    requires forall j :: 0 <= j < |rest| ==> x.score >= rest[j].score
    ensures NonIncreasing([x] + rest)
  {
    var r := [x] + rest;
    forall i, j | 0 <= i < j < |r| ensures r[i].score >= r[j].score {
      assert r[j] == rest[j - 1];
      if i > 0 {
        assert r[i] == rest[i - 1];
      }
    }
  }

  /** `results.sort(key=lambda x: x["score"], reverse=True)`: Python's
      sort is stable, also in reverse. */
  function SortByScoreDesc(ms: seq<Match>): (r: seq<Match>)
    ensures multiset(r) == multiset(ms)
    ensures |r| == |ms|
  {
    if ms == [] then []
    else
      assert ms == [ms[0]] + ms[1..];
      InsertByScore(ms[0], SortByScoreDesc(ms[1..]))
  }

  lemma {:induction false} SortIsNonIncreasing(ms: seq<Match>)
    ensures NonIncreasing(SortByScoreDesc(ms))
  {
    if ms != [] {
      SortIsNonIncreasing(ms[1..]);
      InsertKeepsOrder(ms[0], SortByScoreDesc(ms[1..]));
    }
  }

  /** The matches with score `v`, in order. */
  function WithScore(ms: seq<Match>, v: real): (r: seq<Match>)
    ensures forall m :: m in r <==> m in ms && m.score == v
  {
    if ms == [] then []
    else if ms[0].score == v then [ms[0]] + WithScore(ms[1..], v)
    else WithScore(ms[1..], v)
  }

  lemma {:induction false} InsertStable(m: Match, sorted: seq<Match>, v: real)
    ensures WithScore(InsertByScore(m, sorted), v) ==
      (if m.score == v then [m] else []) + WithScore(sorted, v)
  {
    if sorted != [] && sorted[0].score > m.score {
      InsertStable(m, sorted[1..], v);
    }
  }

  /** Stability: among equal scores the sorted list keeps the input order. */
  lemma {:induction false} SortIsStable(ms: seq<Match>, v: real)
    ensures WithScore(SortByScoreDesc(ms), v) == WithScore(ms, v)
  {
    if ms != [] {
      SortIsStable(ms[1..], v);
      InsertStable(ms[0], SortByScoreDesc(ms[1..]), v);
    }
  }

  function Min(a: int, b: int): (m: int)
    ensures m <= a && m <= b && (m == a || m == b)
  {
    if a <= b then a else b
  }

  /** Python's `ms[:k]`: a negative `k` drops `-k` matches from the end. */
  function Truncate(ms: seq<Match>, k: int): (r: seq<Match>)
    ensures k >= 0 ==> |r| == Min(k, |ms|)
    ensures k < 0 ==> |r| == if |ms| + k > 0 then |ms| + k else 0
    ensures r == ms[..|r|]
  {
    if k >= 0 then ms[..Min(k, |ms|)]
    else if |ms| + k > 0 then ms[..|ms| + k]
    else []
  }

  /** The unsorted results: every mentor whose score reaches `minScore`,
      when the learner is in the list and wants something. */
  function Candidates(current: int, users: seq<UserRecord>, minScore: real, score: Scorer): seq<Match>
  {
    var vocab := VocabOf(users);
    match FirstWithId(users, current)
    case None => []
    case Some(k) =>
      var want := WantVector(users[k].skillsWant, vocab);
      if !AnyNonzero(want) then []
      else Scored(Mentors(users, current, vocab), want, vocab, score, minScore)
  }

  /** What `find_best_mentors` returns. */
  function BestMentors(current: int, users: seq<UserRecord>, topK: int, minScore: real, score: Scorer): seq<Match>
  {
    Truncate(SortByScoreDesc(Candidates(current, users, minScore, score)), topK)
  }

  /** The loop that looks for the learner and stops at the first match. */
  method LocateLearner(users: seq<UserRecord>, currentUserId: int) returns (current: Option<nat>)
    ensures current == FirstWithId(users, currentUserId)
  {
    current := None;
    for i := 0 to |users|
      invariant forall j :: 0 <= j < i ==> users[j].id != currentUserId
    {
      if users[i].id == currentUserId {
        current := Some(i);
        break;
      }
    }
  }

  /** The loop that builds a have vector for every user but the learner and
      keeps those with something to teach. */
  method CollectMentors(users: seq<UserRecord>, currentUserId: int, vocab: map<string, nat>)
    returns (mentorVectors: seq<seq<int>>, mentorMeta: seq<UserRecord>)
    requires IndexesFit(vocab)
    ensures mentorMeta == Mentors(users, currentUserId, vocab)
    ensures |mentorVectors| == |mentorMeta|
    ensures forall t :: 0 <= t < |mentorMeta| ==> mentorVectors[t] == HaveVector(mentorMeta[t].skillsHave, vocab)
  {
    mentorVectors := [];
    mentorMeta := [];
    for i := 0 to |users|
      invariant mentorMeta == Mentors(users[..i], currentUserId, vocab)
      invariant |mentorVectors| == |mentorMeta|
      invariant forall t :: 0 <= t < |mentorMeta| ==> mentorVectors[t] == HaveVector(mentorMeta[t].skillsHave, vocab)
    {
      assert users[..i + 1][..i] == users[..i];
      var user := users[i];
      if user.id == currentUserId {
        continue;
      }
      var haveVec := BuildHaveVector(user, vocab);
      if !AnyNonzero(haveVec[..]) {
        continue;
      }
      mentorVectors := mentorVectors + [haveVec[..]];
      mentorMeta := mentorMeta + [user];
    }
    assert users[..|users|] == users;
  }

  /** The loop over `zip(mentor_meta, sims)` that keeps the scores reaching
      `minScore`. */
  method KeepScored(mentorMeta: seq<UserRecord>, sims: seq<real>, want: seq<int>, vocab: map<string, nat>, score: Scorer, minScore: real)
    returns (results: seq<Match>)
    requires |sims| == |mentorMeta|
    requires forall t :: 0 <= t < |sims| ==> sims[t] == score(want, HaveVector(mentorMeta[t].skillsHave, vocab))
    ensures results == Scored(mentorMeta, want, vocab, score, minScore)
  {
    results := [];
    for t := 0 to |mentorMeta|
      invariant results == Scored(mentorMeta[..t], want, vocab, score, minScore)
    {
      assert mentorMeta[..t + 1][..t] == mentorMeta[..t];
      if sims[t] >= minScore {
        results := results + [Match(mentorMeta[t], sims[t])];
      }
    }
    assert mentorMeta[..|mentorMeta|] == mentorMeta;
  }

  /** Without the learner, or when its want vector is zero, nothing is
      returned. */
  lemma BestMentorsNoLearner(current: int, users: seq<UserRecord>, topK: int, minScore: real, score: Scorer)
    requires FirstWithId(users, current).None? ||
      !AnyNonzero(WantVector(users[FirstWithId(users, current).value].skillsWant, VocabOf(users)))
    ensures BestMentors(current, users, topK, minScore, score) == []
  {
  }

  /** The tail of `find_best_mentors`: score every mentor vector, keep the
      scores reaching `minScore`, sort them highest first and keep `topK`. */
  method RankMentors(mentorVectors: seq<seq<int>>, mentorMeta: seq<UserRecord>, want: seq<int>,
                     vocab: map<string, nat>, score: Scorer, minScore: real, topK: int)
    returns (results: seq<Match>)
    requires |mentorVectors| == |mentorMeta|
    requires forall t :: 0 <= t < |mentorMeta| ==> mentorVectors[t] == HaveVector(mentorMeta[t].skillsHave, vocab)
    ensures results == Truncate(SortByScoreDesc(Scored(mentorMeta, want, vocab, score, minScore)), topK)
  {
    var sims := seq(|mentorVectors|, t requires 0 <= t < |mentorVectors| => score(want, mentorVectors[t]));
    results := KeepScored(mentorMeta, sims, want, vocab, score, minScore);
    results := Truncate(SortByScoreDesc(results), topK);
  }

  /** Once the learner is found and wants something, the result is the
      sorted, truncated list of scored mentors. */
  lemma BestMentorsFromMentors(current: int, users: seq<UserRecord>, topK: int, minScore: real, score: Scorer,
                               k: nat, want: seq<int>, mentorMeta: seq<UserRecord>)
    requires FirstWithId(users, current) == Some(k)
    requires want == WantVector(users[k].skillsWant, VocabOf(users))
    requires AnyNonzero(want)
    requires mentorMeta == Mentors(users, current, VocabOf(users))
    ensures BestMentors(current, users, topK, minScore, score) ==
      Truncate(SortByScoreDesc(Scored(mentorMeta, want, VocabOf(users), score, minScore)), topK)
  {
  }

  /** `find_best_mentors`, with the similarity passed in as `score`. */
  method FindBestMentors(currentUserId: int, users: seq<UserRecord>, topK: int, minScore: real, score: Scorer)
    returns (results: seq<Match>)
    ensures results == BestMentors(currentUserId, users, topK, minScore, score)
  {
    if users == [] {
      BestMentorsNoLearner(currentUserId, users, topK, minScore, score);
      return [];
    }
    var vocab := BuildSkillVocab(users);
    VocabIndexesFit(users);

    var current := LocateLearner(users, currentUserId);
    if current.None? {
      BestMentorsNoLearner(currentUserId, users, topK, minScore, score);
      return [];
    }
    var currentVec := BuildWantVector(users[current.value], vocab);
    if !AnyNonzero(currentVec[..]) {
      BestMentorsNoLearner(currentUserId, users, topK, minScore, score);
      return [];
    }
    var want := currentVec[..];

    var mentorVectors, mentorMeta := CollectMentors(users, currentUserId, vocab);
    BestMentorsFromMentors(currentUserId, users, topK, minScore, score, current.value, want, mentorMeta);
    if mentorVectors == [] {
      return [];
    }

    results := RankMentors(mentorVectors, mentorMeta, want, vocab, score, minScore, topK);
  }

  // ---------------------------------------------------------------------
  // What the selection promises
  // ---------------------------------------------------------------------

  /** The learner's want vector, for the learner at position `k`. */
  function LearnerWant(users: seq<UserRecord>, k: nat): seq<int>
    requires k < |users|
  {
    WantVector(users[k].skillsWant, VocabOf(users))
  }

  /** The score of `u` as a mentor of the learner at position `k`. */
  function MentorScore(users: seq<UserRecord>, k: nat, u: UserRecord, score: Scorer): real
    requires k < |users|
  {
    score(LearnerWant(users, k), HaveVector(u.skillsHave, VocabOf(users)))
  }

  /** A match is a candidate exactly when the learner is in the list and
      wants something, and the match pairs another user who has something to
      teach with its score, which reaches `minScore`. */
  lemma CandidatesSpec(current: int, users: seq<UserRecord>, minScore: real, score: Scorer, m: Match)
    ensures m in Candidates(current, users, minScore, score) <==>
      FirstWithId(users, current).Some? &&
      users[FirstWithId(users, current).value].skillsWant != [] &&
      m.user in users && m.user.id != current && m.user.skillsHave != [] &&
      m.score == MentorScore(users, FirstWithId(users, current).value, m.user, score) &&
      m.score >= minScore
  {
    var vocab := VocabOf(users);
    match FirstWithId(users, current)
    case None =>
    case Some(k) =>
      WantVectorNonzeroIff(users, users[k]);
      var want := WantVector(users[k].skillsWant, vocab);
      if AnyNonzero(want) {
        ScoredSpec(Mentors(users, current, vocab), want, vocab, score, minScore, m);
        MentorsSpec(users, current, vocab, m.user);
        if m.user in users {
          HaveVectorNonzeroIff(users, m.user);
        }
      }
  }

  /** The result is a prefix of the sorted candidates. */
  lemma BestIsSortedPrefix(current: int, users: seq<UserRecord>, topK: int, minScore: real, score: Scorer)
    ensures BestMentors(current, users, topK, minScore, score) <=
      SortByScoreDesc(Candidates(current, users, minScore, score))
  {
  }

  /** Every returned match is a candidate. */
  lemma BestMentorsMembers(current: int, users: seq<UserRecord>, topK: int, minScore: real, score: Scorer, m: Match)
    requires m in BestMentors(current, users, topK, minScore, score)
    ensures FirstWithId(users, current).Some?
    ensures users[FirstWithId(users, current).value].skillsWant != []
    ensures m.user in users && m.user.id != current && m.user.skillsHave != []
    ensures m.score >= minScore
    ensures m.score == MentorScore(users, FirstWithId(users, current).value, m.user, score)
  {
    var cands := Candidates(current, users, minScore, score);
    var sorted := SortByScoreDesc(cands);
    TruncateMember(sorted, topK, m);
    assert m in multiset(sorted);
    CandidatesSpec(current, users, minScore, score, m);
  }

  lemma TruncateMember(ms: seq<Match>, k: int, m: Match)
    requires m in Truncate(ms, k)
    ensures m in ms
  {
    var r := Truncate(ms, k);
    var i :| 0 <= i < |r| && r[i] == m;
    assert ms[i] == m;
  }

  /** The four early returns of the source: empty list, learner missing,
      learner wanting nothing, nobody else with something to teach. */
  lemma BestMentorsEmpty(current: int, users: seq<UserRecord>, topK: int, minScore: real, score: Scorer)
    requires users == [] ||
      FirstWithId(users, current).None? ||
      users[FirstWithId(users, current).value].skillsWant == [] ||
      forall u :: u in users ==> u.id == current || u.skillsHave == []
    ensures BestMentors(current, users, topK, minScore, score) == []
  {
    var r := BestMentors(current, users, topK, minScore, score);
    if r != [] {
      BestMentorsMembers(current, users, topK, minScore, score, r[0]);
    }
  }

  /** Scores never increase along the result. */
  lemma BestMentorsOrdered(current: int, users: seq<UserRecord>, topK: int, minScore: real, score: Scorer)
    ensures NonIncreasing(BestMentors(current, users, topK, minScore, score))
  {
    var sorted := SortByScoreDesc(Candidates(current, users, minScore, score));
    SortIsNonIncreasing(Candidates(current, users, minScore, score));
    TruncateNonIncreasing(sorted, topK);
  }

  lemma TruncateNonIncreasing(ms: seq<Match>, k: int)
    requires NonIncreasing(ms)
    ensures NonIncreasing(Truncate(ms, k))
  {
    var r := Truncate(ms, k);
    assert forall i :: 0 <= i < |r| ==> r[i] == ms[i];
  }

  /** No more than `topK` matches come back, and never more than there are
      users. */
  lemma BestMentorsBound(current: int, users: seq<UserRecord>, topK: int, minScore: real, score: Scorer)
    ensures topK >= 0 ==> |BestMentors(current, users, topK, minScore, score)| <= topK
    ensures |BestMentors(current, users, topK, minScore, score)| <= |users|
  {
  }

  /** With room for everyone, the result holds every candidate, each once. */
  lemma BestMentorsComplete(current: int, users: seq<UserRecord>, topK: int, minScore: real, score: Scorer)
    requires topK >= |users|
    ensures multiset(BestMentors(current, users, topK, minScore, score)) ==
      multiset(Candidates(current, users, minScore, score))
  {
    var sorted := SortByScoreDesc(Candidates(current, users, minScore, score));
    assert sorted[..|sorted|] == sorted;
  }

  /** Top-k really holds the best: a candidate left out scores no higher
      than any match returned. */
  lemma BestMentorsAreBest(current: int, users: seq<UserRecord>, topK: int, minScore: real, score: Scorer, x: Match, m: Match)
    requires x in Candidates(current, users, minScore, score)
    requires m in BestMentors(current, users, topK, minScore, score)
    requires x !in BestMentors(current, users, topK, minScore, score)
    ensures x.score <= m.score
  {
    var sorted := SortByScoreDesc(Candidates(current, users, minScore, score));
    SortIsNonIncreasing(Candidates(current, users, minScore, score));
    assert x in multiset(sorted);
    TruncateKeepsBest(sorted, topK, x, m);
  }

  lemma TruncateKeepsBest(sorted: seq<Match>, k: int, x: Match, m: Match)
    requires NonIncreasing(sorted)
    requires x in sorted && m in Truncate(sorted, k) && x !in Truncate(sorted, k)
    ensures x.score <= m.score
  {
    var r := Truncate(sorted, k);
    var j :| 0 <= j < |sorted| && sorted[j] == x;
    var i :| 0 <= i < |r| && r[i] == m;
    assert forall t :: 0 <= t < |r| ==> r[t] == sorted[t];
    assert sorted[i] == m;
  }

  lemma {:induction false} WithScorePrefix(ms: seq<Match>, n: nat, v: real)
    requires n <= |ms|
    ensures WithScore(ms[..n], v) <= WithScore(ms, v)
  {
    if n > 0 {
      WithScorePrefix(ms[1..], n - 1, v);
      assert ms[..n][1..] == ms[1..][..n - 1];
    }
  }

  /** Ties keep the candidates' order, which is the order of the user
      list: among the matches with one score, the result is a prefix of the
      candidates with that score. */
  lemma BestMentorsTiesKeepOrder(current: int, users: seq<UserRecord>, topK: int, minScore: real, score: Scorer, v: real)
    ensures WithScore(BestMentors(current, users, topK, minScore, score), v) <=
      WithScore(Candidates(current, users, minScore, score), v)
  {
    var cands := Candidates(current, users, minScore, score);
    var sorted := SortByScoreDesc(cands);
    var r := BestMentors(current, users, topK, minScore, score);
    WithScorePrefix(sorted, |r|, v);
    SortIsStable(cands, v);
  }
}
