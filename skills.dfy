/** The skills page of the frontend: the "can teach" and "want to learn"
    lists keyed by skill id, the handlers that edit them, the options left
    for the two dropdowns and the body sent on save. */
module SkillsPage {
  import opened Text
  import opened Models

  datatype CatalogSkill = CatalogSkill(id: int, name: string)
  datatype HaveItem = HaveItem(skillId: int, skillName: string, level: string)
  datatype WantItem = WantItem(skillId: int, skillName: string)

  const UnknownName: string := "Unknown"
  const DefaultLevel: string := "intermediate"
  const DuplicateHaveMessage: string := "You already added this skill in 'can teach'."
  const DuplicateWantMessage: string := "You already added this skill in 'want to learn'."

  // ---------------------------------------------------------------------
  // Catalog lookup
  // ---------------------------------------------------------------------

  /** `findSkillName`: the name of the first catalog skill with this id, or
      "Unknown". */
  function FindSkillName(catalog: seq<CatalogSkill>, id: int): (name: string)
    ensures (forall i :: 0 <= i < |catalog| ==> catalog[i].id != id) ==> name == UnknownName
    ensures (exists i :: 0 <= i < |catalog| && catalog[i].id == id) ==>
      exists i :: 0 <= i < |catalog| && catalog[i].id == id && name == catalog[i].name &&
        forall j :: 0 <= j < i ==> catalog[j].id != id
  {
    if catalog == [] then UnknownName
    else if catalog[0].id == id then catalog[0].name
    else
      var rest := FindSkillName(catalog[1..], id);
      assert forall i :: 0 < i < |catalog| ==> catalog[i] == catalog[1..][i - 1];
      if exists i :: 0 <= i < |catalog| && catalog[i].id == id then
        var i :| 0 <= i < |catalog[1..]| && catalog[1..][i].id == id && rest == catalog[1..][i].name &&
          forall j :: 0 <= j < i ==> catalog[1..][j].id != id;
        assert catalog[i + 1].id == id && forall j :: 0 <= j < i + 1 ==> catalog[j].id != id;
        rest
      else rest
  }

  // ---------------------------------------------------------------------
  // JavaScript `Number` on a dropdown value
  // ---------------------------------------------------------------------

  predicate IsDigit(c: char)
  {
    '0' <= c <= '9'
  }

  function DigitsValue(s: string): nat
    requires forall i :: 0 <= i < |s| ==> IsDigit(s[i])
  {
    if s == [] then 0
    else
      assert IsDigit(s[|s| - 1]);
      10 * DigitsValue(s[..|s| - 1]) + (s[|s| - 1] as int - '0' as int)
  }

  /** `Number(s)` for the strings a dropdown yields: JavaScript whitespace is
      trimmed, the empty string is 0, an optionally signed run of decimal
      digits is its value, and anything else is NaN (None). */
  function NumberOf(s: string): (r: Option<int>)
  {
    var t := Strip(s, JsWhitespace);
    if t == [] then Some(0)
    else
      var sign := if t[0] == '-' then -1 else 1;
      var digits := if t[0] == '-' || t[0] == '+' then t[1..] else t;
      if digits != [] && forall i :: 0 <= i < |digits| ==> IsDigit(digits[i]) then Some(sign * DigitsValue(digits))
      else None
  }

  /** `!Number(s)`: zero or NaN. */
  predicate NumberIsFalsy(n: Option<int>)
  {
    n.None? || n.value == 0
  }

  /** The decimal text React writes for a numeric option value. */
  function DecimalString(n: nat): (s: string)
    ensures s != [] && forall i :: 0 <= i < |s| ==> IsDigit(s[i])
  {
    var d := [(n % 10 + '0' as int) as char];
    if n < 10 then d else DecimalString(n / 10) + d
  }

  lemma {:induction false} DecimalDigitsValue(n: nat)
    ensures DigitsValue(DecimalString(n)) == n
  {
    var s := DecimalString(n);
    if n >= 10 {
      DecimalDigitsValue(n / 10);
      assert s[..|s| - 1] == DecimalString(n / 10);
    }
  }

  /** An option value written from a skill id reads back as that id. */
  lemma NumberOfDecimal(n: nat)
    ensures NumberOf(DecimalString(n)) == Some(n)
  {
    var s := DecimalString(n);
    assert s[0] !in JsWhitespace && s[|s| - 1] !in JsWhitespace by {
      assert IsDigit(s[0]) && IsDigit(s[|s| - 1]);
    }
    StripUnchanged(s, JsWhitespace);
    assert Strip(s, JsWhitespace) == s;
    assert s[0] != '-' && s[0] != '+' by {
      assert IsDigit(s[0]);
    }
    DecimalDigitsValue(n);
  }

  /** The empty selection and whitespace are falsy, as is any string that is
      not a number. */
  lemma NumberOfBlankIsZero(s: string)
    requires AllIn(s, JsWhitespace)
    ensures NumberOf(s) == Some(0)
  {
    StripEmptyIffAllWhitespace(s, JsWhitespace);
  }

  // ---------------------------------------------------------------------
  // The lists as values
  // ---------------------------------------------------------------------

  /** The ids of the list, in order: an id is listed exactly when
      `list.some((x) => x.skill_id === id)` holds. */
  function HaveIds(list: seq<HaveItem>): (ids: seq<int>)
    ensures |ids| == |list| && forall i :: 0 <= i < |list| ==> ids[i] == list[i].skillId
    ensures forall id :: id in ids <==> HasHave(list, id)
  {
    var ids := seq(|list|, i requires 0 <= i < |list| => list[i].skillId);
    assert forall id :: HasHave(list, id) ==> id in ids by {
      forall id | HasHave(list, id)
        ensures id in ids
      {
        var h :| h in list && h.skillId == id;
        var i :| 0 <= i < |list| && list[i] == h;
        assert ids[i] == id;
      }
    }
    ids
  }

  /** The ids of the list, in order: an id is listed exactly when
      `list.some((x) => x.skill_id === id)` holds. */
  function WantIds(list: seq<WantItem>): (ids: seq<int>)
    ensures |ids| == |list| && forall i :: 0 <= i < |list| ==> ids[i] == list[i].skillId
    ensures forall id :: id in ids <==> HasWant(list, id)
  {
    var ids := seq(|list|, i requires 0 <= i < |list| => list[i].skillId);
    assert forall id :: HasWant(list, id) ==> id in ids by {
      forall id | HasWant(list, id)
        ensures id in ids
      {
        var w :| w in list && w.skillId == id;
        var i :| 0 <= i < |list| && list[i] == w;
        assert ids[i] == id;
      }
    }
    ids
  }

  /** `list.some((x) => x.skill_id === id)`. */
  predicate HasHave(list: seq<HaveItem>, id: int)
  {
    exists h :: h in list && h.skillId == id
  }

  predicate HasWant(list: seq<WantItem>, id: int)
  {
    exists w :: w in list && w.skillId == id
  }

  /** No skill id occurs twice in the list. */
  predicate HaveIdsDistinct(list: seq<HaveItem>)
  {
    forall i, j :: 0 <= i < j < |list| ==> list[i].skillId != list[j].skillId
  }

  predicate WantIdsDistinct(list: seq<WantItem>)
  {
    forall i, j :: 0 <= i < j < |list| ==> list[i].skillId != list[j].skillId
  }

  /** `prev.filter((h) => h.skill_id !== skillId)`. */
  function WithoutHave(list: seq<HaveItem>, id: int): (r: seq<HaveItem>)
    ensures forall h :: h in r <==> h in list && h.skillId != id
    ensures |r| <= |list|
  {
    if list == [] then []
    else (if list[0].skillId != id then [list[0]] else []) + WithoutHave(list[1..], id)
  }

  function WithoutWant(list: seq<WantItem>, id: int): (r: seq<WantItem>)
    ensures forall w :: w in r <==> w in list && w.skillId != id
    ensures |r| <= |list|
  {
    if list == [] then []
    else (if list[0].skillId != id then [list[0]] else []) + WithoutWant(list[1..], id)
  }

  /** Removing keeps the order of what stays: removing from a concatenation
      removes from each part. */
  lemma {:induction false} WithoutHaveKeepsOrder(a: seq<HaveItem>, b: seq<HaveItem>, id: int)
    ensures WithoutHave(a + b, id) == WithoutHave(a, id) + WithoutHave(b, id)
  {
    if a != [] {
      assert (a + b)[1..] == a[1..] + b;
      WithoutHaveKeepsOrder(a[1..], b, id);
    } else {
      assert a + b == b;
    }
  }

  lemma {:induction false} WithoutWantKeepsOrder(a: seq<WantItem>, b: seq<WantItem>, id: int)
    ensures WithoutWant(a + b, id) == WithoutWant(a, id) + WithoutWant(b, id)
  {
    if a != [] {
      assert (a + b)[1..] == a[1..] + b;
      WithoutWantKeepsOrder(a[1..], b, id);
    } else {
      assert a + b == b;
    }
  }

  /** Removing from a list without duplicates leaves a list without
      duplicates. */
  lemma {:induction false} WithoutHaveNoDuplicates(list: seq<HaveItem>, id: int)
    requires HaveIdsDistinct(list)
    ensures HaveIdsDistinct(WithoutHave(list, id))
  {
    if list != [] {
      var tail := list[1..];
      assert HaveIdsDistinct(tail) by {
        forall i, j | 0 <= i < j < |tail| ensures tail[i].skillId != tail[j].skillId {
          assert tail[i] == list[i + 1] && tail[j] == list[j + 1];
        }
      }
      WithoutHaveNoDuplicates(tail, id);
      var rest := WithoutHave(tail, id);
      var r := WithoutHave(list, id);
      if list[0].skillId != id {
        forall j | 0 <= j < |rest| ensures rest[j].skillId != list[0].skillId {
          assert rest[j] in tail;
          var k :| 0 <= k < |tail| && tail[k] == rest[j];
          assert list[k + 1] == rest[j];
        }
        assert r == [list[0]] + rest;
        HaveConsDistinct(list[0], rest);
      } else {
        assert r == rest;
      }
    }
  }

  lemma HaveConsDistinct(x: HaveItem, rest: seq<HaveItem>)
    requires HaveIdsDistinct(rest)
    requires forall j :: 0 <= j < |rest| ==> rest[j].skillId != x.skillId
    ensures HaveIdsDistinct([x] + rest)
  {
    var r := [x] + rest;
    forall i, j | 0 <= i < j < |r| ensures r[i].skillId != r[j].skillId {
      assert r[j] == rest[j - 1];
      if i > 0 {
        assert r[i] == rest[i - 1];
      }
    }
  }

  lemma {:induction false} WithoutWantNoDuplicates(list: seq<WantItem>, id: int)
    requires WantIdsDistinct(list)
    ensures WantIdsDistinct(WithoutWant(list, id))
  {
    if list != [] {
      var tail := list[1..];
      assert WantIdsDistinct(tail) by {
        forall i, j | 0 <= i < j < |tail| ensures tail[i].skillId != tail[j].skillId {
          assert tail[i] == list[i + 1] && tail[j] == list[j + 1];
        }
      }
      WithoutWantNoDuplicates(tail, id);
      var rest := WithoutWant(tail, id);
      var r := WithoutWant(list, id);
      if list[0].skillId != id {
        forall j | 0 <= j < |rest| ensures rest[j].skillId != list[0].skillId {
          assert rest[j] in tail;
          var k :| 0 <= k < |tail| && tail[k] == rest[j];
          assert list[k + 1] == rest[j];
        }
        assert r == [list[0]] + rest;
        WantConsDistinct(list[0], rest);
      } else {
        assert r == rest;
      }
    }
  }

  lemma WantConsDistinct(x: WantItem, rest: seq<WantItem>)
    requires WantIdsDistinct(rest)
    requires forall j :: 0 <= j < |rest| ==> rest[j].skillId != x.skillId
    ensures WantIdsDistinct([x] + rest)
  {
    var r := [x] + rest;
    forall i, j | 0 <= i < j < |r| ensures r[i].skillId != r[j].skillId {
      assert r[j] == rest[j - 1];
      if i > 0 {
        assert r[i] == rest[i - 1];
      }
    }
  }

  /** `prev.map((h) => h.skill_id === skillId ? { ...h, level } : h)`. */
  function WithLevel(list: seq<HaveItem>, id: int, level: string): (r: seq<HaveItem>)
    ensures |r| == |list|
    ensures forall i :: 0 <= i < |list| ==>
      r[i].skillId == list[i].skillId && r[i].skillName == list[i].skillName &&
      r[i].level == (if list[i].skillId == id then level else list[i].level)
  {
    seq(|list|, i requires 0 <= i < |list| => if list[i].skillId == id then list[i].(level := level) else list[i])
  }

  /** Changing a level leaves the ids, and so the duplicate check and the
      dropdown options, as they were. */
  lemma WithLevelKeepsIds(list: seq<HaveItem>, id: int, level: string)
    ensures HaveIds(WithLevel(list, id, level)) == HaveIds(list)
  {
  }

  // ---------------------------------------------------------------------
  // Dropdown options
  // ---------------------------------------------------------------------

  /** `allSkills.filter((s) => !list.some((x) => x.skill_id === s.id))`. */
  function Available(catalog: seq<CatalogSkill>, taken: seq<int>): (r: seq<CatalogSkill>)
    ensures forall s :: s in r <==> s in catalog && s.id !in taken
  {
    if catalog == [] then []
    else (if catalog[0].id !in taken then [catalog[0]] else []) + Available(catalog[1..], taken)
  }

  /** The options keep catalog order: filtering a concatenation filters
      each part. */
  lemma {:induction false} AvailableKeepsOrder(a: seq<CatalogSkill>, b: seq<CatalogSkill>, taken: seq<int>)
    ensures Available(a + b, taken) == Available(a, taken) + Available(b, taken)
  {
    if a != [] {
      assert (a + b)[1..] == a[1..] + b;
      AvailableKeepsOrder(a[1..], b, taken);
    } else {
      assert a + b == b;
    }
  }

  function AvailableForHave(catalog: seq<CatalogSkill>, haveList: seq<HaveItem>): seq<CatalogSkill>
  {
    Available(catalog, HaveIds(haveList))
  }

  function AvailableForWant(catalog: seq<CatalogSkill>, wantList: seq<WantItem>): seq<CatalogSkill>
  {
    Available(catalog, WantIds(wantList))
  }

  /** No option offered for "can teach" is already in the list, and every
      catalog skill not in the list is offered. */
  lemma AvailableForHaveDisjoint(catalog: seq<CatalogSkill>, haveList: seq<HaveItem>)
    ensures forall s, h :: s in AvailableForHave(catalog, haveList) && h in haveList ==> s.id != h.skillId
    ensures forall s :: s in catalog && (forall h :: h in haveList ==> h.skillId != s.id) ==>
      s in AvailableForHave(catalog, haveList)
  {
    var ids := HaveIds(haveList);
    forall s, h | s in AvailableForHave(catalog, haveList) && h in haveList ensures s.id != h.skillId {
      var k :| 0 <= k < |haveList| && haveList[k] == h;
      assert ids[k] == h.skillId;
    }
    forall s | s in catalog && (forall h :: h in haveList ==> h.skillId != s.id)
      ensures s in AvailableForHave(catalog, haveList)
    {
      if s.id in ids {
        assert false;
      }
    }
  }

  lemma AvailableForWantDisjoint(catalog: seq<CatalogSkill>, wantList: seq<WantItem>)
    ensures forall s, w :: s in AvailableForWant(catalog, wantList) && w in wantList ==> s.id != w.skillId
    ensures forall s :: s in catalog && (forall w :: w in wantList ==> w.skillId != s.id) ==>
      s in AvailableForWant(catalog, wantList)
  {
    var ids := WantIds(wantList);
    forall s, w | s in AvailableForWant(catalog, wantList) && w in wantList ensures s.id != w.skillId {
      var k :| 0 <= k < |wantList| && wantList[k] == w;
      assert ids[k] == w.skillId;
    }
    forall s | s in catalog && (forall w :: w in wantList ==> w.skillId != s.id)
      ensures s in AvailableForWant(catalog, wantList)
    {
      if s.id in ids {
        assert false;
      }
    }
  }

  // ---------------------------------------------------------------------
  // Save body
  // ---------------------------------------------------------------------

  datatype HaveBody = HaveBody(skillId: int, level: string)
  datatype WantBody = WantBody(skillId: int)
  datatype SaveRequest = SaveRequest(have: seq<HaveBody>, want: seq<WantBody>)

  /** `h.level || "intermediate"`. */
  function LevelOrDefault(level: string): (l: string)
    ensures l != []
    ensures level != [] ==> l == level
    ensures level == [] ==> l == DefaultLevel
  {
    if level == [] then DefaultLevel else level
  }

  /** The body of `handleSave`. */
  function SaveBody(haveList: seq<HaveItem>, wantList: seq<WantItem>): (body: SaveRequest)
  {
    SaveRequest(
      seq(|haveList|, i requires 0 <= i < |haveList| => HaveBody(haveList[i].skillId, LevelOrDefault(haveList[i].level))),
      seq(|wantList|, i requires 0 <= i < |wantList| => WantBody(wantList[i].skillId)))
  }

  /** The body lists the same ids in the same order, and every level it
      sends is set: the list's own, or "intermediate" where it was blank. */
  lemma SaveBodyShape(haveList: seq<HaveItem>, wantList: seq<WantItem>)
    ensures var body := SaveBody(haveList, wantList);
      |body.have| == |haveList| && |body.want| == |wantList| &&
      (forall i :: 0 <= i < |haveList| ==>
         body.have[i].skillId == haveList[i].skillId && body.have[i].level != [] &&
         (haveList[i].level != [] ==> body.have[i].level == haveList[i].level) &&
         (haveList[i].level == [] ==> body.have[i].level == DefaultLevel)) &&
      (forall i :: 0 <= i < |wantList| ==> body.want[i].skillId == wantList[i].skillId)
  {
  }

  // ---------------------------------------------------------------------
  // The page state
  // ---------------------------------------------------------------------

  /** The component state the handlers update. */
  class SkillsEditor {
    var allSkills: seq<CatalogSkill>
    var haveList: seq<HaveItem>
    var wantList: seq<WantItem>
    var message: string
    var newHaveSkill: string
    var newHaveLevel: string
    var newWantSkill: string

    /** The state after loading the catalog and the user's lists. */
    constructor(allSkills: seq<CatalogSkill>, haveList: seq<HaveItem>, wantList: seq<WantItem>)
      ensures this.allSkills == allSkills && this.haveList == haveList && this.wantList == wantList
      ensures message == [] && newHaveSkill == [] && newHaveLevel == DefaultLevel && newWantSkill == []
    {
      this.allSkills := allSkills;
      this.haveList := haveList;
      this.wantList := wantList;
      message := [];
      newHaveSkill := [];
      newHaveLevel := DefaultLevel;
      newWantSkill := [];
    }

    /** `addHave`. */
    method AddHave()
      modifies this
      ensures allSkills == old(allSkills) && wantList == old(wantList) && newWantSkill == old(newWantSkill)
      ensures old(newHaveSkill) == [] || NumberIsFalsy(NumberOf(old(newHaveSkill))) ==>
        haveList == old(haveList) && message == old(message) &&
        newHaveSkill == old(newHaveSkill) && newHaveLevel == old(newHaveLevel)
      ensures old(newHaveSkill) != [] && !NumberIsFalsy(NumberOf(old(newHaveSkill))) ==>
        var id := NumberOf(old(newHaveSkill)).value;
        if HasHave(old(haveList), id) then
          haveList == old(haveList) && message == DuplicateHaveMessage &&
          newHaveSkill == old(newHaveSkill) && newHaveLevel == old(newHaveLevel)
        else
          haveList == old(haveList) + [HaveItem(id, FindSkillName(old(allSkills), id), LevelOrDefault(old(newHaveLevel)))] &&
          newHaveSkill == [] && newHaveLevel == DefaultLevel && message == []
      ensures HaveIdsDistinct(old(haveList)) ==> HaveIdsDistinct(haveList)
    {
      if newHaveSkill == [] {
        return;
      }
      var skillId := NumberOf(newHaveSkill);
      if NumberIsFalsy(skillId) {
        return;
      }
      var id := skillId.value;
      if HasHave(haveList, id) {
        message := DuplicateHaveMessage;
        return;
      }
      var skillName := FindSkillName(allSkills, id);
      haveList := haveList + [HaveItem(id, skillName, LevelOrDefault(newHaveLevel))];
      newHaveSkill := [];
      newHaveLevel := DefaultLevel;
      message := [];
    }

    /** `addWant`. */
    method AddWant()
      modifies this
      ensures allSkills == old(allSkills) && haveList == old(haveList)
      ensures newHaveSkill == old(newHaveSkill) && newHaveLevel == old(newHaveLevel)
      ensures old(newWantSkill) == [] || NumberIsFalsy(NumberOf(old(newWantSkill))) ==>
        wantList == old(wantList) && message == old(message) && newWantSkill == old(newWantSkill)
      ensures old(newWantSkill) != [] && !NumberIsFalsy(NumberOf(old(newWantSkill))) ==>
        var id := NumberOf(old(newWantSkill)).value;
        if HasWant(old(wantList), id) then
          wantList == old(wantList) && message == DuplicateWantMessage && newWantSkill == old(newWantSkill)
        else
          wantList == old(wantList) + [WantItem(id, FindSkillName(old(allSkills), id))] &&
          newWantSkill == [] && message == []
      ensures WantIdsDistinct(old(wantList)) ==> WantIdsDistinct(wantList)
    {
      if newWantSkill == [] {
        return;
      }
      var skillId := NumberOf(newWantSkill);
      if NumberIsFalsy(skillId) {
        return;
      }
      var id := skillId.value;
      if HasWant(wantList, id) {
        message := DuplicateWantMessage;
        return;
      }
      var skillName := FindSkillName(allSkills, id);
      wantList := wantList + [WantItem(id, skillName)];
      newWantSkill := [];
      message := [];
    }

    /** `removeHave`. */
    method RemoveHave(skillId: int)
      modifies this
      ensures haveList == WithoutHave(old(haveList), skillId)
      ensures allSkills == old(allSkills) && wantList == old(wantList) && message == old(message)
      ensures newHaveSkill == old(newHaveSkill) && newHaveLevel == old(newHaveLevel) && newWantSkill == old(newWantSkill)
      ensures HaveIdsDistinct(old(haveList)) ==> HaveIdsDistinct(haveList)
    {
      if HaveIdsDistinct(haveList) {
        WithoutHaveNoDuplicates(haveList, skillId);
      }
      haveList := WithoutHave(haveList, skillId);
    }

    /** `removeWant`. */
    method RemoveWant(skillId: int)
      modifies this
      ensures wantList == WithoutWant(old(wantList), skillId)
      ensures allSkills == old(allSkills) && haveList == old(haveList) && message == old(message)
      ensures newHaveSkill == old(newHaveSkill) && newHaveLevel == old(newHaveLevel) && newWantSkill == old(newWantSkill)
      ensures WantIdsDistinct(old(wantList)) ==> WantIdsDistinct(wantList)
    {
      if WantIdsDistinct(wantList) {
        WithoutWantNoDuplicates(wantList, skillId);
      }
      wantList := WithoutWant(wantList, skillId);
    }

    /** `changeHaveLevel`. */
    method ChangeHaveLevel(skillId: int, level: string)
      modifies this
      ensures haveList == WithLevel(old(haveList), skillId, level)
      ensures HaveIds(haveList) == HaveIds(old(haveList))
      ensures allSkills == old(allSkills) && wantList == old(wantList) && message == old(message)
      ensures newHaveSkill == old(newHaveSkill) && newHaveLevel == old(newHaveLevel) && newWantSkill == old(newWantSkill)
    {
      WithLevelKeepsIds(haveList, skillId, level);
      haveList := WithLevel(haveList, skillId, level);
    }
  }
}
