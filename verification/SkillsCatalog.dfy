/** The skills catalog: two tables, replaced or patched as a whole
    (handyman-service/app/skills_catalog.py). Rows are listed in the order they were inserted. */
module SkillsCatalog {
  import Text

  datatype Category = Category(key: string, name: string, active: bool, sortOrder: nat)

  datatype Item = Item(category: string, skill: string, categoryLabel: string, skillLabel: string, active: bool, sortOrder: nat)

  datatype Catalog = Catalog(categories: seq<Category>, items: seq<Item>)

  /** A dict of category to skills, in insertion order. */
  type Payload = seq<(string, seq<string>)>

  datatype PatchRequest = PatchRequest(
    upserts: Payload,
    activateSkills: seq<string>,
    deactivateSkills: seq<string>,
    activateCategories: seq<string>,
    deactivateCategories: seq<string>)

  // ---- Keys and labels ----

  function Spaced(key: string): string {
    if key == "" then "" else [if key[0] == '_' then ' ' else key[0]] + Spaced(key[1..])
  }

  predicate IsLetter(c: char) {
    'a' <= c <= 'z' || 'A' <= c <= 'Z'
  }

  function UpperChar(c: char): char {
    if 'a' <= c <= 'z' then c - 'a' + 'A' else c
  }

  /** str.title(): a letter is upper case exactly when it does not follow a letter. */
  function Title(s: string, afterLetter: bool): string {
    if s == "" then ""
    else [if afterLetter then Text.LowerChar(s[0]) else UpperChar(s[0])] + Title(s[1..], IsLetter(s[0]))
  }

  /** _label_from_key */
  function LabelFromKey(key: string): string {
    Title(Text.Strip(Spaced(key)), false)
  }

  /** normalize_skills_input, and the inner loop of normalize_catalog */
  function NormalizeSkills(skills: seq<string>): (clean: seq<string>)
    ensures forall i, j :: 0 <= i < j < |clean| ==> clean[i] != clean[j]
    ensures "" !in clean
    ensures forall s :: s in clean ==> Text.Normalize(s) == s
  {
    if skills == [] then []
    else
      var clean := NormalizeSkills(skills[..|skills| - 1]);
      var key := Text.Normalize(skills[|skills| - 1]);
      Text.NormalizeIdempotent(skills[|skills| - 1]);
      if key == "" || key in clean then clean else clean + [key]
  }

  predicate Yields(skills: seq<string>, key: string) {
    exists i :: 0 <= i < |skills| && Text.Normalize(skills[i]) == key
  }

  lemma YieldsStep(init: seq<string>, last: string, key: string)
    ensures Yields(init + [last], key) <==> Yields(init, key) || Text.Normalize(last) == key
  {
    var skills := init + [last];
    assert skills[|init|] == last && forall i :: 0 <= i < |init| ==> skills[i] == init[i];
  }

  /** A key is kept exactly when some input normalizes to it. */
  lemma {:induction false} NormalizedSkillsAreAll(skills: seq<string>, key: string)
    requires key != ""
    ensures key in NormalizeSkills(skills) <==> Yields(skills, key)
  {
    if skills != [] {
      var init, last := skills[..|skills| - 1], skills[|skills| - 1];
      NormalizedSkillsAreAll(init, key);
      KeptStep(init, last, key);
      YieldsStep(init, last, key);
      assert skills == init + [last];
    }
  }

  lemma {:induction false} KeptStep(init: seq<string>, last: string, key: string)
    requires key != ""
    ensures key in NormalizeSkills(init + [last]) <==> key in NormalizeSkills(init) || Text.Normalize(last) == key
  {
    assert (init + [last])[..|init|] == init;
    InAppend(NormalizeSkills(init), Text.Normalize(last), key);
  }

  lemma InAppend(keys: seq<string>, last: string, key: string)
    ensures key in keys + [last] <==> key in keys || last == key
  {
  }

  /** d[key] = value: a known key keeps its place. */
  function Assign(d: Payload, key: string, value: seq<string>): Payload {
    if d == [] then [(key, value)]
    else if d[0].0 == key then [(key, value)] + d[1..]
    else [d[0]] + Assign(d[1..], key, value)
  }

  function NormalizeCatalog(payload: Payload): Payload {
    if payload == [] then []
    else
      var done := NormalizeCatalog(payload[..|payload| - 1]);
      var (rawCategory, rawSkills) := payload[|payload| - 1];
      var category, skills := Text.Normalize(rawCategory), NormalizeSkills(rawSkills);
      if category == "" || skills == [] then done else Assign(done, category, skills)
  }

  /** The categories of a payload, in order. */
  function Keys(d: Payload): seq<string> {
    if d == [] then [] else Keys(d[..|d| - 1]) + [d[|d| - 1].0]
  }

  /** The (category, skill) pairs of a payload, in order. */
  function Pairs(d: Payload): seq<(string, string)> {
    if d == [] then []
    else Pairs(d[..|d| - 1]) + PairsOf(d[|d| - 1].0, d[|d| - 1].1)
  }

  function PairsOf(category: string, skills: seq<string>): seq<(string, string)> {
    if skills == [] then [] else PairsOf(category, skills[..|skills| - 1]) + [(category, skills[|skills| - 1])]
  }

  // ---- Patching ----

  predicate HasCategory(categories: seq<Category>, key: string) {
    exists i :: 0 <= i < |categories| && categories[i].key == key
  }

  predicate HasSkill(items: seq<Item>, skill: string) {
    exists i :: 0 <= i < |items| && items[i].skill == skill
  }

  function Reactivate(c: Category): Category {
    c.(active := true, name := if c.name == "" then LabelFromKey(c.key) else c.name)
  }

  function UpsertCategory(categories: seq<Category>, key: string): seq<Category> {
    if HasCategory(categories, key) then
      seq(|categories|, i requires 0 <= i < |categories| =>
        if categories[i].key == key then Reactivate(categories[i]) else categories[i])
    else categories + [Category(key, LabelFromKey(key), true, |categories|)]
  }

  function UpsertCategories(categories: seq<Category>, keys: seq<string>): seq<Category> {
    if keys == [] then categories
    else UpsertCategory(UpsertCategories(categories, keys[..|keys| - 1]), keys[|keys| - 1])
  }

  function CountIn(items: seq<Item>, category: string): nat {
    if items == [] then 0
    else CountIn(items[..|items| - 1], category) + if items[|items| - 1].category == category then 1 else 0
  }

  /** An upserted row: moved to the category, relabeled, active. */
  function Placed(item: Item, category: string): Item {
    item.(category := category, categoryLabel := LabelFromKey(category), skillLabel := LabelFromKey(item.skill), active := true)
  }

  function UpsertItem(items: seq<Item>, category: string, skill: string): seq<Item> {
    if HasSkill(items, skill) then
      seq(|items|, i requires 0 <= i < |items| => if items[i].skill == skill then Placed(items[i], category) else items[i])
    else items + [Item(category, skill, LabelFromKey(category), LabelFromKey(skill), true, CountIn(items, category))]
  }

  function UpsertItems(items: seq<Item>, pairs: seq<(string, string)>): seq<Item> {
    if pairs == [] then items
    else UpsertItem(UpsertItems(items, pairs[..|pairs| - 1]), pairs[|pairs| - 1].0, pairs[|pairs| - 1].1)
  }

  /** UPDATE ... SET is_active = active WHERE key IN keys */
  function SetCategories(categories: seq<Category>, keys: seq<string>, active: bool): seq<Category> {
    seq(|categories|, i requires 0 <= i < |categories| =>
      if categories[i].key in keys then categories[i].(active := active) else categories[i])
  }

  function SetItemsOf(items: seq<Item>, keys: seq<string>, active: bool): seq<Item> {
    seq(|items|, i requires 0 <= i < |items| =>
      if items[i].category in keys then items[i].(active := active) else items[i])
  }

  function SetItems(items: seq<Item>, skills: seq<string>, active: bool): seq<Item> {
    seq(|items|, i requires 0 <= i < |items| =>
      if items[i].skill in skills then items[i].(active := active) else items[i])
  }

  /** The request after normalization. */
  function Normalized(p: PatchRequest): PatchRequest {
    PatchRequest(NormalizeCatalog(p.upserts), NormalizeSkills(p.activateSkills), NormalizeSkills(p.deactivateSkills),
                 NormalizeSkills(p.activateCategories), NormalizeSkills(p.deactivateCategories))
  }

  function Patch(c: Catalog, p: PatchRequest): Catalog {
    var q := Normalized(p);
    Catalog(
      SetCategories(SetCategories(UpsertCategories(c.categories, Keys(q.upserts)), q.activateCategories, true),
                    q.deactivateCategories, false),
      SetItems(SetItems(SetItemsOf(SetItemsOf(UpsertItems(c.items, Pairs(q.upserts)),
                                              q.activateCategories, true),
                                   q.deactivateCategories, false),
                        q.activateSkills, true),
               q.deactivateSkills, false))
  }

  // ---- Replacing ----

  ghost predicate DistinctSkills(pairs: seq<(string, string)>) {
    forall i, j :: 0 <= i < j < |pairs| ==> pairs[i].1 != pairs[j].1
  }

  /** The rows replace_catalog inserts for one category. */
  function FreshItems(category: string, skills: seq<string>): seq<Item> {
    if skills == [] then []
    else FreshItems(category, skills[..|skills| - 1])
         + [Item(category, skills[|skills| - 1], LabelFromKey(category), LabelFromKey(skills[|skills| - 1]), true, |skills| - 1)]
  }

  function FreshCatalog(d: Payload): Catalog {
    if d == [] then Catalog([], [])
    else
      var c, (category, skills) := FreshCatalog(d[..|d| - 1]), d[|d| - 1];
      Catalog(c.categories + [Category(category, LabelFromKey(category), true, |d| - 1)],
              c.items + FreshItems(category, skills))
  }

  lemma {:induction false} UpsertCategoriesAppend(categories: seq<Category>, keys: seq<string>, key: string)
    ensures UpsertCategories(categories, keys + [key]) == UpsertCategory(UpsertCategories(categories, keys), key)
  {
    assert (keys + [key])[..|keys|] == keys;
  }

  lemma {:induction false} UpsertItemsAppend(items: seq<Item>, pairs: seq<(string, string)>, pair: (string, string))
    ensures UpsertItems(items, pairs + [pair]) == UpsertItem(UpsertItems(items, pairs), pair.0, pair.1)
  {
    assert (pairs + [pair])[..|pairs|] == pairs;
  }

  lemma {:induction false} UpsertItemsConcat(items: seq<Item>, first: seq<(string, string)>, rest: seq<(string, string)>)
    ensures UpsertItems(items, first + rest) == UpsertItems(UpsertItems(items, first), rest)
  {
    if rest == [] {
      assert first + rest == first;
    } else {
      var init, last := rest[..|rest| - 1], rest[|rest| - 1];
      UpsertItemsConcat(items, first, init);
      assert first + rest == (first + init) + [last];
      UpsertItemsAppend(items, first + init, last);
    }
  }

  lemma FreshCatalogStep(d: Payload, i: nat)
    requires i < |d|
    ensures FreshCatalog(d[..i + 1]) ==
            Catalog(FreshCatalog(d[..i]).categories + [Category(d[i].0, LabelFromKey(d[i].0), true, i)],
                    FreshCatalog(d[..i]).items + FreshItems(d[i].0, d[i].1))
  {
    assert d[..i + 1][..i] == d[..i];
  }

  // ---- The operations ----

  class CatalogStore {
    var categories: seq<Category>
    var items: seq<Item>

    ghost function State(): Catalog
      reads this
    {
      Catalog(categories, items)
    }

    constructor ()
      ensures State() == Catalog([], [])
    {
      categories, items := [], [];
    }

    method UpsertOneCategory(key: string) returns (added: bool)
      modifies this`categories
      ensures categories == UpsertCategory(old(categories), key)
      ensures added <==> |categories| == |old(categories)| + 1
      ensures !added ==> |categories| == |old(categories)|
    {
      added := !HasCategory(categories, key);
      categories := UpsertCategory(categories, key);
    }

    method UpsertOneSkill(category: string, skill: string) returns (added: bool)
      modifies this`items
      ensures items == UpsertItem(old(items), category, skill)
      ensures added <==> |items| == |old(items)| + 1
      ensures !added ==> |items| == |old(items)|
    {
      added := !HasSkill(items, skill);
      items := UpsertItem(items, category, skill);
    }

    /** The inner loop over the skills of one category. */
    method UpsertSkillsOf(category: string, skills: seq<string>) returns (added: nat)
      modifies this`items
      ensures items == UpsertItems(old(items), PairsOf(category, skills))
      ensures |items| == |old(items)| + added
    {
      added := 0;
      for j := 0 to |skills|
        invariant items == UpsertItems(old(items), PairsOf(category, skills[..j]))
        invariant |items| == |old(items)| + added
      {
        assert skills[..j + 1][..j] == skills[..j];
        UpsertItemsAppend(old(items), PairsOf(category, skills[..j]), (category, skills[j]));
        var isNew := UpsertOneSkill(category, skills[j]);
        if isNew {
          added := added + 1;
        }
      }
      assert skills[..|skills|] == skills;
    }

    method UpsertAll(upserts: Payload) returns (addedCategories: nat, addedSkills: nat)
      modifies this
      ensures categories == UpsertCategories(old(categories), Keys(upserts))
      ensures items == UpsertItems(old(items), Pairs(upserts))
      ensures |categories| == |old(categories)| + addedCategories && |items| == |old(items)| + addedSkills
    {
      addedCategories, addedSkills := 0, 0;
      for i := 0 to |upserts|
        invariant categories == UpsertCategories(old(categories), Keys(upserts[..i]))
        invariant items == UpsertItems(old(items), Pairs(upserts[..i]))
        invariant |categories| == |old(categories)| + addedCategories && |items| == |old(items)| + addedSkills
      {
        var category, skills := upserts[i].0, upserts[i].1;
        assert upserts[..i + 1][..i] == upserts[..i];
        UpsertCategoriesAppend(old(categories), Keys(upserts[..i]), category);
        UpsertItemsConcat(old(items), Pairs(upserts[..i]), PairsOf(category, skills));
        var isNew := UpsertOneCategory(category);
        if isNew {
          addedCategories := addedCategories + 1;
        }
        var added := UpsertSkillsOf(category, skills);
        addedSkills := addedSkills + added;
      }
      assert upserts[..|upserts|] == upserts;
    }

    method PatchCatalog(p: PatchRequest) returns (addedCategories: nat, addedSkills: nat)
      modifies this
      ensures State() == Patch(old(State()), p)
      ensures |categories| == |old(categories)| + addedCategories && |items| == |old(items)| + addedSkills
    {
      var upserts := NormalizeCatalogPayload(p.upserts);
      var activateSkills := NormalizeSkillsInput(p.activateSkills);
      var deactivateSkills := NormalizeSkillsInput(p.deactivateSkills);
      var activateCategories := NormalizeSkillsInput(p.activateCategories);
      var deactivateCategories := NormalizeSkillsInput(p.deactivateCategories);
      addedCategories, addedSkills := UpsertAll(upserts);
      categories := SetCategories(categories, activateCategories, true);
      items := SetItemsOf(items, activateCategories, true);
      categories := SetCategories(categories, deactivateCategories, false);
      items := SetItemsOf(items, deactivateCategories, false);
      items := SetItems(items, activateSkills, true);
      items := SetItems(items, deactivateSkills, false);
    }

    method InsertFreshItems(category: string, skills: seq<string>) returns (added: nat)
      modifies this`items
      ensures items == old(items) + FreshItems(category, skills)
      ensures |items| == |old(items)| + added
    {
      added := 0;
      for j := 0 to |skills|
        invariant items == old(items) + FreshItems(category, skills[..j])
        invariant |items| == |old(items)| + added
      {
        assert skills[..j + 1][..j] == skills[..j];
        items := items + [Item(category, skills[j], LabelFromKey(category), LabelFromKey(skills[j]), true, j)];
        added := added + 1;
      }
      assert skills[..|skills|] == skills;
    }

    /** Nothing changes when the shape check fails. */
    method ReplaceCatalog(payload: Payload) returns (ok: bool, categoryCount: nat, skillCount: nat)
      modifies this
      ensures ok <==> NormalizeCatalog(payload) != [] && DistinctSkills(Pairs(NormalizeCatalog(payload)))
      ensures State() == if ok then FreshCatalog(NormalizeCatalog(payload)) else old(State())
      ensures ok ==> categoryCount == |categories| && skillCount == |items|
    {
      categoryCount, skillCount := 0, 0;
      ok := ValidateCatalogShape(payload);
      if !ok {
        return;
      }
      var d := NormalizeCatalogPayload(payload);
      categoryCount, skillCount := InsertFreshCatalog(d);
    }

    method InsertFreshCatalog(d: Payload) returns (categoryCount: nat, skillCount: nat)
      modifies this
      ensures State() == FreshCatalog(d)
      ensures categoryCount == |categories| && skillCount == |items|
    {
      categories, items, categoryCount, skillCount := [], [], 0, 0;
      for i := 0 to |d|
        invariant State() == FreshCatalog(d[..i])
        invariant categoryCount == |categories| == i && skillCount == |items|
      {
        FreshCatalogStep(d, i);
        categories := categories + [Category(d[i].0, LabelFromKey(d[i].0), true, categoryCount)];
        categoryCount := categoryCount + 1;
        var added := InsertFreshItems(d[i].0, d[i].1);
        skillCount := skillCount + added;
      }
      assert d[..|d|] == d;
    }
  }

  // ---- Normalizing and checking a payload ----

  method NormalizeSkillsInput(skills: seq<string>) returns (clean: seq<string>)
    ensures clean == NormalizeSkills(skills)
  {
    clean := [];
    var seen: set<string> := {};
    for i := 0 to |skills|
      invariant clean == NormalizeSkills(skills[..i])
      invariant forall s :: s in seen <==> s in clean
    {
      assert skills[..i + 1][..i] == skills[..i];
      var key := Text.Normalize(skills[i]);
      if key != "" && key !in seen {
        seen := seen + {key};
        clean := clean + [key];
      }
    }
    assert skills[..|skills|] == skills;
  }

  method NormalizeCatalogPayload(payload: Payload) returns (d: Payload)
    ensures d == NormalizeCatalog(payload)
  {
    d := [];
    for i := 0 to |payload|
      invariant d == NormalizeCatalog(payload[..i])
    {
      assert payload[..i + 1][..i] == payload[..i];
      var category := Text.Normalize(payload[i].0);
      if category != "" {
        var skills := NormalizeSkillsInput(payload[i].1);
        if skills != [] {
          d := Assign(d, category, skills);
        }
      }
    }
    assert payload[..|payload|] == payload;
  }

  lemma DistinctAppend(pairs: seq<(string, string)>, pair: (string, string))
    ensures DistinctSkills(pairs + [pair]) <==> DistinctSkills(pairs) && !Mentioned(pairs, pair.1)
    ensures forall s :: Mentioned(pairs + [pair], s) <==> Mentioned(pairs, s) || s == pair.1
  {
    var more := pairs + [pair];
    assert more[|pairs|] == pair && forall i :: 0 <= i < |pairs| ==> more[i] == pairs[i];
  }

  lemma PairsStep(d: Payload, i: nat)
    requires i < |d|
    ensures Pairs(d[..i + 1]) == Pairs(d[..i]) + PairsOf(d[i].0, d[i].1)
  {
    assert d[..i + 1][..i] == d[..i];
  }

  /** The inner loop over the skills of one category, after the pairs listed before it. */
  method CheckSkills(ghost listed: seq<(string, string)>, ghost category: string, skills: seq<string>, seen: set<string>)
    returns (distinct: bool, more: set<string>)
    requires forall s :: s in seen <==> Mentioned(listed, s)
    ensures DistinctSkills(listed + PairsOf(category, skills)) <==> DistinctSkills(listed) && distinct
    ensures forall s :: s in more <==> Mentioned(listed + PairsOf(category, skills), s)
  {
    distinct, more := true, seen;
    ghost var now := listed;
    assert listed + [] == listed;
    for j := 0 to |skills|
      invariant now == listed + PairsOf(category, skills[..j])
      invariant DistinctSkills(now) <==> DistinctSkills(listed) && distinct
      invariant forall s :: s in more <==> Mentioned(now, s)
    {
      assert skills[..j + 1][..j] == skills[..j];
      DistinctAppend(now, (category, skills[j]));
      now := now + [(category, skills[j])];
      if skills[j] in more {
        distinct := false;
      }
      more := more + {skills[j]};
    }
    assert skills[..|skills|] == skills;
  }

  /** Some category, and no skill listed twice. */
  method ValidateCatalogShape(payload: Payload) returns (ok: bool)
    ensures ok <==> NormalizeCatalog(payload) != [] && DistinctSkills(Pairs(NormalizeCatalog(payload)))
  {
    var d := NormalizeCatalogPayload(payload);
    if d == [] {
      return false;
    }
    ok := true;
    var seen: set<string> := {};
    for i := 0 to |d|
      invariant ok <==> DistinctSkills(Pairs(d[..i]))
      invariant forall s :: s in seen <==> Mentioned(Pairs(d[..i]), s)
    {
      PairsStep(d, i);
      var distinct, more := CheckSkills(Pairs(d[..i]), d[i].0, d[i].1, seen);
      ok, seen := ok && distinct, more;
    }
    assert d[..|d|] == d;
  }

  // ---- What upserting does to each row ----

  ghost predicate Mentioned(pairs: seq<(string, string)>, skill: string) {
    exists i :: 0 <= i < |pairs| && pairs[i].1 == skill
  }

  /** Upserted under several categories, a skill ends in the last of them. */
  function LastCategory(pairs: seq<(string, string)>, skill: string): string {
    if pairs == [] then ""
    else if pairs[|pairs| - 1].1 == skill then pairs[|pairs| - 1].0
    else LastCategory(pairs[..|pairs| - 1], skill)
  }

  ghost function Rewritten(item: Item, pairs: seq<(string, string)>): Item {
    if Mentioned(pairs, item.skill) then Placed(item, LastCategory(pairs, item.skill)) else item
  }

  lemma MentionedStep(pairs: seq<(string, string)>, skill: string)
    requires pairs != []
    ensures Mentioned(pairs, skill) <==> Mentioned(pairs[..|pairs| - 1], skill) || pairs[|pairs| - 1].1 == skill
  {
    var init := pairs[..|pairs| - 1];
    if Mentioned(init, skill) {
      var i :| 0 <= i < |init| && init[i].1 == skill;
      assert pairs[i].1 == skill;
    }
    if Mentioned(pairs, skill) && pairs[|pairs| - 1].1 != skill {
      var i :| 0 <= i < |pairs| && pairs[i].1 == skill;
      assert init[i].1 == skill;
    }
  }

  /** Existing rows keep their place and are rewritten; new rows are already as rewriting would leave them. */
  lemma {:induction false} UpsertItemsRows(items: seq<Item>, pairs: seq<(string, string)>)
    ensures var after := UpsertItems(items, pairs);
            && |items| <= |after|
            && (forall i :: 0 <= i < |items| ==> after[i] == Rewritten(items[i], pairs))
            && (forall i :: |items| <= i < |after| ==> Mentioned(pairs, after[i].skill) && after[i] == Rewritten(after[i], pairs))
  {
    if pairs != [] {
      var init, last := pairs[..|pairs| - 1], pairs[|pairs| - 1];
      var before, after := UpsertItems(items, init), UpsertItems(items, pairs);
      UpsertItemsRows(items, init);
      forall i | 0 <= i < |items|
        ensures after[i] == Rewritten(items[i], pairs)
      {
        MentionedStep(pairs, items[i].skill);
      }
      forall i | |items| <= i < |after|
        ensures Mentioned(pairs, after[i].skill) && after[i] == Rewritten(after[i], pairs)
      {
        MentionedStep(pairs, after[i].skill);
      }
    }
  }

  lemma {:induction false} UpsertedSkillsExist(items: seq<Item>, pairs: seq<(string, string)>, skill: string)
    requires Mentioned(pairs, skill) || HasSkill(items, skill)
    ensures HasSkill(UpsertItems(items, pairs), skill)
  {
    if pairs != [] {
      var init, last := pairs[..|pairs| - 1], pairs[|pairs| - 1];
      MentionedStep(pairs, skill);
      var before, after := UpsertItems(items, init), UpsertItems(items, pairs);
      if last.1 == skill && !HasSkill(before, skill) {
        assert after[|before|].skill == skill;
      } else {
        if last.1 != skill {
          UpsertedSkillsExist(items, init, skill);
        }
        var i :| 0 <= i < |before| && before[i].skill == skill;
        assert after[i].skill == skill;
      }
    }
  }

  /** Nothing is added when every upserted skill is there already. */
  lemma {:induction false} UpsertOfKnownAddsNothing(items: seq<Item>, pairs: seq<(string, string)>)
    requires forall skill :: Mentioned(pairs, skill) ==> HasSkill(items, skill)
    ensures |UpsertItems(items, pairs)| == |items|
  {
    if pairs != [] {
      var init, last := pairs[..|pairs| - 1], pairs[|pairs| - 1];
      forall skill | Mentioned(init, skill)
        ensures HasSkill(items, skill)
      {
        MentionedStep(pairs, skill);
      }
      UpsertOfKnownAddsNothing(items, init);
      MentionedStep(pairs, last.1);
      UpsertedSkillsExist(items, init, last.1);
    }
  }

  ghost predicate DistinctItems(items: seq<Item>) {
    forall i, j :: 0 <= i < j < |items| ==> items[i].skill != items[j].skill
  }

  lemma {:induction false} UpsertKeepsSkillsDistinct(items: seq<Item>, pairs: seq<(string, string)>)
    requires DistinctItems(items)
    ensures DistinctItems(UpsertItems(items, pairs))
  {
    if pairs != [] {
      UpsertKeepsSkillsDistinct(items, pairs[..|pairs| - 1]);
    }
  }

  // ---- The same for categories ----

  ghost function Revived(c: Category, keys: seq<string>): Category {
    if c.key in keys then Reactivate(c) else c
  }

  lemma {:induction false} UpsertCategoriesRows(categories: seq<Category>, keys: seq<string>)
    ensures var after := UpsertCategories(categories, keys);
            && |categories| <= |after|
            && (forall i :: 0 <= i < |categories| ==> after[i] == Revived(categories[i], keys))
            && (forall i :: |categories| <= i < |after| ==> after[i].key in keys && after[i] == Revived(after[i], keys))
  {
    if keys != [] {
      var init, last := keys[..|keys| - 1], keys[|keys| - 1];
      UpsertCategoriesRows(categories, init);
      assert forall k :: k in keys <==> k in init || k == last;
    }
  }

  lemma {:induction false} UpsertedCategoriesExist(categories: seq<Category>, keys: seq<string>, key: string)
    requires key in keys || HasCategory(categories, key)
    ensures HasCategory(UpsertCategories(categories, keys), key)
  {
    if keys != [] {
      var init, last := keys[..|keys| - 1], keys[|keys| - 1];
      assert key in keys <==> key in init || key == last;
      var before, after := UpsertCategories(categories, init), UpsertCategories(categories, keys);
      if last == key && !HasCategory(before, key) {
        assert after[|before|].key == key;
      } else {
        if last != key {
          UpsertedCategoriesExist(categories, init, key);
        }
        var i :| 0 <= i < |before| && before[i].key == key;
        assert after[i].key == key;
      }
    }
  }

  lemma {:induction false} UpsertOfKnownCategoriesAddsNothing(categories: seq<Category>, keys: seq<string>)
    requires forall key :: key in keys ==> HasCategory(categories, key)
    ensures |UpsertCategories(categories, keys)| == |categories|
  {
    if keys != [] {
      var init, last := keys[..|keys| - 1], keys[|keys| - 1];
      assert forall k :: k in keys <==> k in init || k == last;
      UpsertOfKnownCategoriesAddsNothing(categories, init);
      UpsertedCategoriesExist(categories, init, last);
    }
  }

  ghost predicate DistinctCategories(categories: seq<Category>) {
    forall i, j :: 0 <= i < j < |categories| ==> categories[i].key != categories[j].key
  }

  lemma {:induction false} UpsertKeepsCategoriesDistinct(categories: seq<Category>, keys: seq<string>)
    requires DistinctCategories(categories)
    ensures DistinctCategories(UpsertCategories(categories, keys))
  {
    if keys != [] {
      UpsertKeepsCategoriesDistinct(categories, keys[..|keys| - 1]);
    }
  }

  // ---- The catalog invariant ----

  ghost predicate Wellformed(c: Catalog) {
    DistinctItems(c.items) && DistinctCategories(c.categories) && CategoriesPresent(c)
  }

  ghost predicate CategoriesPresent(c: Catalog) {
    forall i :: 0 <= i < |c.items| ==> HasCategory(c.categories, c.items[i].category)
  }

  /** The precedence of the four lists over the flag a row has after upserting. */
  function ItemFlag(item: Item, q: PatchRequest): bool {
    if item.skill in q.deactivateSkills then false
    else if item.skill in q.activateSkills then true
    else if item.category in q.deactivateCategories then false
    else if item.category in q.activateCategories then true
    else item.active
  }

  function CategoryFlag(c: Category, q: PatchRequest): bool {
    if c.key in q.deactivateCategories then false
    else if c.key in q.activateCategories then true
    else c.active
  }

  /** The updates after upserting only touch flags, row by row. */
  lemma PatchSetsFlags(c: Catalog, p: PatchRequest)
    ensures var q := Normalized(p);
            var upserted := UpsertItems(c.items, Pairs(q.upserts));
            && |Patch(c, p).items| == |upserted|
            && forall i :: 0 <= i < |upserted| ==> Patch(c, p).items[i] == upserted[i].(active := ItemFlag(upserted[i], q))
    ensures var q := Normalized(p);
            var upserted := UpsertCategories(c.categories, Keys(q.upserts));
            && |Patch(c, p).categories| == |upserted|
            && forall i :: 0 <= i < |upserted| ==> Patch(c, p).categories[i] == upserted[i].(active := CategoryFlag(upserted[i], q))
  {
  }

  lemma {:induction false} PairCategoriesAreKeys(d: Payload, skill: string)
    requires Mentioned(Pairs(d), skill)
    ensures LastCategory(Pairs(d), skill) in Keys(d)
  {
    var init, category, skills := d[..|d| - 1], d[|d| - 1].0, d[|d| - 1].1;
    if Mentioned(Pairs(init), skill) {
      PairCategoriesAreKeys(init, skill);
    }
    LastCategoryConcat(Pairs(init), category, skills, skill);
  }

  lemma {:induction false} LastCategoryConcat(pairs: seq<(string, string)>, category: string, skills: seq<string>, skill: string)
    ensures Mentioned(pairs + PairsOf(category, skills), skill) ==>
              LastCategory(pairs + PairsOf(category, skills), skill) == category
              || (Mentioned(pairs, skill) && LastCategory(pairs + PairsOf(category, skills), skill) == LastCategory(pairs, skill))
  {
    if skills == [] {
      assert pairs + PairsOf(category, skills) == pairs;
    } else {
      var init, last := skills[..|skills| - 1], skills[|skills| - 1];
      var all := pairs + PairsOf(category, skills);
      assert all == (pairs + PairsOf(category, init)) + [(category, last)];
      assert all[..|all| - 1] == pairs + PairsOf(category, init);
      MentionedStep(all, skill);
      LastCategoryConcat(pairs, category, init, skill);
    }
  }

  /** patch_catalog keeps skill keys and category keys unique and every item's category present. */
  lemma PatchKeepsWellformed(c: Catalog, p: PatchRequest)
    requires Wellformed(c)
    ensures Wellformed(Patch(c, p))
  {
    var q := Normalized(p);
    var pairs, keys := Pairs(q.upserts), Keys(q.upserts);
    var items, categories := UpsertItems(c.items, pairs), UpsertCategories(c.categories, keys);
    PatchSetsFlags(c, p);
    UpsertKeepsSkillsDistinct(c.items, pairs);
    UpsertKeepsCategoriesDistinct(c.categories, keys);
    UpsertItemsRows(c.items, pairs);
    forall i | 0 <= i < |items|
      ensures HasCategory(Patch(c, p).categories, items[i].category)
    {
      if Mentioned(pairs, items[i].skill) {
        PairCategoriesAreKeys(q.upserts, items[i].skill);
      }
      UpsertedCategoriesExist(c.categories, keys, items[i].category);
      var k :| 0 <= k < |categories| && categories[k].key == items[i].category;
      assert Patch(c, p).categories[k].key == items[i].category;
    }
  }

  /** The final flag of every skill follows the precedence: deactivated skill, activated skill,
      deactivated category, activated category, upserted, and otherwise its old flag, where the
      category is the one the skill ends in. */
  lemma FlagsFollowPrecedence(c: Catalog, p: PatchRequest, i: nat)
    requires i < |Patch(c, p).items|
    ensures var q, item := Normalized(p), Patch(c, p).items[i];
            item.active ==
            if item.skill in q.deactivateSkills then false
            else if item.skill in q.activateSkills then true
            else if item.category in q.deactivateCategories then false
            else if item.category in q.activateCategories then true
            else if Mentioned(Pairs(q.upserts), item.skill) then true
            else i < |c.items| && c.items[i].skill == item.skill && c.items[i].active
    ensures var q, item := Normalized(p), Patch(c, p).items[i];
            item.category ==
            if Mentioned(Pairs(q.upserts), item.skill) then LastCategory(Pairs(q.upserts), item.skill)
            else if i < |c.items| then c.items[i].category else ""
  {
    PatchSetsFlags(c, p);
    UpsertItemsRows(c.items, Pairs(Normalized(p).upserts));
  }

  /** Sending the same patch twice is sending it once. */
  lemma PatchIdempotent(c: Catalog, p: PatchRequest)
    ensures Patch(Patch(c, p), p) == Patch(c, p)
  {
    PatchedItemsStable(c, p);
    PatchedCategoriesStable(c, p);
  }

  lemma PatchedSkillsExist(c: Catalog, p: PatchRequest)
    ensures forall skill :: Mentioned(Pairs(Normalized(p).upserts), skill) ==> HasSkill(Patch(c, p).items, skill)
  {
    var pairs := Pairs(Normalized(p).upserts);
    PatchSetsFlags(c, p);
    forall skill | Mentioned(pairs, skill)
      ensures HasSkill(Patch(c, p).items, skill)
    {
      UpsertedSkillsExist(c.items, pairs, skill);
      var i :| 0 <= i < |UpsertItems(c.items, pairs)| && UpsertItems(c.items, pairs)[i].skill == skill;
      assert Patch(c, p).items[i].skill == skill;
    }
  }

  lemma PatchedItemsStable(c: Catalog, p: PatchRequest)
    ensures Patch(Patch(c, p), p).items == Patch(c, p).items
  {
    var q := Normalized(p);
    var pairs := Pairs(q.upserts);
    var once, again := Patch(c, p), Patch(Patch(c, p), p);
    PatchSetsFlags(c, p);
    PatchSetsFlags(once, p);
    UpsertItemsRows(c.items, pairs);
    UpsertItemsRows(once.items, pairs);
    PatchedSkillsExist(c, p);
    UpsertOfKnownAddsNothing(once.items, pairs);
    forall i | 0 <= i < |once.items|
      ensures again.items[i] == once.items[i]
    {
      assert UpsertItems(c.items, pairs)[i] == Rewritten(UpsertItems(c.items, pairs)[i], pairs);
    }
  }

  lemma PatchedCategoriesStable(c: Catalog, p: PatchRequest)
    ensures Patch(Patch(c, p), p).categories == Patch(c, p).categories
  {
    var q := Normalized(p);
    var keys := Keys(q.upserts);
    var once, again := Patch(c, p), Patch(Patch(c, p), p);
    PatchSetsFlags(c, p);
    PatchSetsFlags(once, p);
    UpsertCategoriesRows(c.categories, keys);
    UpsertCategoriesRows(once.categories, keys);
    forall key | key in keys
      ensures HasCategory(once.categories, key)
    {
      UpsertedCategoriesExist(c.categories, keys, key);
      var i :| 0 <= i < |UpsertCategories(c.categories, keys)| && UpsertCategories(c.categories, keys)[i].key == key;
      assert once.categories[i].key == key;
    }
    UpsertOfKnownCategoriesAddsNothing(once.categories, keys);
    forall i | 0 <= i < |once.categories|
      ensures again.categories[i] == once.categories[i]
    {
      assert UpsertCategories(c.categories, keys)[i] == Revived(UpsertCategories(c.categories, keys)[i], keys);
    }
  }

  // ---- Replacing ----

  lemma {:induction false} FreshItemsMirror(category: string, skills: seq<string>)
    ensures |FreshItems(category, skills)| == |PairsOf(category, skills)| == |skills|
    ensures forall i :: 0 <= i < |skills| ==>
              var item := FreshItems(category, skills)[i];
              && (item.category, item.skill) == PairsOf(category, skills)[i] && item.active && item.category == category
              && item.categoryLabel == LabelFromKey(category) && item.skillLabel == LabelFromKey(item.skill) && item.sortOrder == i
  {
    if skills != [] {
      FreshItemsMirror(category, skills[..|skills| - 1]);
    }
  }

  /** A replaced catalog lists exactly the categories and the skills of the payload, in its order, all active. */
  lemma {:induction false} FreshCatalogMirrorsPayload(d: Payload)
    ensures var c := FreshCatalog(d);
            && |c.categories| == |Keys(d)| == |d| && |c.items| == |Pairs(d)|
            && (forall i :: 0 <= i < |d| ==> c.categories[i].key == Keys(d)[i] && c.categories[i].active && c.categories[i].sortOrder == i)
            && (forall i :: 0 <= i < |c.items| ==> (c.items[i].category, c.items[i].skill) == Pairs(d)[i] && c.items[i].active)
  {
    if d != [] {
      var init, category, skills := d[..|d| - 1], d[|d| - 1].0, d[|d| - 1].1;
      var before, added, c := FreshCatalog(init), FreshItems(category, skills), FreshCatalog(d);
      FreshCatalogMirrorsPayload(init);
      FreshItemsMirror(category, skills);
      assert c.items == before.items + added && Pairs(d) == Pairs(init) + PairsOf(category, skills);
      forall i | 0 <= i < |c.items|
        ensures (c.items[i].category, c.items[i].skill) == Pairs(d)[i] && c.items[i].active
      {
        assert c.items[i] == if i < |before.items| then before.items[i] else added[i - |before.items|];
      }
    }
  }

  lemma {:induction false} FreshItemsHaveCategories(d: Payload)
    ensures CategoriesPresent(FreshCatalog(d))
  {
    if d != [] {
      var before, c := FreshCatalog(d[..|d| - 1]), FreshCatalog(d);
      FreshItemsHaveCategories(d[..|d| - 1]);
      FreshItemsMirror(d[|d| - 1].0, d[|d| - 1].1);
      forall i | 0 <= i < |c.items|
        ensures HasCategory(c.categories, c.items[i].category)
      {
        if i < |before.items| {
          assert before.items[i] == c.items[i];
          assert HasCategory(before.categories, before.items[i].category);
          var k :| 0 <= k < |before.categories| && before.categories[k].key == before.items[i].category;
          assert c.categories[k].key == c.items[i].category;
        } else {
          assert c.categories[|before.categories|].key == c.items[i].category;
        }
      }
    }
  }

  ghost predicate DistinctKeys(d: Payload) {
    forall i, j :: 0 <= i < j < |d| ==> d[i].0 != d[j].0
  }

  lemma {:induction false} AssignKeepsKeysDistinct(d: Payload, key: string, value: seq<string>)
    requires DistinctKeys(d)
    ensures DistinctKeys(Assign(d, key, value))
    ensures forall i :: 0 <= i < |Assign(d, key, value)| ==>
              Assign(d, key, value)[i].0 == key || exists j :: 0 <= j < |d| && d[j].0 == Assign(d, key, value)[i].0
  {
    if d != [] && d[0].0 != key {
      var rest := d[1..];
      AssignKeepsKeysDistinct(rest, key, value);
      var updated := Assign(rest, key, value);
      forall i | 0 <= i < |updated|
        ensures updated[i].0 != d[0].0
        ensures updated[i].0 == key || exists j :: 0 <= j < |d| && d[j].0 == updated[i].0
      {
        if updated[i].0 != key {
          var j :| 0 <= j < |rest| && rest[j].0 == updated[i].0;
          assert d[j + 1].0 == updated[i].0;
        }
      }
    }
  }

  lemma {:induction false} NormalizedKeysAreDistinct(payload: Payload)
    ensures DistinctKeys(NormalizeCatalog(payload))
  {
    if payload != [] {
      var category, skills := payload[|payload| - 1].0, payload[|payload| - 1].1;
      NormalizedKeysAreDistinct(payload[..|payload| - 1]);
      AssignKeepsKeysDistinct(NormalizeCatalog(payload[..|payload| - 1]), Text.Normalize(category), NormalizeSkills(skills));
    }
  }

  lemma {:induction false} KeysAt(d: Payload)
    ensures |Keys(d)| == |d|
    ensures forall i :: 0 <= i < |d| ==> Keys(d)[i] == d[i].0
  {
    if d != [] {
      KeysAt(d[..|d| - 1]);
    }
  }

  /** The shape check is exactly what keeps a replaced catalog well formed. */
  lemma {:induction false} ShapeCheckIsExact(payload: Payload)
    ensures Wellformed(FreshCatalog(NormalizeCatalog(payload))) <==> DistinctSkills(Pairs(NormalizeCatalog(payload)))
  {
    var d := NormalizeCatalog(payload);
    NormalizedKeysAreDistinct(payload);
    KeysAt(d);
    FreshCatalogMirrorsPayload(d);
    FreshItemsHaveCategories(d);
    var c, pairs := FreshCatalog(d), Pairs(d);
    assert forall i :: 0 <= i < |pairs| ==> c.items[i].skill == pairs[i].1;
  }

  // ---- Which pairs of a payload survive normalization ----

  ghost predicate Lists(d: Payload, category: string, skill: string) {
    exists i :: 0 <= i < |d| && d[i].0 == category && skill in d[i].1
  }

  lemma ListsCons(head: (string, seq<string>), rest: Payload, category: string, skill: string)
    ensures Lists([head] + rest, category, skill) <==>
            (head.0 == category && skill in head.1) || Lists(rest, category, skill)
  {
    var d := [head] + rest;
    assert d[0] == head && forall i :: 0 <= i < |rest| ==> d[i + 1] == rest[i];
    if i :| 0 <= i < |d| && d[i].0 == category && skill in d[i].1 {
      assert i > 0 ==> d[i] == rest[i - 1];
    }
  }

  /** Assigning a key replaces what it listed, and no other key's. */
  lemma {:induction false} AssignReplaces(d: Payload, key: string, value: seq<string>, category: string, skill: string)
    requires DistinctKeys(d)
    ensures Lists(Assign(d, key, value), category, skill) <==>
            if category == key then skill in value else Lists(d, category, skill)
  {
    if d == [] {
      ListsCons((key, value), [], category, skill);
      assert [(key, value)] + [] == [(key, value)];
    } else {
      var head, rest := d[0], d[1..];
      assert d == [head] + rest;
      ListsCons(head, rest, category, skill);
      if head.0 == key {
        ListsCons((key, value), rest, category, skill);
      } else {
        AssignReplaces(rest, key, value, category, skill);
        ListsCons(head, Assign(rest, key, value), category, skill);
      }
    }
  }

  /** Some entry of the category names a skill at all. */
  predicate NamesSome(skills: seq<string>) {
    exists j :: 0 <= j < |skills| && Text.Normalize(skills[j]) != ""
  }

  lemma {:induction false} NamesSomeExactly(skills: seq<string>)
    ensures NormalizeSkills(skills) != [] <==> NamesSome(skills)
  {
    if NormalizeSkills(skills) != [] {
      var key := NormalizeSkills(skills)[0];
      NormalizedSkillsAreAll(skills, key);
    }
    if j :| 0 <= j < |skills| && Text.Normalize(skills[j]) != "" {
      NormalizedSkillsAreAll(skills, Text.Normalize(skills[j]));
    }
  }

  predicate ListsUnder(entry: (string, seq<string>), category: string) {
    Text.Normalize(entry.0) == category && NamesSome(entry.1)
  }

  /** Entry i is the last of the category that names a skill. */
  ghost predicate LastAt(payload: Payload, i: int, category: string) {
    0 <= i < |payload| && ListsUnder(payload[i], category) && forall k :: i < k < |payload| ==> !ListsUnder(payload[k], category)
  }

  ghost predicate LastNames(payload: Payload, category: string, skill: string) {
    exists i :: LastAt(payload, i, category) && Yields(payload[i].1, skill)
  }

  lemma LastAtStep(init: Payload, last: (string, seq<string>), category: string, i: int)
    ensures LastAt(init + [last], i, category) <==>
            if i == |init| then ListsUnder(last, category) else LastAt(init, i, category) && !ListsUnder(last, category)
  {
    var payload := init + [last];
    assert payload[|init|] == last && forall k :: 0 <= k < |init| ==> payload[k] == init[k];
  }

  lemma LastNamesStep(init: Payload, last: (string, seq<string>), category: string, skill: string)
    ensures LastNames(init + [last], category, skill) <==>
            if ListsUnder(last, category) then Yields(last.1, skill) else LastNames(init, category, skill)
  {
    var payload := init + [last];
    LastAtStep(init, last, category, |init|);
    if LastNames(payload, category, skill) {
      var i :| LastAt(payload, i, category) && Yields(payload[i].1, skill);
      LastAtStep(init, last, category, i);
    }
    if LastNames(init, category, skill) {
      var i :| LastAt(init, i, category) && Yields(init[i].1, skill);
      LastAtStep(init, last, category, i);
    }
  }

  /** A category lists a skill after normalization exactly when both keys are not blank and the last
      entry of the category that names any skill names this one: a later entry replaces an earlier. */
  lemma {:induction false} PairSurvivesExactly(payload: Payload, category: string, skill: string)
    requires category != "" && skill != ""
    ensures Lists(NormalizeCatalog(payload), category, skill) <==> LastNames(payload, category, skill)
  {
    if payload != [] {
      var init, last := payload[..|payload| - 1], payload[|payload| - 1];
      var done, key, skills := NormalizeCatalog(init), Text.Normalize(last.0), NormalizeSkills(last.1);
      assert payload == init + [last];
      PairSurvivesExactly(init, category, skill);
      LastNamesStep(init, last, category, skill);
      NormalizedKeysAreDistinct(init);
      NamesSomeExactly(last.1);
      NormalizedSkillsAreAll(last.1, skill);
      AssignReplaces(done, key, skills, category, skill);
    }
  }

  lemma {:induction false} NoBlankKeys(payload: Payload)
    ensures forall i :: 0 <= i < |NormalizeCatalog(payload)| ==>
              NormalizeCatalog(payload)[i].0 != "" && NormalizeCatalog(payload)[i].1 != [] && "" !in NormalizeCatalog(payload)[i].1
  {
    if payload != [] {
      var init, last := payload[..|payload| - 1], payload[|payload| - 1];
      NoBlankKeys(init);
      AssignKeepsUnblank(NormalizeCatalog(init), Text.Normalize(last.0), NormalizeSkills(last.1));
    }
  }

  lemma {:induction false} AssignKeepsUnblank(d: Payload, key: string, value: seq<string>)
    requires forall i :: 0 <= i < |d| ==> d[i].0 != "" && d[i].1 != [] && "" !in d[i].1
    ensures key != "" && value != [] && "" !in value ==>
              forall i :: 0 <= i < |Assign(d, key, value)| ==>
                Assign(d, key, value)[i].0 != "" && Assign(d, key, value)[i].1 != [] && "" !in Assign(d, key, value)[i].1
  {
    if d != [] && d[0].0 != key {
      AssignKeepsUnblank(d[1..], key, value);
    }
  }

  /** Skills keep the order of their first mention: what is made of the first ones comes first. */
  lemma {:induction false} NormalizeSkillsKeepsOrder(skills: seq<string>, i: nat)
    requires i <= |skills|
    ensures NormalizeSkills(skills[..i]) <= NormalizeSkills(skills)
  {
    if i < |skills| {
      var init := skills[..|skills| - 1];
      assert init[..i] == skills[..i];
      NormalizeSkillsKeepsOrder(init, i);
    } else {
      assert skills[..i] == skills;
    }
  }

  // ---- Categories, and what a patch lists ----

  /** The final flag of every category: deactivated, activated, upserted, and otherwise its old flag. */
  lemma CategoryFlagsFollowPrecedence(c: Catalog, p: PatchRequest, i: nat)
    requires i < |Patch(c, p).categories|
    ensures var q, category := Normalized(p), Patch(c, p).categories[i];
            category.active ==
            if category.key in q.deactivateCategories then false
            else if category.key in q.activateCategories then true
            else if category.key in Keys(q.upserts) then true
            else i < |c.categories| && c.categories[i].key == category.key && c.categories[i].active
  {
    PatchSetsFlags(c, p);
    UpsertedCategoryFlag(c.categories, Keys(Normalized(p).upserts), i);
  }

  lemma {:induction false} UpsertedCategoryFlag(categories: seq<Category>, keys: seq<string>, i: nat)
    requires i < |UpsertCategories(categories, keys)|
    ensures var category := UpsertCategories(categories, keys)[i];
            category.active == (category.key in keys
                                || (i < |categories| && categories[i].key == category.key && categories[i].active))
  {
    UpsertCategoriesRows(categories, keys);
  }

  /** A patch drops nothing and adds just the categories and skills it upserts. */
  lemma PatchListsExactly(c: Catalog, p: PatchRequest, skill: string, category: string)
    ensures HasSkill(Patch(c, p).items, skill) <==> HasSkill(c.items, skill) || Mentioned(Pairs(Normalized(p).upserts), skill)
    ensures HasCategory(Patch(c, p).categories, category)
            <==> HasCategory(c.categories, category) || category in Keys(Normalized(p).upserts)
  {
    var q := Normalized(p);
    PatchSetsFlags(c, p);
    SkillsAfterUpsert(c.items, Pairs(q.upserts), skill);
    SameSkills(Patch(c, p).items, UpsertItems(c.items, Pairs(q.upserts)), skill);
    CategoriesAfterUpsert(c.categories, Keys(q.upserts), category);
    SameCategories(Patch(c, p).categories, UpsertCategories(c.categories, Keys(q.upserts)), category);
  }

  lemma SameSkills(a: seq<Item>, b: seq<Item>, skill: string)
    requires |a| == |b| && forall i :: 0 <= i < |a| ==> a[i].skill == b[i].skill
    ensures HasSkill(a, skill) <==> HasSkill(b, skill)
  {
    if i :| 0 <= i < |a| && a[i].skill == skill {
      assert b[i].skill == skill;
    }
  }

  lemma SameCategories(a: seq<Category>, b: seq<Category>, key: string)
    requires |a| == |b| && forall i :: 0 <= i < |a| ==> a[i].key == b[i].key
    ensures HasCategory(a, key) <==> HasCategory(b, key)
  {
    if i :| 0 <= i < |a| && a[i].key == key {
      assert b[i].key == key;
    }
  }

  lemma {:induction false} SkillsAfterUpsert(items: seq<Item>, pairs: seq<(string, string)>, skill: string)
    ensures HasSkill(UpsertItems(items, pairs), skill) <==> HasSkill(items, skill) || Mentioned(pairs, skill)
  {
    UpsertItemsRows(items, pairs);
    if HasSkill(items, skill) || Mentioned(pairs, skill) {
      UpsertedSkillsExist(items, pairs, skill);
    } else if i :| 0 <= i < |UpsertItems(items, pairs)| && UpsertItems(items, pairs)[i].skill == skill {
      assert i < |items| ==> items[i].skill == skill;
    }
  }

  lemma {:induction false} CategoriesAfterUpsert(categories: seq<Category>, keys: seq<string>, key: string)
    ensures HasCategory(UpsertCategories(categories, keys), key) <==> HasCategory(categories, key) || key in keys
  {
    UpsertCategoriesRows(categories, keys);
    if HasCategory(categories, key) || key in keys {
      UpsertedCategoriesExist(categories, keys, key);
    } else if i :| 0 <= i < |UpsertCategories(categories, keys)| && UpsertCategories(categories, keys)[i].key == key {
      assert i < |categories| ==> categories[i].key == key;
    }
  }

  /** New categories come last and are numbered by their place. */
  lemma {:induction false} NewCategoriesAreNumbered(categories: seq<Category>, keys: seq<string>, i: nat)
    requires |categories| <= i < |UpsertCategories(categories, keys)|
    ensures UpsertCategories(categories, keys)[i].sortOrder == i
    ensures UpsertCategories(categories, keys)[i].name == LabelFromKey(UpsertCategories(categories, keys)[i].key)
            || UpsertCategories(categories, keys)[i].name == ""
  {
    if keys != [] {
      var before := UpsertCategories(categories, keys[..|keys| - 1]);
      if i < |before| {
        NewCategoriesAreNumbered(categories, keys[..|keys| - 1], i);
      }
    }
  }

  function ItemsIn(items: seq<Item>, category: string): set<int> {
    set i | 0 <= i < |items| && items[i].category == category
  }

  lemma {:induction false} CountInCounts(items: seq<Item>, category: string)
    ensures CountIn(items, category) == |ItemsIn(items, category)|
  {
    if items != [] {
      var init, last := items[..|items| - 1], |items| - 1;
      CountInCounts(init, category);
      assert ItemsIn(items, category) == ItemsIn(init, category) + if items[last].category == category then {last} else {};
    }
  }

  /** A new skill comes last and is numbered by how many its category has already. */
  lemma NewSkillIsNumbered(items: seq<Item>, category: string, skill: string)
    requires !HasSkill(items, skill)
    ensures UpsertItem(items, category, skill) ==
            items + [Item(category, skill, LabelFromKey(category), LabelFromKey(skill), true, |ItemsIn(items, category)|)]
  {
    CountInCounts(items, category);
  }

  /** Existing rows keep their keys and numbers. An upserted skill is relabeled, and a category only if it
      had no label. */
  lemma PatchRelabels(c: Catalog, p: PatchRequest, i: nat)
    ensures i < |c.items| ==>
              && i < |Patch(c, p).items|
              && var was, item := c.items[i], Patch(c, p).items[i];
              && item.skill == was.skill && item.sortOrder == was.sortOrder
              && if Mentioned(Pairs(Normalized(p).upserts), was.skill)
                 then item.categoryLabel == LabelFromKey(item.category) && item.skillLabel == LabelFromKey(item.skill)
                 else item.categoryLabel == was.categoryLabel && item.skillLabel == was.skillLabel && item.category == was.category
    ensures i < |c.categories| ==>
              && i < |Patch(c, p).categories|
              && var was, category := c.categories[i], Patch(c, p).categories[i];
              && category.key == was.key && category.sortOrder == was.sortOrder
              && category.name == if was.name == "" && was.key in Keys(Normalized(p).upserts) then LabelFromKey(was.key) else was.name
  {
    PatchSetsFlags(c, p);
    UpsertItemsRows(c.items, Pairs(Normalized(p).upserts));
    UpsertCategoriesRows(c.categories, Keys(Normalized(p).upserts));
  }

  // ---- Labels ----

  /** In a label an underscore is a blank, and a letter is upper case exactly when it follows no letter. */
  lemma {:induction false} TitleAt(s: string, afterLetter: bool, i: nat)
    requires i < |s|
    ensures |Title(s, afterLetter)| == |s|
    ensures Title(s, afterLetter)[i] ==
            if (if i == 0 then afterLetter else IsLetter(s[i - 1])) then Text.LowerChar(s[i]) else UpperChar(s[i])
  {
    if i > 0 {
      TitleAt(s[1..], IsLetter(s[0]), i - 1);
    } else if |s| > 1 {
      TitleAt(s[1..], IsLetter(s[0]), 0);
    }
  }

  lemma {:induction false} SpacedAt(key: string, i: nat)
    requires i < |key|
    ensures |Spaced(key)| == |key| && Spaced(key)[i] == if key[i] == '_' then ' ' else key[i]
  {
    if i > 0 {
      SpacedAt(key[1..], i - 1);
    } else if |key| > 1 {
      SpacedAt(key[1..], 0);
    }
  }

  /** The label of a key of words: each word is capitalized. */
  lemma LabelOfKey(key: string, i: nat)
    requires i < |key| && key[0] != '_' && key[|key| - 1] != '_' && forall k :: 0 <= k < |key| ==> !Text.IsSpace(key[k])
    ensures |LabelFromKey(key)| == |key|
    ensures LabelFromKey(key)[i] ==
            if key[i] == '_' then ' '
            else if i > 0 && IsLetter(key[i - 1]) then Text.LowerChar(key[i]) else UpperChar(key[i])
  {
    SpacedAt(key, 0);
    SpacedAt(key, i);
    SpacedAt(key, |key| - 1);
    if i > 0 {
      SpacedAt(key, i - 1);
    }
    Text.StripOfTrimmed(Spaced(key));
    TitleAt(Spaced(key), false, i);
  }
}
