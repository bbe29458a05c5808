/**
 * The skills editor: categories of skills with a selected category and the text of
 * the skill being typed. Category and skill edits are written back through the
 * store's `updateSection` with a content-only patch.
 */
module SkillsForm {
  import opened Common
  import opened ResumeTypes
  import opened ItemLists
  import opened ResumeStore
  import opened Text

  function CategoryId(c: SkillCategory): string { c.id }

  /** The name `addCategory` gives a new category. */
  const NewCategoryName: string := "New Category"

  /**
   * The section's categories next to the form's own state: the selected category id
   * (`''` for none) and the text of the skill being typed.
   */
  datatype SkillsEditor = SkillsEditor(categories: seq<SkillCategory>, active: string, newSkill: string)

  /** The editor as it opens: the first category selected, or `''`, and no skill typed. */
  function OpenEditor(categories: seq<SkillCategory>): (r: SkillsEditor)
    ensures r.categories == categories && r.newSkill == ""
    ensures |categories| == 0 ==> r.active == ""
    ensures |categories| > 0 ==> r.active == categories[0].id && HasId(categories, CategoryId, r.active)
  {
    SkillsEditor(categories, FirstId(categories, CategoryId).GetOr(""), "")
  }

  /** `addCategory`: append an empty "New Category" with the fresh id and select it. */
  function AddCategory(st: ResumeState, sectionId: string, ed: SkillsEditor, newId: string): (r: (ResumeState, SkillsEditor))
    requires !HasId(ed.categories, CategoryId, newId)
    ensures r.1.categories == ed.categories + [SkillCategory(newId, NewCategoryName, [])]
    ensures r.1.active == newId && HasId(r.1.categories, CategoryId, r.1.active)
    ensures r.1.newSkill == ed.newSkill
    ensures Distinct(ed.categories, CategoryId) ==> Distinct(r.1.categories, CategoryId)
    ensures ContentReplaced(st, r.0, sectionId, SkillsContent(r.1.categories))
  {
    var blank := SkillCategory(newId, NewCategoryName, []);
    var categories := ed.categories + [blank];
    assert categories[|ed.categories|] == blank;
    (UpdateSection(st, sectionId, ContentPatch(SkillsContent(categories))), ed.(categories := categories, active := newId))
  }

  /** `updateCategory`: rename the categories with that id; their skills and every other category stay. */
  function UpdateCategory(st: ResumeState, sectionId: string, ed: SkillsEditor, id: string, name: string)
    : (r: (ResumeState, SkillsEditor))
    ensures |r.1.categories| == |ed.categories|
    ensures forall i :: 0 <= i < |ed.categories| && ed.categories[i].id != id ==> r.1.categories[i] == ed.categories[i]
    ensures forall i :: 0 <= i < |ed.categories| && ed.categories[i].id == id ==>
      r.1.categories[i].name == name && r.1.categories[i].(name := ed.categories[i].name) == ed.categories[i]
    ensures r.1.active == ed.active && r.1.newSkill == ed.newSkill
    ensures ContentReplaced(st, r.0, sectionId, SkillsContent(r.1.categories))
  {
    var categories := UpdateWhere(ed.categories, CategoryId, id, (c: SkillCategory) => c.(name := name));
    (UpdateSection(st, sectionId, ContentPatch(SkillsContent(categories))), ed.(categories := categories))
  }

  /**
   * `removeCategory`: drop the categories with that id. The selection moves to the
   * first remaining category only when the selected one was removed and some remain;
   * otherwise it is kept, even when it now names nothing.
   */
  function RemoveCategory(st: ResumeState, sectionId: string, ed: SkillsEditor, id: string): (r: (ResumeState, SkillsEditor))
    ensures r.1.categories == RemoveWhere(ed.categories, CategoryId, id)
    ensures !HasId(r.1.categories, CategoryId, id)
    ensures ed.active == id && |r.1.categories| > 0 ==> r.1.active == r.1.categories[0].id
    ensures ed.active == id && |r.1.categories| == 0 ==> r.1.active == id
    ensures ed.active != id ==> r.1.active == ed.active
    ensures r.1.newSkill == ed.newSkill
    ensures ContentReplaced(st, r.0, sectionId, SkillsContent(r.1.categories))
  {
    var categories := RemoveWhere(ed.categories, CategoryId, id);
    var active := if ed.active == id && |categories| > 0 then categories[0].id else ed.active;
    (UpdateSection(st, sectionId, ContentPatch(SkillsContent(categories))), ed.(categories := categories, active := active))
  }

  /** The remove-category button is disabled while there is at most one category. */
  predicate RemoveCategoryDisabled(ed: SkillsEditor) {
    |ed.categories| <= 1
  }

  /**
   * Through the button, removal never leaves the selection dangling: with unique ids
   * and the button enabled, a selected category that existed still names one after.
   */
  lemma EnabledRemoveKeepsSelection(st: ResumeState, sectionId: string, ed: SkillsEditor, id: string)
    requires Distinct(ed.categories, CategoryId) && !RemoveCategoryDisabled(ed)
    requires HasId(ed.categories, CategoryId, ed.active)
    ensures var r := RemoveCategory(st, sectionId, ed, id).1; HasId(r.categories, CategoryId, r.active)
  {
    var remaining := RemoveWhere(ed.categories, CategoryId, id);
    if HasId(ed.categories, CategoryId, id) {
      var k :| 0 <= k < |ed.categories| && CategoryId(ed.categories[k]) == id;
      RemoveWhereAt(ed.categories, CategoryId, k);
      assert |remaining| == |ed.categories| - 1;
    } else {
      RemoveWhereMissing(ed.categories, CategoryId, id);
    }
    RemoveWhereKeepsOtherIds(ed.categories, CategoryId, id, ed.active);
  }

  /** Without the button's guard, removing the only category leaves the selection on a removed id. */
  lemma RemovingOnlyCategoryDangles(st: ResumeState, sectionId: string, c: SkillCategory)
    ensures var r := RemoveCategory(st, sectionId, SkillsEditor([c], c.id, ""), c.id).1;
      r.categories == [] && r.active == c.id && !HasId(r.categories, CategoryId, r.active)
  {
    assert RemoveWhere([c], CategoryId, c.id) == [] + RemoveWhere([c][1..], CategoryId, c.id);
  }

  /**
   * `addSkill`: a typed skill that is blank after trimming changes nothing; otherwise
   * the trimmed skill is appended to the categories with that id and the input cleared.
   */
  function AddSkill(st: ResumeState, sectionId: string, ed: SkillsEditor, categoryId: string): (r: (ResumeState, SkillsEditor))
    ensures Trim(ed.newSkill) == "" ==> r == (st, ed)
    ensures Trim(ed.newSkill) != "" ==> SkillAdded(st, sectionId, ed, categoryId, Trim(ed.newSkill), r)
  {
    var skill := Trim(ed.newSkill);
    if skill == "" then (st, ed) else AddTrimmed(st, sectionId, ed, categoryId, skill)
  }

  /** The non-blank branch of `addSkill`, once the skill has been trimmed. */
  function AddTrimmed(st: ResumeState, sectionId: string, ed: SkillsEditor, categoryId: string, skill: string): (r: (ResumeState, SkillsEditor))
    ensures SkillAdded(st, sectionId, ed, categoryId, skill, r)
  {
    var categories := AppendSkill(ed.categories, categoryId, skill);
    (UpdateSection(st, sectionId, ContentPatch(SkillsContent(categories))), ed.(categories := categories, newSkill := ""))
  }

  /**
   * The input is cleared, `skill` is appended to the categories with that id, the
   * others stay, and the section's content becomes the new categories.
   */
  predicate SkillAdded(st: ResumeState, sectionId: string, ed: SkillsEditor, categoryId: string, skill: string, r: (ResumeState, SkillsEditor)) {
    && r.1.newSkill == "" && r.1.active == ed.active
    && |r.1.categories| == |ed.categories|
    && (forall i :: 0 <= i < |ed.categories| && ed.categories[i].id != categoryId ==>
          r.1.categories[i] == ed.categories[i])
    && (forall i :: 0 <= i < |ed.categories| && ed.categories[i].id == categoryId ==>
          r.1.categories[i] == ed.categories[i].(skills := ed.categories[i].skills + [skill]))
    && ContentReplaced(st, r.0, sectionId, SkillsContent(r.1.categories))
  }

  /** `[...cat.skills, skill]` in the categories with that id; the others stay. */
  function AppendSkill(categories: seq<SkillCategory>, categoryId: string, skill: string): (r: seq<SkillCategory>)
    ensures |r| == |categories|
    ensures forall i :: 0 <= i < |categories| && categories[i].id != categoryId ==> r[i] == categories[i]
    ensures forall i :: 0 <= i < |categories| && categories[i].id == categoryId ==>
      r[i] == categories[i].(skills := categories[i].skills + [skill])
  {
    UpdateWhere(categories, CategoryId, categoryId, (c: SkillCategory) => c.(skills := c.skills + [skill]))
  }

  /**
   * `skills.filter((_, i) => i !== index)`: the list without the element at `index`,
   * and the whole list when `index` is out of range.
   */
  function DropIndex(skills: seq<string>, index: int): (r: seq<string>)
    ensures 0 <= index < |skills| ==> |r| == |skills| - 1
    ensures 0 <= index < |skills| ==> forall j :: 0 <= j < index ==> r[j] == skills[j]
    ensures 0 <= index < |skills| ==> forall j :: index <= j < |r| ==> r[j] == skills[j + 1]
    ensures !(0 <= index < |skills|) ==> r == skills
    decreases |skills|
  {
    if |skills| == 0 then []
    else (if index == 0 then [] else [skills[0]]) + DropIndex(skills[1..], index - 1)
  }

  /** `removeSkill`: drop the skill at `index` from the categories with that id. */
  function RemoveSkill(st: ResumeState, sectionId: string, ed: SkillsEditor, categoryId: string, index: int)
    : (r: (ResumeState, SkillsEditor))
    ensures |r.1.categories| == |ed.categories|
    ensures forall i :: 0 <= i < |ed.categories| && ed.categories[i].id != categoryId ==>
      r.1.categories[i] == ed.categories[i]
    ensures forall i :: 0 <= i < |ed.categories| && ed.categories[i].id == categoryId ==>
      r.1.categories[i] == ed.categories[i].(skills := DropIndex(ed.categories[i].skills, index))
    ensures r.1.active == ed.active && r.1.newSkill == ed.newSkill
    ensures ContentReplaced(st, r.0, sectionId, SkillsContent(r.1.categories))
  {
    var categories := UpdateWhere(ed.categories, CategoryId, categoryId,
      (c: SkillCategory) => c.(skills := DropIndex(c.skills, index)));
    (UpdateSection(st, sectionId, ContentPatch(SkillsContent(categories))), ed.(categories := categories))
  }

  /**
   * Removing the skill just added, at the end of its category, restores the store and
   * the categories; only the typed text has been consumed.
   */
  lemma AddThenRemoveSkill(st: ResumeState, sectionId: string, ed: SkillsEditor, k: nat)
    requires Distinct(ed.categories, CategoryId) && k < |ed.categories|
    requires Trim(ed.newSkill) != ""
    requires forall i :: 0 <= i < |st.sections| && st.sections[i].id == sectionId ==>
      st.sections[i].content == SkillsContent(ed.categories)
    ensures var id := ed.categories[k].id;
      var added := AddSkill(st, sectionId, ed, id);
      var removed := RemoveSkill(added.0, sectionId, added.1, id, |ed.categories[k].skills|);
      removed.0 == st && removed.1 == ed.(newSkill := "")
  {
    AddTrimmedThenRemove(st, sectionId, ed, k, Trim(ed.newSkill));
  }

  lemma AddTrimmedThenRemove(st: ResumeState, sectionId: string, ed: SkillsEditor, k: nat, skill: string)
    requires Distinct(ed.categories, CategoryId) && k < |ed.categories|
    requires forall i :: 0 <= i < |st.sections| && st.sections[i].id == sectionId ==>
      st.sections[i].content == SkillsContent(ed.categories)
    ensures var id := ed.categories[k].id;
      var added := AddTrimmed(st, sectionId, ed, id, skill);
      var removed := RemoveSkill(added.0, sectionId, added.1, id, |ed.categories[k].skills|);
      removed.0 == st && removed.1 == ed.(newSkill := "")
  {
    var id := ed.categories[k].id;
    var added := AddTrimmed(st, sectionId, ed, id, skill);
    var removed := RemoveSkill(added.0, sectionId, added.1, id, |ed.categories[k].skills|);
    forall i | 0 <= i < |ed.categories| ensures removed.1.categories[i] == ed.categories[i] {
      if i != k {
        assert CategoryId(ed.categories[i]) != CategoryId(ed.categories[k]);
      } else {
        var s := ed.categories[k].skills;
        assert DropIndex(s + [skill], |s|) == s;
      }
    }
    assert removed.1.categories == ed.categories;
    ReplaceBack(st, added.0, removed.0, sectionId, SkillsContent(added.1.categories), SkillsContent(ed.categories));
  }

  /** A skill as the add button stores it: non-blank and trimmed. */
  predicate CleanSkill(s: string) {
    s != "" && Trimmed(s)
  }

  predicate CleanSkills(categories: seq<SkillCategory>) {
    forall i, j :: 0 <= i < |categories| && 0 <= j < |categories[i].skills| ==> CleanSkill(categories[i].skills[j])
  }

  /** Skills entered through the form stay clean: adding and removing keep every skill non-blank and trimmed. */
  lemma SkillEditsKeepClean(st: ResumeState, sectionId: string, ed: SkillsEditor, categoryId: string, index: int)
    requires CleanSkills(ed.categories)
    ensures CleanSkills(AddSkill(st, sectionId, ed, categoryId).1.categories)
    ensures CleanSkills(RemoveSkill(st, sectionId, ed, categoryId, index).1.categories)
  {
    var added := AddSkill(st, sectionId, ed, categoryId).1.categories;
    forall i, j | 0 <= i < |added| && 0 <= j < |added[i].skills| ensures CleanSkill(added[i].skills[j]) {
      if Trim(ed.newSkill) != "" && ed.categories[i].id == categoryId && j == |ed.categories[i].skills| {
        assert added[i].skills[j] == Trim(ed.newSkill);
      } else {
        assert added[i].skills[j] == ed.categories[i].skills[j];
      }
    }
    var removed := RemoveSkill(st, sectionId, ed, categoryId, index).1.categories;
    forall i, j | 0 <= i < |removed| && 0 <= j < |removed[i].skills| ensures CleanSkill(removed[i].skills[j]) {
      var s := ed.categories[i].skills;
      if ed.categories[i].id == categoryId && 0 <= index < |s| && index <= j {
        assert removed[i].skills[j] == s[j + 1];
      } else {
        assert removed[i].skills[j] == s[j];
      }
    }
  }
}
