# ResumAI resume builder: a Dafny model of the store and the editors

ResumAI keeps one resume document in a client-side store: a list of sections
(contact, summary, work experience, education, skills, plus projects and custom
sections that nothing renders), each with an id, a type, a title, a numeric
`order` and a typed payload. The store also holds the selected section, the
template and the resume's name. Eight store actions change the document. The
editor panel sorts the sections by `order` to show them, moves them with up and
down arrows, and deletes them. A form per section type edits the payload. The
live preview renders the sections sorted by `order`.

This project models all of that as immutable Dafny datatypes and pure functions:

- `ResumeTypes` holds the document.
- `ResumeStore` holds the eight actions.
- `SectionSort` holds the stable sort that `Array.prototype.sort` performs.
- `ResumeForm` holds the section list's guards and buttons.
- `ExperienceForm`, `EducationForm`, `SkillsForm`, `ContactForm` and
  `SummaryForm` hold the editors.
- `ResumePreview` holds what the page shows.
- `MoveFacts` proves what `moveSection` does to the visible order.
- `Reorder` is the corrected reordering operation (see "Findings").
- `ItemLists` and `Text` hold the list and string helpers: `filter`, `map`,
  `find`, `trim`, `split` and `join`.

Each editor keeps its local UI state (the entry being edited, the selected
category, the skill being typed) next to the section's payload. Each edit is
written back through `updateSection` with a content-only patch; the predicate
`ResumeStore.ContentReplaced` captures such a patch. A freshly generated id
(`Date.now().toString()` in the source) is a parameter, with the precondition
that no entry already carries it. Whether an API key is stored and what the text
generator answered are parameters too.

Two behaviours of the code worth knowing:

- The store's `removeSection` removes the contact section like any other. Only
  the editor panel's delete handler refuses it (`ResumeStore.StoreRemovesContact`,
  `ResumeForm.HandleDelete`).
- `moveSection` does not keep the orders equal to 0..N-1
  (`MoveFacts.MoveUpLeavesGap`).

## Model

| member | source | states |
|---|---|---|
| ResumeTypes.MergeIdempotent | src/store/useResumeStore.ts:189-194 | Spreading the same partial update over a section twice gives the same section as once. |
| ResumeStore.InitialStateFacts | src/store/useResumeStore.ts:115-177 | The fresh document has contact, summary, experience, education and skills, with orders 0..4. It is consistent, contact is selected, the template is modern and the name is "My Resume". |
| ResumeStore.AddSection | src/store/useResumeStore.ts:184-187 | The result holds the old sections plus the new one, sorted by order. Selection, template and name are unchanged. |
| ResumeStore.AddSectionKeepsConsistent | src/store/useResumeStore.ts:184-187 | Adding a well-typed section with a fresh id and an unused order keeps ids unique, orders unique, storage sorted and payloads typed. |
| ResumeStore.UpdateSection | src/store/useResumeStore.ts:189-194 | Sections with the id get the patch merged in. Every other section, and every other field of the state, stays. |
| ResumeStore.UpdateSectionUnknownId | src/store/useResumeStore.ts:189-194 | Updating an id that no section carries leaves the state unchanged. |
| ResumeStore.UpdateSectionIdempotent | src/store/useResumeStore.ts:189-194 | Applying the same update twice equals applying it once. A patch that renames the section leaves nothing under the old id for the second update. |
| ResumeStore.ContentUpdateKeepsConsistent | src/store/useResumeStore.ts:189-194 | A content patch of the section's own type keeps a consistent document consistent, with the same ids and orders. |
| ResumeStore.ContentPatchReplaces | src/store/useResumeStore.ts:189-194 | A content-only patch replaces that section's payload and nothing else. |
| ResumeStore.ReplaceBack | src/store/useResumeStore.ts:189-194 | Writing a payload and then writing back the old one restores the state exactly. |
| ResumeStore.RemoveSection | src/store/useResumeStore.ts:196-200 | Exactly the sections without the id remain. The selection is cleared only when it named the removed section. |
| ResumeStore.RemoveSectionAt | src/store/useResumeStore.ts:196-200 | With unique ids, removal cuts out exactly the one section at its position. |
| ResumeStore.RemoveSectionKeepsConsistent | src/store/useResumeStore.ts:196-200 | Removing a section keeps a consistent document consistent. |
| ResumeStore.StoreRemovesContact | src/store/useResumeStore.ts:196-200 | The store itself removes the contact section and clears the selection. |
| ResumeStore.SettersAreIndependent | src/store/useResumeStore.ts:202-243 | setActiveSection, setTemplate and setResumeName each write their own field and nothing else, and they commute pairwise. |
| ResumeStore.ResetStoreRestoresInitial | src/store/useResumeStore.ts:245-248 | Reset yields the fresh document from any state, and that document is consistent. |
| ResumeStore.Bumped | src/store/useResumeStore.ts:219-223 | A bumped section keeps its id, type, title and payload. Its order is never the new order and stays on the same side of it. |
| ResumeStore.BumpedMonotone | src/store/useResumeStore.ts:219-223 | Bumping keeps strict order and equality of orders between two sections. |
| ResumeStore.MovedInPlace | src/store/useResumeStore.ts:213-223 | The moved section gets the new order, every other section is bumped, and ids and payloads stay in place. |
| ResumeStore.MoveSection | src/store/useResumeStore.ts:207-233 | An unknown id changes nothing. Otherwise the result is sorted and is a permutation of the moved-and-bumped sections. Selection, template and name stay. |
| MoveFacts.MoveKeepsOrdersDistinct | src/store/useResumeStore.ts:207-233 | moveSection keeps distinct orders distinct, and the moved section is the only one holding the new order. |
| MoveFacts.MoveKeepsIds | src/store/useResumeStore.ts:207-233 | moveSection keeps the same ids, as many times each. |
| MoveFacts.MoveKeepsConsistent | src/store/useResumeStore.ts:207-233 | moveSection keeps a consistent document consistent. |
| MoveFacts.MoveVisualOrder | src/store/useResumeStore.ts:207-233 | With orders 0..N-1, the new visible order is the old one with the moved id taken out of position k and re-inserted at the landing index. |
| MoveFacts.MoveDownKeepsVisualOrder | src/store/useResumeStore.ts:213-229 | Moving from order k to k+1, as the down arrow does, leaves the visible order of ids unchanged. |
| MoveFacts.MoveDownShiftsOrders | src/store/useResumeStore.ts:213-229 | The down move instead adds one to the order of the moved section and of every section after it. |
| MoveFacts.MoveUpSwaps | src/store/useResumeStore.ts:213-229 | Moving from order k to k-1, as the up arrow does, swaps the section with the one shown above it. |
| MoveFacts.MoveUpLeavesGap | src/store/useResumeStore.ts:213-229 | Moving up from any order but the last leaves the last section with order N, so the orders are no longer 0..N-1. |
| MoveFacts.MoveUpEndsAtLastOrder | src/store/useResumeStore.ts:213-229 | Moving up from an order below N-2 leaves the second-to-last stored section with order N-1. |
| MoveFacts.FreshDocumentMoveExample | src/store/useResumeStore.ts:207-233 | On the fresh document, giving Education order 1 shows it second, with orders 0, 1, 2, 3, 5. |
| SectionSort.SortByOrder | src/components/resume/ResumeForm.tsx:20 | The copy sorted by order is sorted, is a permutation of the input and has the same length. |
| SectionSort.SortIsStable | src/components/resume/ResumeForm.tsx:20 | Sections that share an order keep their relative order, as the stable `Array.prototype.sort` requires. |
| SectionSort.SortIsTheStableSort | src/components/resume/ResumePreview.tsx:15 | Any sorted list with the same order classes equals the model's sort, so any stable sort gives the same result. |
| SectionSort.SortOfSorted | src/components/resume/ResumeForm.tsx:20 | Sorting an already sorted list leaves it unchanged. |
| ResumeForm.SortedSections | src/components/resume/ResumeForm.tsx:20 | The displayed list is sorted, is a permutation of the store's sections, and is stable per order. |
| ResumeForm.SortedSectionsOfConsistent | src/components/resume/ResumeForm.tsx:20 | For a consistent document, the displayed list is the stored list. |
| ResumeForm.FindSection | src/components/resume/ResumeForm.tsx:23 | `find` returns nothing exactly when no section has the id, and otherwise the first match. |
| ResumeForm.HandleMoveUp | src/components/resume/ResumeForm.tsx:22-31 | A move happens exactly when the section exists and its order is above 0, and then it targets order - 1. |
| ResumeForm.HandleMoveDown | src/components/resume/ResumeForm.tsx:33-42 | A move happens exactly when the section exists and its order is below N-1, and then it targets order + 1. |
| ResumeForm.HandleDelete | src/components/resume/ResumeForm.tsx:44-59 | Contact and unknown ids are refused and the state is unchanged. Any other id is removed and its title reported. Contact always survives. |
| ResumeForm.UpButtonMatchesGuard | src/components/resume/ResumeForm.tsx:151 | For a displayed section with order >= 0, the up arrow is enabled exactly when its handler would move. |
| ResumeForm.DownButtonMatchesGuard | src/components/resume/ResumeForm.tsx:160 | For a displayed section with order < N, the down arrow is enabled exactly when its handler would move. |
| ResumeForm.DeleteButtonMatchesGuard | src/components/resume/ResumeForm.tsx:169 | The delete button is enabled exactly when the handler would remove the section. |
| ResumeForm.MoveIsNotIdentity | src/store/useResumeStore.ts:207-233 | Giving a section a different order always changes the stored state. |
| ResumeForm.LastSectionStuck | src/components/resume/ResumeForm.tsx:33-42 | When the last section has order N, its down arrow is enabled but the handler does nothing. |
| ResumeForm.DeadDownButton | src/components/resume/ResumeForm.tsx:22-42 | After one up-arrow press on a middle section, the last section's down arrow is enabled and dead. |
| ResumeForm.DisabledDownAboveLast | src/components/resume/ResumeForm.tsx:160 | After one up-arrow press on a section at order 1..N-3, the section shown second to last has its down arrow disabled, although a section is still shown below it. |
| ResumeForm.SelectedForm | src/components/resume/ResumeForm.tsx:63-88 | No selection or an unknown id shows the prompt. Projects and custom sections show the unsupported notice. Otherwise the form for the selected section is shown, and its editor matches the section's type. |
| ResumeForm.SelectingOpensEditor | src/components/resume/ResumeForm.tsx:113 | Clicking a listed contact, summary, experience, education or skills section opens the editor for that same section, of its own type. |
| ItemLists.FirstId | src/components/resume/forms/ExperienceForm.tsx:20-22 | The first entry's id, or none exactly when the list is empty. |
| ItemLists.AppendActive | src/components/resume/forms/ExperienceForm.tsx:26-45 | The entry is appended, the rest is kept, the new entry becomes active, and unique ids stay unique. |
| ItemLists.RemoveActive | src/components/resume/forms/ExperienceForm.tsx:59-71 | Exactly the other entries remain. A removed active entry falls back to the first remaining one or to none, and a valid cursor stays valid. |
| ItemLists.AppendThenRemove | src/components/resume/forms/ExperienceForm.tsx:26-71 | Removing the entry just appended gives back the list, with the cursor on its first entry. |
| ItemLists.ActiveEntry | src/components/resume/forms/ExperienceForm.tsx:126-128 | An entry is edited exactly when the cursor is a non-empty id that some entry carries, and then it is that entry. |
| ItemLists.UpdateWhere | src/components/resume/forms/ExperienceForm.tsx:47-57 | `map` applies the change to the entries with the id and keeps every other entry in place. |
| ItemLists.RemoveWhere | src/components/resume/forms/ExperienceForm.tsx:59-60 | `filter` drops every entry with the id and shortens the list by at most that many. |
| ExperienceForm.InitialActive | src/components/resume/forms/ExperienceForm.tsx:20-22 | The editor opens on the first entry, or on none exactly when there is none. |
| ExperienceForm.CurrentPatch | src/components/resume/forms/ExperienceForm.tsx:218-222 | Checking the box sets current and clears the end date. Unchecking keeps the end date. Nothing else changes. |
| ExperienceForm.CheckThenUncheck | src/components/resume/forms/ExperienceForm.tsx:218-222 | Checking then unchecking loses the end date, and restores the entry only when it had none and was not current. |
| ExperienceForm.DescriptionPatch | src/components/resume/forms/ExperienceForm.tsx:108 | The generated text replaces the description and nothing else. |
| ExperienceForm.AddExperience | src/components/resume/forms/ExperienceForm.tsx:26-45 | A blank entry with the fresh id is appended and made active, and the payload is written back. |
| ExperienceForm.UpdateExperience | src/components/resume/forms/ExperienceForm.tsx:47-57 | The patch is merged into the entries with the id, the others are kept, and the ids stay when the patch has none. |
| ExperienceForm.UpdateUnknownEntry | src/components/resume/forms/ExperienceForm.tsx:47-57 | Patching an id no entry carries writes back the same list. |
| ExperienceForm.UpdateExperienceIdempotent | src/components/resume/forms/ExperienceForm.tsx:47-57 | Applying the same patch twice equals applying it once. |
| ExperienceForm.RemoveExperience | src/components/resume/forms/ExperienceForm.tsx:59-71 | The entries with the id are dropped, and the cursor falls back to the first remaining entry only when it pointed at the removed one. |
| ExperienceForm.AddThenRemoveRestores | src/components/resume/forms/ExperienceForm.tsx:26-71 | Removing the entry just added restores the store exactly. |
| ExperienceForm.DescriptionGate | src/components/resume/forms/ExperienceForm.tsx:73-95 | An unknown id is ignored silently. A missing key is refused first, then a missing position or company. Otherwise the request carries the position and the company. |
| ExperienceForm.GenerateDescription | src/components/resume/forms/ExperienceForm.tsx:73-124 | The store changes only when both guards pass and the reply is a text, and then only that entry's description changes. Failures report the error message. |
| ExperienceForm.GeneratedDescriptionOnly | src/components/resume/forms/ExperienceForm.tsx:106-110 | A generated description touches only the description of the entries with that id. |
| ExperienceForm.ExperienceEditKeepsConsistent | src/components/resume/forms/ExperienceForm.tsx:47-57 | Writing an experience payload into an experience section keeps the document consistent. |
| EducationForm.InitialActive | src/components/resume/forms/EducationForm.tsx:16-18 | The editor opens on the first entry, or on none exactly when there is none. |
| EducationForm.CurrentPatch | src/components/resume/forms/EducationForm.tsx:172-176 | Checking "currently studying" sets current and clears the end date. Unchecking keeps it. Nothing else changes. |
| EducationForm.CheckThenUncheck | src/components/resume/forms/EducationForm.tsx:172-176 | Checking then unchecking loses the end date. |
| EducationForm.AddEducation | src/components/resume/forms/EducationForm.tsx:20-40 | A blank entry with the fresh id is appended and made active, and the payload is written back. |
| EducationForm.UpdateEducation | src/components/resume/forms/EducationForm.tsx:42-52 | The patch is merged into the entries with the id and the others are kept. |
| EducationForm.UpdateUnknownEntry | src/components/resume/forms/EducationForm.tsx:42-52 | Patching an id no entry carries writes back the same list. |
| EducationForm.RemoveEducation | src/components/resume/forms/EducationForm.tsx:54-66 | The entries with the id are dropped, with the same cursor fallback as the experience editor. |
| EducationForm.AddThenRemoveRestores | src/components/resume/forms/EducationForm.tsx:20-66 | Removing the entry just added restores the store exactly. |
| SkillsForm.OpenEditor | src/components/resume/forms/SkillsForm.tsx:14-18 | The first category is selected, or `''` when there is none, and no skill is typed. |
| SkillsForm.AddCategory | src/components/resume/forms/SkillsForm.tsx:20-35 | An empty "New Category" with the fresh id is appended and selected. |
| SkillsForm.UpdateCategory | src/components/resume/forms/SkillsForm.tsx:37-47 | Only the name of the categories with the id changes. |
| SkillsForm.RemoveCategory | src/components/resume/forms/SkillsForm.tsx:49-61 | The category is dropped. The selection moves to the first remaining category only when the selected one was removed and some remain. |
| SkillsForm.EnabledRemoveKeepsSelection | src/components/resume/forms/SkillsForm.tsx:49-61 | While the remove button is enabled, with unique ids, a selection that named a category still names one after removal. |
| SkillsForm.RemovingOnlyCategoryDangles | src/components/resume/forms/SkillsForm.tsx:49-61 | Without the button's guard, removing the only category leaves the selection on a removed id. |
| SkillsForm.AddSkill | src/components/resume/forms/SkillsForm.tsx:63-82 | A blank-after-trim skill changes nothing. Otherwise the trimmed skill is appended to that category and the input is cleared. |
| SkillsForm.DropIndex | src/components/resume/forms/SkillsForm.tsx:89 | Filtering by index drops exactly the element at an index in range, and keeps the whole list otherwise. |
| SkillsForm.RemoveSkill | src/components/resume/forms/SkillsForm.tsx:84-99 | Only that category's skill at the index is dropped. |
| SkillsForm.AddThenRemoveSkill | src/components/resume/forms/SkillsForm.tsx:63-99 | Removing the skill just added restores the store and the categories. |
| SkillsForm.SkillEditsKeepClean | src/components/resume/forms/SkillsForm.tsx:63-99 | Skills entered through the form stay non-empty and trimmed. |
| Text.Trim | src/components/resume/forms/SkillsForm.tsx:64 | The trimmed text is a slice of the input with only white space outside it, has no white space at either end, and is empty exactly for all-white-space input. |
| Text.TrimIsTheSlice | src/components/resume/forms/SkillsForm.tsx:64 | The trimmed text is the one slice of the input that starts and ends with a non-white-space character and has only white space outside it. |
| Text.TrimIdempotent | src/components/resume/forms/SkillsForm.tsx:64-70 | Trimming twice equals trimming once. |
| Text.JoinSplit | src/components/resume/forms/SummaryForm.tsx:52 | Splitting on a separator and joining back on it gives the original text. |
| Text.SplitJoin | src/components/resume/forms/SummaryForm.tsx:52 | Joining separator-free pieces and splitting again gives the pieces back. |
| Text.DropBlank | src/components/resume/forms/SummaryForm.tsx:52 | `filter((s) => s)` keeps only non-empty pieces from the input, and keeps all of them when none is empty. |
| ContactForm.FieldOf | src/components/resume/forms/ContactForm.tsx:10-17 | The four required fields are always present, and LinkedIn and website may be absent. |
| ContactForm.FieldsDetermineContact | src/components/resume/forms/ContactForm.tsx:10-17 | Two contact payloads are equal exactly when all six fields agree. |
| ContactForm.Shown | src/components/resume/forms/ContactForm.tsx:74-84 | An input shows the stored value, or `''` for an absent optional field. |
| ContactForm.SetField | src/components/resume/forms/ContactForm.tsx:10-17 | Spreading one field sets that field and keeps the other five. |
| ContactForm.SetFieldTwice | src/components/resume/forms/ContactForm.tsx:10-17 | The second write to a field wins. |
| ContactForm.SetFieldsCommute | src/components/resume/forms/ContactForm.tsx:10-17 | Writes to different fields commute. |
| ContactForm.RetypeShown | src/components/resume/forms/ContactForm.tsx:10-17 | Typing back what an input shows changes nothing visible. It changes the stored payload only when an optional field was absent. |
| ContactForm.HandleChange | src/components/resume/forms/ContactForm.tsx:10-17 | The contact payload with one field replaced is written back, and nothing else changes. |
| ContactForm.ContactChangeKeepsConsistent | src/components/resume/forms/ContactForm.tsx:10-17 | A contact edit keeps a consistent document consistent. |
| SummaryForm.HandleChange | src/components/resume/forms/SummaryForm.tsx:23-29 | The summary payload becomes exactly the new text, and nothing else changes. |
| SummaryForm.ParseSkills | src/components/resume/forms/SummaryForm.tsx:52 | Every parsed skill is non-empty, trimmed and free of commas. |
| SummaryForm.ParseSkillsPiece | src/components/resume/forms/SummaryForm.tsx:52 | Comma-free text parses to its trim, or to nothing when that is empty. |
| SummaryForm.ParseSkillsAppend | src/components/resume/forms/SummaryForm.tsx:52 | Parsing distributes over a comma, so the pieces keep their order. |
| SummaryForm.ParseJoined | src/components/resume/forms/SummaryForm.tsx:52 | Non-empty, trimmed, comma-free skills joined with ", " parse back to the same list, also behind leading white space. |
| SummaryForm.SummaryGate | src/components/resume/forms/SummaryForm.tsx:31-52 | A missing key is refused first, then an empty title or years. Otherwise the request carries the title, the years and the parsed skills. |
| SummaryForm.GenerateSummary | src/components/resume/forms/SummaryForm.tsx:31-70 | The summary changes only when both guards pass and the reply is a text, and then it becomes that text. Failures report the message. |
| ResumePreview.EndOf | src/components/resume/ResumePreview.tsx:87 | "Present" exactly for a current entry, and otherwise the end date. |
| ResumePreview.ContactDetails | src/components/resume/ResumePreview.tsx:40-55 | The detail line holds only non-empty contact fields, and every non-empty field the form shows except the name. It starts with the e-mail when there is one, and with every field filled in it reads e-mail, phone, location, LinkedIn, website, in that order. |
| ResumePreview.ExperienceEntries | src/components/resume/ResumePreview.tsx:70-96 | One entry per item, with its position, company, dates and description. |
| ResumePreview.EducationEntries | src/components/resume/ResumePreview.tsx:98-124 | One entry per item, with "degree in field", and the description only when it is non-empty. |
| ResumePreview.SkillLines | src/components/resume/ResumePreview.tsx:126-143 | One line per category: its name and its skills joined with ", ". |
| ResumePreview.RenderSection | src/components/resume/ResumePreview.tsx:57-160 | Renders nothing exactly for projects, custom sections, an empty summary and empty lists. Otherwise renders a block of the section's type and title: the contact block holds the name and the detail line, the summary block the summary text, and the experience, education and skills blocks the rendered entries and skill lines of the section's own items. |
| ResumePreview.Preview | src/components/resume/ResumePreview.tsx:197-199 | One entry per section, in sorted order, keyed by id with its rendering. |
| ResumePreview.PreviewOfConsistent | src/components/resume/ResumePreview.tsx:197-199 | A consistent document previews in its stored order. |
| ResumePreview.PreviewIgnoresOrders | src/components/resume/ResumePreview.tsx:15 | Two documents whose sorted sections agree except for order numbers show the same preview. |
| ResumePreview.ContactAlwaysShown | src/components/resume/ResumePreview.tsx:40-55 | A document with a contact section always shows a contact block. |
| ResumePreview.MoveDownPreviewUnchanged | src/components/resume/ResumeForm.tsx:33-42 | On a document with orders 0..N-1, pressing an enabled down arrow leaves the preview exactly as it was. |
| ResumePreview.SkillLineReadsBack | src/components/resume/ResumePreview.tsx:138 | A category's skill line, entered through the form and comma-free, parses back to its skills with the summary form's parser. |
| Reorder.DisplayIndex | src/components/resume/ResumeForm.tsx:20 | The position of the id in the sorted list, or none exactly when no section has it. |
| Reorder.MoveTo | src/store/useResumeStore.ts:207-233 | Corrected move: an unknown id changes nothing. Otherwise the orders become exactly 0..N-1. |
| Reorder.MoveToVisualOrder | src/store/useResumeStore.ts:207-233 | Corrected move: the id leaves its displayed position and lands at the clamped target. |
| Reorder.MoveToKeepsSections | src/store/useResumeStore.ts:207-233 | Corrected move: the same sections up to their orders. |
| Reorder.MoveToKeepsConsistent | src/store/useResumeStore.ts:207-233 | Corrected move: a consistent document stays consistent, and its orders become 0..N-1. |
| Reorder.MoveUpFixed | src/components/resume/ResumeForm.tsx:22-31 | Corrected up arrow: the section swaps with the one shown above it, the top section stays, and the orders are 0..N-1. |
| Reorder.MoveDownFixed | src/components/resume/ResumeForm.tsx:33-42 | Corrected down arrow: the section swaps with the one shown below it, the bottom section stays, and the orders are 0..N-1. |
| Reorder.DownThenUpRestores | src/components/resume/ResumeForm.tsx:22-42 | Corrected arrows: down then up restores the visible order. |
| Reorder.MoveToAgreesUpward | src/store/useResumeStore.ts:207-233 | For upward moves on orders 0..N-1, the source's move and the corrected one show the same order. |
| Reorder.FixedButtonsMatchPosition | src/components/resume/ResumeForm.tsx:151-160 | After a corrected move, up is disabled exactly at the top and down exactly at the bottom. |

## Left out

- Persistence to local storage (the `persist` wrapper): it is I/O, and the model starts from a given state.
- The text-generation service and the API-key store: they are calls into code outside the core. Whether a key is stored and what the service replied are parameters.
- PDF export, the preview show/hide toggle, the loading flags and every toast: they are UI chrome and I/O. The notices a handler raises are modelled as its second result.
- Date formatting (`formatDate`) and the years-of-experience computation from dates and `parseInt`: they need clocks and locale formatting. Dates appear in the preview as the stored strings.
- Fresh ids from `Date.now()`: they are parameters with the precondition that no entry already carries them.
- React hooks, JSX markup, styling and entry labels such as "New Experience": they are presentation only.
- Editors for projects and custom sections: the source has none. The model keeps their payloads and renders them as nothing, as the source does.
- ResumePreview.Preview: requires every section's payload to match its type, which the source guarantees by typing rather than by a runtime check.
- ContactForm.HandleChange: takes one of the six field names. The source accepts any string key, but the form only passes these six.
- Text.Trim: uses ECMAScript's WhiteSpace and LineTerminator code points written out as a set, and does not model Unicode normalisation.
- ResumeStore.AddSection: does not check that the id is fresh. The source does not check either; AddSectionKeepsConsistent states what the caller must ensure.

## Findings

| source | as written | input that shows it | evidently intended | confidence | as-written member | corrected member |
|---|---|---|---|---|---|---|
| src/store/useResumeStore.ts:213-229 with src/components/resume/ResumeForm.tsx:33-42 | The down arrow asks for order k+1. moveSection bumps every order >= k+1 by one and gives the section order k+1, so it stays below the same neighbour. | Fresh document, down arrow on Summary (order 1): orders become contact 0, summary 2, experience 3, education 4, skills 5. The displayed order is unchanged. | The section swaps with the one shown below it. | high, not executed | MoveFacts.MoveDownKeepsVisualOrder, ResumePreview.MoveDownPreviewUnchanged | Reorder.MoveDownFixed |
| src/store/useResumeStore.ts:213-229 with src/components/resume/ResumeForm.tsx:160 | After an up move, the orders are no longer 0..N-1: the last section holds order N. Its down arrow (disabled only at order N-1) stays enabled, but handleMoveDown refuses order N. | Fresh document, up arrow on Experience (order 2): contact 0, experience 1, summary 2, education 4, skills 5. Skills at order 5 has an enabled down arrow that does nothing, and education, at order 4 = N-1, has its down arrow disabled although skills is shown below it. | The orders stay 0..N-1, so the arrows are enabled exactly where a move is possible. | high, not executed | ResumeForm.DeadDownButton, ResumeForm.DisabledDownAboveLast, MoveFacts.MoveUpLeavesGap | Reorder.MoveToKeepsConsistent, Reorder.FixedButtonsMatchPosition, Reorder.MoveUpFixed |
