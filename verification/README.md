# Portal Saúde Limeira — a verified model of the admin tabs and public pages

Portal Saúde Limeira is a health portal for the city of Limeira. Its public pages list clinics, doctors, professionals and news. Its admin area is a set of tabs that create, edit and delete those records in a hosted backend. This project models, in Dafny, the behaviour of:

- the admin tabs (clinics, professionals, doctors, news, partners, specialties, health plans);
- the image upload field and the storage helpers;
- the two banner carousels;
- the public list and detail pages, the professional card and the contact box.

It proves what that code promises about them.

The hosted backend appears as in-memory tables:

- `Backend.Table` keeps a table's rows and the requests it has received, so "no call was made" is "the request list did not change".
- The storage bucket is `Storage.Store`.
- The outcome of every remote call is a parameter: `Reply` is `Ok` or `Fail(message)`.
- The identifiers and column defaults the backend chooses are parameters too.

Each admin tab is a class. Its fields are the component's state: the form, the edited record, the dialog, the saving flag, the toast, and the number of list refetches it requested. Its handlers are methods whose contracts give the new state and the change to the tables. The pure helpers are functions, with lemmas about them:

- slug derivation;
- the payload a form writes;
- filters, orderings and the flattening of join rows;
- initials and WhatsApp links;
- carousel index arithmetic.

The many-to-many rewrite (delete every join row of the owner, then insert one per selected id) is specified once, in `Links.Rewrite`. Each tab's method is proved against it.

Some behaviours of the code are stated as proved facts:

- The clinic's `is_featured` checkbox is never written.
- The delete before a join-row rewrite is not checked. A failed insert after it leaves the owner with no links.
- A failed lookup of a doctor's clinics empties the selection, so the next save removes every link.
- The specialty guard is skipped when its lookup fails.
- The news slug field is stored verbatim.
- The partner description limit counts UTF-16 code units.
- Any manual move stops the profile carousel's autoplay for good.
- An upload field in the clinic and professional forms writes its URL into the form as it was when the file was chosen, so edits made while the upload runs are lost.
- The two trimming variants of `generateSlug` agree on every name.

Where the system's design description and the code differ, the model follows the code:

- The design says optional empty fields are written as null. Only the clinics, professionals and specialties tabs do that. The doctors, news and partners tabs write the form as it stands, so `""` is stored.
- The design says a detail page accepts at most one match. The article page uses `.single()`, which also fails on no match and on several; the clinic and doctor pages use `.maybeSingle()`. Both are modelled by `Backend.Cardinality`, and in both cases the failure is only logged.
- The design says a failed list load keeps the previous list. The public clinics and doctors pages do keep it, and it is the empty list, since they load once on mount; the model states the empty list.

## Model

| member | source | states |
|---|---|---|
| Wrappers.NullIfEmpty | src/components/admin/ClinicsTab.tsx:180-193 | `s \|\| null`: null exactly for the empty string, otherwise the text itself |
| Wrappers.OrEmpty | src/components/admin/ClinicsTab.tsx:256-262 | `x \|\| ""`: the text when present, `""` for null |
| Wrappers.OrEmptyNullIfEmpty | src/components/admin/ClinicsTab.tsx:180-262 | a text written with `\|\| null` reads back unchanged |
| Wrappers.NullIfEmptyOrEmpty | src/components/admin/ClinicsTab.tsx:180-262 | a column read with `\|\| ""` writes back unchanged if and only if it was not `""` |
| Text.Lower | src/pages/Clinics.tsx:54-55 | `toLowerCase` maps each character and keeps the length |
| Text.UpperAppend | src/components/cards/ProfessionalCard.tsx:30 | `toUpperCase` works character by character over concatenation |
| Text.IndexOf | src/lib/storage.ts:14 | the first occurrence of the separator, and none exactly when it does not occur |
| Text.Digits | src/components/cards/ProfessionalCard.tsx:91 | `replace(/\D/g, "")` leaves only digits |
| Text.DigitsAppend | src/components/cards/ProfessionalCard.tsx:91 | the digits of a concatenation are the digits of each part, in order |
| Text.DigitsIdempotent | src/components/cards/ProfessionalCard.tsx:91 | stripping non-digits twice is stripping them once |
| Text.JoinSplit | src/pages/NewsDetail.tsx:138 | joining the pieces of a split with the separator gives the string back |
| Text.SplitCount | src/pages/NewsDetail.tsx:138 | a split on one character has one more piece than there are separators |
| Text.SplitPiecesAvoidChar | src/pages/NewsDetail.tsx:138 | no piece of a split on a character contains that character |
| Text.LastPieceAfter | src/lib/storage.ts:14 | `split(c).pop()` of `a + c + b` is `b` when `b` has no `c` |
| Text.Decimal | src/lib/storage.ts:15 | the decimal text of a number is non-empty and all digits |
| Text.Upper | src/components/cards/ProfessionalCard.tsx:30 | `toUpperCase` never shortens a string |
| Text.Split | src/lib/storage.ts:14 | `split` always yields at least one piece |
| Text.SplitWhole | src/components/cards/ProfessionalCard.tsx:27 | a string without the separator splits into itself alone |
| Text.LastPieceWhole | src/lib/storage.ts:14 | a name without `.` is its own last piece |
| Text.LastPieceAvoids | src/lib/storage.ts:14 | the last piece of a split on a character holds no such character |
| Seqs.Filter | src/pages/Clinics.tsx:52-56 | `filter` keeps exactly the elements that pass, never more than it is given |
| Seqs.FilterIsSubsequence | src/pages/Clinics.tsx:52-56 | `filter` keeps the order of what it keeps |
| Seqs.Find | src/pages/ProfessionalProfile.tsx:14 | `find` returns an element if and only if one passes, and then the first that does |
| Seqs.Dedup | src/pages/Professionals.tsx:74 | `Array.from(new Set(s))` has no repeats and the same members as `s` |
| Seqs.SortBy | src/pages/Clinics.tsx:37 | the requested order rearranges the rows and neither adds nor drops any |
| Seqs.SortBySorted | src/pages/Clinics.tsx:37 | under a total preorder the rearranged rows are in order |
| Seqs.FilterSorted | src/pages/Clinics.tsx:37-56 | filtering a sorted list leaves it sorted |
| Backend.Matching | src/pages/Clinics.tsx:33-37 | a filter returns exactly the rows that pass it, never more rows than the table |
| Backend.Patched | src/components/admin/ClinicsTab.tsx:176-198 | an update by id keeps the row count and the ids, patches exactly the rows with that id and leaves the others equal |
| Backend.PatchedMissing | src/components/admin/ClinicsTab.tsx:176-198 | updating an id no row has changes nothing |
| Backend.RemovedById | src/components/admin/ClinicsTab.tsx:280-283 | a delete by id keeps exactly the other rows, in order, and changes nothing when the id is absent |
| Backend.Cardinality | src/pages/ClinicDetail.tsx:47-56 | `.single()` and `.maybeSingle()` see no row exactly for an empty answer, one row that is the only row, or several for two or more |
| Backend.OnlyMatch | src/pages/NewsDetail.tsx:32-37 | when exactly one row passes the filter, the query returns that row alone and `.single()` yields it |
| Backend.Table.constructor | src/components/admin/ClinicsTab.tsx:176-215 | a table with the given rows and no requests |
| Backend.Table.Query | src/pages/Clinics.tsx:33-39 | a select records one request, changes no row and returns the matching rows or the error |
| Backend.Table.Add | src/components/admin/ClinicsTab.tsx:207-215 | an insert records one request and, on success, appends exactly the new rows with the backend's ids |
| Backend.Table.Change | src/components/admin/ClinicsTab.tsx:176-198 | an update records one request and, on success, is the patched table |
| Backend.Table.Remove | src/components/admin/ClinicsTab.tsx:280-283 | a delete records one request and, on success, keeps exactly the rows not selected |
| Slug.NfdChar | src/components/admin/ClinicsTab.tsx:86 | a precomposed letter decomposes into its base letter and one combining mark; any other character stays as it is |
| Slug.Nfd | src/components/admin/ClinicsTab.tsx:86 | decomposition at most doubles the length |
| Slug.NfdAppend | src/components/admin/ClinicsTab.tsx:86 | decomposition works character by character over concatenation |
| Slug.StripMarks | src/components/admin/ClinicsTab.tsx:87 | no combining mark remains, and nothing is added |
| Slug.SkipRun | src/components/admin/ClinicsTab.tsx:88 | drops the leading run outside `[a-z0-9]`, leaving a suffix that starts with a letter or digit |
| Slug.Collapse | src/components/admin/ClinicsTab.tsx:88 | the result has only `[a-z0-9-]`, no two adjacent hyphens, is no longer than the input and is empty only for an empty input |
| Slug.TrimAllShape | src/components/admin/ClinicsTab.tsx:89 | trimming every outer hyphen of a collapsed string gives a slug-shaped substring of it |
| Slug.GenerateSlugIsSlug | src/components/admin/ClinicsTab.tsx:83-90 | every generated slug is empty or `[a-z0-9]+(-[a-z0-9]+)*` |
| Slug.NfdFixesSlugChars | src/components/admin/ClinicsTab.tsx:86 | decomposition leaves `[a-z0-9-]` text unchanged |
| Slug.StripMarksFixesSlugChars | src/components/admin/ClinicsTab.tsx:87 | mark removal leaves `[a-z0-9-]` text unchanged |
| Slug.CollapseFixes | src/components/admin/ClinicsTab.tsx:88 | collapsing leaves text without double hyphens unchanged |
| Slug.SlugFixesTrimAll | src/components/admin/ClinicsTab.tsx:89 | trimming leaves a slug unchanged |
| Slug.SlugFixesSlugs | src/components/admin/ClinicsTab.tsx:83-90 | a string of slug shape is its own slug |
| Slug.GenerateSlugIdempotent | src/components/admin/ClinicsTab.tsx:83-90 | slugging a slug changes nothing |
| Slug.TrimOneIsTrimAll | src/components/admin/DoctorsTab.tsx:110 | on text without double hyphens, trimming one hyphen per end equals trimming all |
| Slug.SlugVariantsAgree | src/components/admin/DoctorsTab.tsx:104-111 | the doctors and news variant gives the clinics variant's slug for every name |
| SlugExample.ClinicaVida | src/components/admin/ClinicsTab.tsx:83-90 | "Clínica Vida" becomes "clinica-vida" |
| Links.MakeLink | src/components/admin/ProfessionalsTab.tsx:167-172 | the join row has the owner in the owner column and the target in the other |
| Links.TargetsOf | src/components/admin/ClinicsTab.tsx:127-139 | one id per join row of the owner, in table order |
| Links.WithoutOwner | src/components/admin/ProfessionalsTab.tsx:158-161 | the rows a delete by owner leaves: exactly those of other owners |
| Links.NewLinks | src/components/admin/ProfessionalsTab.tsx:164-172 | one join row per selected id, in order, all owned by the owner |
| Links.RowsOfAppend | src/components/admin/ProfessionalsTab.tsx:156-176 | an owner's rows in a concatenation are its rows in each part |
| Links.RowsOfWithoutOwner | src/components/admin/ProfessionalsTab.tsx:158-161 | deleting one owner's rows removes all of them and keeps every other owner's, in order |
| Links.RowsOfNew | src/components/admin/ProfessionalsTab.tsx:164-172 | the inserted rows belong to the owner only |
| Links.TargetsOfNew | src/components/admin/ProfessionalsTab.tsx:164-172 | the inserted rows carry the selected ids in order |
| Links.RewriteExact | src/components/admin/ProfessionalsTab.tsx:156-176 | after a delete and insert that both succeed, the owner's ids are exactly the selection, in order |
| Links.RewriteFramesOthers | src/components/admin/ProfessionalsTab.tsx:156-176 | whatever the outcomes, other owners' rows are unchanged |
| Links.RewriteInsertFailure | src/components/admin/ClinicsTab.tsx:312-345 | a successful delete followed by a failed insert leaves the owner with no join rows |
| Links.RewriteDeleteFailure | src/components/admin/ProfessionalsTab.tsx:158-175 | the delete's outcome is not checked: a failed delete then a good insert leaves the old links followed by the new ones |
| Links.RewriteIdempotent | src/components/admin/ProfessionalsTab.tsx:156-176 | saving the same selection twice gives the owner the same links as saving it once |
| Selection.Without | src/components/admin/ClinicsTab.tsx:352-353 | the id is gone, every other id keeps its multiplicity, order kept |
| Selection.Toggle | src/components/admin/ClinicsTab.tsx:350-356 | the id's membership flips and every other id keeps its multiplicity |
| Selection.ToggleRemoves | src/components/admin/ClinicsTab.tsx:350-356 | a present id is removed, every occurrence, keeping the order of the rest |
| Selection.ToggleAppends | src/components/admin/ClinicsTab.tsx:350-356 | an absent id is appended at the end |
| Selection.ToggleMembership | src/components/admin/DoctorsTab.tsx:257-263 | toggling flips membership of that id and of no other |
| Selection.ToggleTwiceAbsent | src/components/admin/ClinicsTab.tsx:350-356 | toggling an absent id twice gives back the original list exactly |
| Selection.ToggleTwiceSameSet | src/components/admin/ClinicsTab.tsx:350-356 | toggling any id twice keeps the set of selected ids |
| Selection.Check | src/components/admin/ProfessionalsTab.tsx:402-413 | checking adds one occurrence (no duplicate check); unchecking removes all; other ids are unchanged |
| Selection.CheckIsToggle | src/components/admin/ProfessionalsTab.tsx:401-413 | a checkbox showing the current membership acts as the toggle |
| BannerList.Add | src/components/admin/ProfessionalsTab.tsx:470-477 | appends "" below five entries and otherwise does nothing, so the list never grows past five |
| BannerList.RemoveAt | src/components/admin/ProfessionalsTab.tsx:462 | exactly the entry at the index disappears, the rest keep their order |
| BannerList.SetAt | src/components/admin/ProfessionalsTab.tsx:447-449 | only the entry at the index changes, to the URL |
| BannerList.AddThenRemove | src/components/admin/ProfessionalsTab.tsx:462-475 | adding a banner then removing it gives back the list |
| ClinicsAdmin.Written | src/components/admin/ClinicsTab.tsx:173-227 | the stored columns: slug recomputed from the name (and it is a slug), name, city, banners and is_active as typed, other text with "" as null, is_featured kept from the stored row |
| ClinicsAdmin.FeaturedNotPersisted | src/components/admin/ClinicsTab.tsx:178-197 | the is_featured checkbox value never reaches the stored row |
| ClinicsAdmin.EditAfterSave | src/components/admin/ClinicsTab.tsx:252-273 | editing a saved clinic shows the form that was saved, with is_featured as stored |
| ClinicsAdmin.SaveAfterEdit | src/components/admin/ClinicsTab.tsx:173-273 | editing then saving unchanged stores the same row apart from the recomputed slug, when no text column holds "" |
| ClinicsAdmin.ClinicsTab.constructor | src/components/admin/ClinicsTab.tsx:46-76 | the initial state: empty form, nothing edited, dialogs closed |
| ClinicsAdmin.ClinicsTab.ResetForm | src/components/admin/ClinicsTab.tsx:144-166 | every text field "", banners [], is_active true, is_featured false, nothing edited; nothing else changes |
| ClinicsAdmin.ClinicsTab.HandleEdit | src/components/admin/ClinicsTab.tsx:252-274 | the clinic becomes the edited one, the form is its FormOf, the dialog opens |
| ClinicsAdmin.ClinicsTab.SetFeatured | src/components/admin/ClinicsTab.tsx:591-601 | only the form's is_featured changes |
| ClinicsAdmin.ClinicsTab.AddBanner | src/components/admin/ClinicsTab.tsx:433-444 | an empty banner is appended while there are fewer than five |
| ClinicsAdmin.ClinicsTab.RemoveBanner | src/components/admin/ClinicsTab.tsx:420-429 | the banner at the index is removed, the rest keep their order |
| ClinicsAdmin.ClinicsTab.SetBanner | src/components/admin/ClinicsTab.tsx:405-413 | the form becomes the form the callback captured with only the banner at the index replaced by the URL; for a finished upload that is the form as it was when the file was chosen (the callback runs after `await onUpload`, src/components/ui/image-upload.tsx:54-55) |
| ClinicsAdmin.ClinicsTab.SetImageUrl | src/components/admin/ClinicsTab.tsx:391-394 | the form becomes the captured form with only the logo URL replaced |
| ClinicsAdmin.ClinicsTab.HandleSubmit | src/components/admin/ClinicsTab.tsx:168-250 | one update of the edited id or one insert; on success the table holds Written, the form resets, the dialog closes and the list is refetched; on failure the table and form are unchanged and an error toast shows; saving ends false |
| ClinicsAdmin.ClinicsTab.FetchClinicProfessionals | src/components/admin/ClinicsTab.tsx:127-142 | on success the selection is the clinic's professional ids in row order; on error it is unchanged and an error toast shows |
| ClinicsAdmin.ClinicsTab.HandleManageProfessionals | src/components/admin/ClinicsTab.tsx:300-304 | the clinic is selected and the dialog opens; on success the checked professionals are the clinic's links and the toast is untouched, on failure the selection is kept and the error toast "Erro ao carregar profissionais da clínica" carries the message |
| ClinicsAdmin.ClinicsTab.ToggleProfessionalSelection | src/components/admin/ClinicsTab.tsx:350-356 | the selection becomes Selection.Toggle of the id; nothing else changes |
| ClinicsAdmin.ClinicsTab.HandleSaveProfessionals | src/components/admin/ClinicsTab.tsx:306-348 | nothing without a selected clinic; otherwise a delete whose outcome is ignored, then an insert only for a non-empty selection; the table becomes Links.Rewrite; an insert failure keeps the dialog and selection |
| ClinicsAdmin.RewriteClinicLinks | src/components/admin/ClinicsTab.tsx:311-329 | one delete of the clinic's rows whose outcome is ignored, then one insert for a non-empty selection; the table becomes Links.Rewrite; the error is the insert's only |
| ClinicsAdmin.SaveProfessionalsExact | src/components/admin/ClinicsTab.tsx:306-329 | after a successful save the clinic's linked ids are exactly the selection, in order, and other clinics' rows are unchanged |
| ProfessionalsAdmin.Written | src/components/admin/ProfessionalsTab.tsx:188-202 | name, location and banners as typed; every other optional field, specialty_id included, null exactly when "" |
| ProfessionalsAdmin.EditAfterSave | src/components/admin/ProfessionalsTab.tsx:262-281 | editing a saved professional, with its saved clinics, shows the form that was saved |
| ProfessionalsAdmin.SaveAfterEdit | src/components/admin/ProfessionalsTab.tsx:188-202 | editing then saving unchanged stores the same row when no text field holds "" |
| ProfessionalsAdmin.UpdateClinicProfessionals | src/components/admin/ProfessionalsTab.tsx:156-176 | a delete of the professional's rows whose outcome is ignored, then one insert for a non-empty list; the table becomes Links.Rewrite; the error is the insert's only |
| ProfessionalsAdmin.ProfessionalsTab.constructor | src/components/admin/ProfessionalsTab.tsx:46-70 | the initial state: empty form, nothing edited, dialog closed |
| ProfessionalsAdmin.ProfessionalsTab.ResetForm | src/components/admin/ProfessionalsTab.tsx:136-154 | every text field "", banners and clinic_ids [], nothing edited; nothing else changes |
| ProfessionalsAdmin.ProfessionalsTab.HandleEdit | src/components/admin/ProfessionalsTab.tsx:262-282 | the form is the row with null as "", clinic_ids are the embedded clinic ids in order or [] when absent; the dialog opens |
| ProfessionalsAdmin.ProfessionalsTab.CheckClinic | src/components/admin/ProfessionalsTab.tsx:401-413 | checking appends the id with no duplicate check; unchecking removes every occurrence |
| ProfessionalsAdmin.ProfessionalsTab.AddBanner | src/components/admin/ProfessionalsTab.tsx:470-477 | an empty banner is appended while there are fewer than five |
| ProfessionalsAdmin.ProfessionalsTab.RemoveBanner | src/components/admin/ProfessionalsTab.tsx:458-465 | the banner at the index is removed |
| ProfessionalsAdmin.ProfessionalsTab.SetBanner | src/components/admin/ProfessionalsTab.tsx:441-450 | the form becomes the form the callback captured with only the banner at the index replaced by the URL, so edits made during an upload are overwritten |
| ProfessionalsAdmin.ProfessionalsTab.SetPhotoUrl | src/components/admin/ProfessionalsTab.tsx:428-431 | the form becomes the captured form with only the photo URL replaced |
| ProfessionalsAdmin.ProfessionalsTab.HandleSubmit | src/components/admin/ProfessionalsTab.tsx:178-260 | edit: update, then rewrite links only if the update succeeded; create: insert, then links only for the returned id; a link-insert failure is reported as a failed save although the row persisted; saving ends false |
| ProfessionalsAdmin.ProfessionalsTab.WriteProfessional | src/components/admin/ProfessionalsTab.tsx:185-235 | one update of the edited id with Patch, or one insert of Written under the new id; a failed write leaves the rows unchanged |
| ProfessionalsAdmin.SavedClinicsReload | src/components/admin/ProfessionalsTab.tsx:156-176 | after a fully successful save, reloading the professional shows exactly the checked clinics, and other professionals keep theirs |
| DoctorsAdmin.Written | src/components/admin/DoctorsTab.tsx:148-149 | the whole form as typed, empty optional text stored as "" and never null, plus the slug of the name (a slug) |
| DoctorsAdmin.EditAfterSave | src/components/admin/DoctorsTab.tsx:216-227 | editing a saved doctor shows the form that was saved |
| DoctorsAdmin.SaveAfterEdit | src/components/admin/DoctorsTab.tsx:148-149 | editing then saving unchanged turns null text into "" and recomputes the slug, nothing else |
| DoctorsAdmin.FetchDoctorClinics | src/components/admin/DoctorsTab.tsx:95-102 | one select; the doctor's clinic ids in row order, or [] on error, which is not reported |
| DoctorsAdmin.FilteredDoctors | src/components/admin/DoctorsTab.tsx:265-269 | exactly the doctors whose lower-cased name or specialty contains the lower-cased term, in order |
| DoctorsAdmin.EmptySearchKeepsAll | src/components/admin/DoctorsTab.tsx:265-269 | an empty search keeps every doctor |
| DoctorsAdmin.DoctorsTab.constructor | src/components/admin/DoctorsTab.tsx:47-70 | the initial state: empty form and selection, nothing edited, empty search |
| DoctorsAdmin.DoctorsTab.ResetForm | src/components/admin/DoctorsTab.tsx:128-141 | the empty form, no selected clinics, nothing edited; nothing else changes |
| DoctorsAdmin.DoctorsTab.HandleEdit | src/components/admin/DoctorsTab.tsx:216-232 | the form is the doctor with null as "", the selection is its clinic ids or [] after a failed lookup, the dialog opens |
| DoctorsAdmin.DoctorsTab.ToggleClinic | src/components/admin/DoctorsTab.tsx:257-263 | the selection becomes Selection.Toggle of the id; nothing else changes |
| DoctorsAdmin.DoctorsTab.HandleSubmit | src/components/admin/DoctorsTab.tsx:143-214 | edit: update, delete the doctor's links (outcome unchecked); create: insert with the returned id and no delete; then one insert for a non-empty selection; toasts in order; saving ends false on both paths |
| DoctorsAdmin.DoctorsTab.WriteDoctor | src/components/admin/DoctorsTab.tsx:153-180 | one update of the edited id with Patch, or one insert of Written; the doctor id is the edited one or the returned one; a failed write leaves the rows unchanged |
| DoctorsAdmin.SaveLinks | src/components/admin/DoctorsTab.tsx:162-199 | a delete of the doctor's rows only when editing (outcome ignored), then the clinic insert; the table becomes Links.Rewrite with the delete counted only when it was sent and succeeded |
| DoctorsAdmin.InsertLinks | src/components/admin/DoctorsTab.tsx:189-199 | no request for an empty selection; otherwise one insert of a row per selected clinic; the error is the insert's |
| DoctorsAdmin.CreateLinksExact | src/components/admin/DoctorsTab.tsx:173-199 | a new doctor with no rows yet ends with exactly the selected clinics although nothing was deleted |
| DoctorsAdmin.FailedLookupWipesLinks | src/components/admin/DoctorsTab.tsx:95-102 | after a failed clinic lookup the next successful edit-save leaves the doctor with no clinic rows |
| DoctorsAdmin.EditLinksExact | src/components/admin/DoctorsTab.tsx:153-199 | after a successful edit-save the doctor's clinics are exactly the selection and other doctors keep theirs |
| NewsAdmin.Written | src/components/admin/NewsTab.tsx:97-105 | the stored article is the form as it stands: the slug as typed, "" stored rather than null, published_at not written |
| NewsAdmin.EditAfterSave | src/components/admin/NewsTab.tsx:123-135 | editing a saved article shows the form that was saved, slug included |
| NewsAdmin.NewsTab.constructor | src/components/admin/NewsTab.tsx:39-57 | the initial state: empty form, nothing edited, dialog closed |
| NewsAdmin.NewsTab.ResetForm | src/components/admin/NewsTab.tsx:79-90 | every text field "", is_active true, editingId null; nothing else changes |
| NewsAdmin.NewsTab.SetTitle | src/components/admin/NewsTab.tsx:191-197 | title and slug are set in one update, the slug being the title's slug |
| NewsAdmin.NewsTab.SetSlug | src/components/admin/NewsTab.tsx:206-209 | the slug field stores the text exactly as typed |
| NewsAdmin.NewsTab.HandleEdit | src/components/admin/NewsTab.tsx:123-135 | the form is the article with null as "" and the stored slug kept; the dialog opens |
| NewsAdmin.NewsTab.HandleSubmit | src/components/admin/NewsTab.tsx:92-121 | one update of the edited id or one insert of the form; on success the form resets, the dialog closes and the list is refetched; on failure nothing changes but the error toast |
| NewsAdmin.SavedSlug | src/components/admin/NewsTab.tsx:191-209 | a slug set from the title is saved as the title's slug; a hand-typed slug is saved verbatim, even one without the slug shape |
| PartnersAdmin.Utf16Length | src/components/admin/PartnersTab.tsx:134 | JavaScript's length: between the number of characters and twice it |
| PartnersAdmin.Utf16LengthBmp | src/components/admin/PartnersTab.tsx:134 | for text of Basic Multilingual Plane characters, length is the character count |
| PartnersAdmin.Validate | src/components/admin/PartnersTab.tsx:128-137 | the required-field message iff company or area is empty; otherwise the length message iff the description is over 200; no message iff both checks pass |
| PartnersAdmin.DescriptionBoundary | src/components/admin/PartnersTab.tsx:134-137 | exactly 200 code units is accepted and 201 is rejected |
| PartnersAdmin.Written | src/components/admin/PartnersTab.tsx:141-149 | the form as it stands: "" stored rather than null, created_at kept |
| PartnersAdmin.EditAfterSave | src/components/admin/PartnersTab.tsx:164-175 | editing a saved partner shows the form that was saved |
| PartnersAdmin.FilterPartners | src/components/admin/PartnersTab.tsx:112-126 | exactly the partners passing the search filter (empty term, or a case-insensitive company-name match) and the area filter ("all", or equal), in order |
| PartnersAdmin.NoFilterShowsAll | src/components/admin/PartnersTab.tsx:112-126 | with search "" and area "all" the whole list is shown |
| PartnersAdmin.PartnersTab.constructor | src/components/admin/PartnersTab.tsx:70-85 | the initial state: empty form, nothing selected, dialogs closed |
| PartnersAdmin.PartnersTab.ResetForm | src/components/admin/PartnersTab.tsx:198-208 | strings "", is_active true, no selected partner; nothing else changes |
| PartnersAdmin.PartnersTab.HandleEdit | src/components/admin/PartnersTab.tsx:164-175 | the form is the partner with null as "", it becomes selected, the dialog opens |
| PartnersAdmin.PartnersTab.SelectForDelete | src/components/admin/PartnersTab.tsx:333-336 | the partner becomes selected and the confirmation opens |
| PartnersAdmin.PartnersTab.HandleSubmit | src/components/admin/PartnersTab.tsx:128-162 | an invalid form is reported and no request is sent; otherwise one update of the selected id or one insert; on success the form resets and the list is refetched |
| PartnersAdmin.PartnersTab.HandleDelete | src/components/admin/PartnersTab.tsx:177-196 | nothing without a selection; otherwise one delete by id; on success the selection clears and the dialog closes |
| SpecialtiesAdmin.Written | src/components/admin/SpecialtiesTab.tsx:70-92 | the name as typed; description and icon null exactly when "" |
| SpecialtiesAdmin.EditAfterSave | src/components/admin/SpecialtiesTab.tsx:116-124 | editing a saved specialty shows the form that was saved |
| SpecialtiesAdmin.SaveAfterEdit | src/components/admin/SpecialtiesTab.tsx:70-124 | editing then saving unchanged stores the same row if and only if no text column holds "" |
| SpecialtiesAdmin.SpecialtiesTab.constructor | src/components/admin/SpecialtiesTab.tsx:20-31 | the initial state: empty form, nothing edited, dialog closed |
| SpecialtiesAdmin.SpecialtiesTab.ResetForm | src/components/admin/SpecialtiesTab.tsx:55-62 | all three fields "" and nothing edited; nothing else changes |
| SpecialtiesAdmin.SpecialtiesTab.HandleEdit | src/components/admin/SpecialtiesTab.tsx:116-124 | the form is the specialty with null as "", it becomes the edited one, the dialog opens |
| SpecialtiesAdmin.SpecialtiesTab.HandleSubmit | src/components/admin/SpecialtiesTab.tsx:64-114 | one update or one insert of Written; the list is refetched only on success; saving ends false |
| SpecialtiesAdmin.SpecialtiesTab.HandleDelete | src/components/admin/SpecialtiesTab.tsx:126-162 | no query when not confirmed; no delete when the lookup returns a professional; otherwise one delete by id, and a refetch only on its success |
| SpecialtiesAdmin.GuardProtectsUsedSpecialty | src/components/admin/SpecialtiesTab.tsx:130-142 | with a successful lookup, a specialty some professional uses is never deleted |
| SpecialtiesAdmin.FailedLookupSkipsGuard | src/components/admin/SpecialtiesTab.tsx:130-147 | a failed lookup returns no data, so the delete is sent even for a specialty in use |
| HealthPlansAdmin.FormRoundTrips | src/components/admin/HealthPlansTab.tsx:71-126 | form and row carry exactly name, is_particular and is_active: both round trips are the identity |
| HealthPlansAdmin.ToggleTwice | src/components/admin/HealthPlansTab.tsx:151-155 | flipping a plan's is_active and flipping it back restores the table |
| HealthPlansAdmin.PlanLeIsTotalPreorder | src/components/admin/HealthPlansTab.tsx:40-43 | the requested order (is_particular descending, then name) is a total preorder |
| HealthPlansAdmin.OrderedListShape | src/components/admin/HealthPlansTab.tsx:40-43 | in that order every private-pay plan precedes every other, and each group is in name order |
| HealthPlansAdmin.HealthPlansTab.constructor | src/components/admin/HealthPlansTab.tsx:21-35 | the initial state: no plans, loading, empty form |
| HealthPlansAdmin.HealthPlansTab.FetchHealthPlans | src/components/admin/HealthPlansTab.tsx:38-55 | on success the list is every plan, as a permutation, in the requested order; on error it is unchanged and a toast shows; loading ends |
| HealthPlansAdmin.Ordered | src/components/admin/HealthPlansTab.tsx:38-42 | the listed plans are a permutation of the rows, sorted by is_particular descending and then name |
| HealthPlansAdmin.AllPlansSelected | src/components/admin/HealthPlansTab.tsx:38-40 | the unfiltered select returns every row, in table order |
| HealthPlansAdmin.HealthPlansTab.ResetForm | src/components/admin/HealthPlansTab.tsx:57-64 | name "", is_particular false, is_active true, nothing edited; nothing else changes |
| HealthPlansAdmin.HealthPlansTab.HandleEdit | src/components/admin/HealthPlansTab.tsx:118-126 | the three fields copied unchanged; the plan becomes the edited one and the dialog opens |
| HealthPlansAdmin.HealthPlansTab.StartSaving | src/components/admin/HealthPlansTab.tsx:66-68 | saving is true while the save is pending, nothing else changes |
| HealthPlansAdmin.HealthPlansTab.WritePlan | src/components/admin/HealthPlansTab.tsx:71-103 | one update of the edited id or one insert, writing exactly the three form fields; a failed write leaves the rows unchanged |
| HealthPlansAdmin.HealthPlansTab.FinishSaving | src/components/admin/HealthPlansTab.tsx:69-115 | one update or insert of exactly the three fields; on success the form resets, the dialog closes and the list reloads in order; saving ends false |
| HealthPlansAdmin.HealthPlansTab.HandleSubmit | src/components/admin/HealthPlansTab.tsx:66-116 | the whole submit: update or insert then a reload (rows and requests), the form reset, the reloaded list sorted and a permutation of the table, the success toast or the reload's error toast; on failure only the write request, form/list unchanged and "Erro ao salvar"; saving false afterwards |
| HealthPlansAdmin.HealthPlansTab.ToggleActive | src/components/admin/HealthPlansTab.tsx:151-167 | one update writing only is_active := not the plan's value; on success a reload that gives the sorted plans with the toast untouched, or keeps the plans with "Erro ao carregar planos", and ends loading; on failure the plans and loading are kept and "Erro ao atualizar" carries the message |
| HealthPlansAdmin.ToggleOnlyActive | src/components/admin/HealthPlansTab.tsx:151-155 | the toggle changes that plan's is_active and no other column or row |
| Storage.FileExt | src/lib/storage.ts:14 | the extension holds no `.`; a name without `.` is its own extension |
| Storage.FileNameKeepsExt | src/lib/storage.ts:14-16 | the generated object name and path end in the chosen file's extension |
| Storage.PathInFolder | src/lib/storage.ts:16 | the object path starts with the folder and `/` |
| Storage.Store.constructor | src/lib/storage.ts:19-24 | the store holds exactly the given objects |
| Storage.Store.Upload | src/lib/storage.ts:19-24 | with `upsert: false` an upload to a taken path fails with "already exists" and changes nothing; otherwise a successful upload adds exactly that object |
| Storage.Store.Remove | src/lib/storage.ts:50-52 | a successful removal deletes exactly that object; a failed one changes nothing |
| Storage.UploadImage | src/lib/storage.ts:8-39 | succeeds if and only if the service accepts and the path is free; then returns that path and its public URL and adds exactly that object; an error is rethrown as "Erro no upload: " + its message, with nothing stored |
| Storage.UploadBanner | src/lib/storage.ts:41-47 | the same outcome as the image upload, in the banners folder by default: success if and only if accepted and the path is free, the store changed only on success, and a rejected upload rethrown as "Erro no upload: " plus the message |
| Storage.DeleteImage | src/lib/storage.ts:49-57 | success removes exactly that object; an error leaves the store and reports "Erro ao deletar imagem: " + its message |
| ImageUploadField.SizeBoundary | src/components/ui/image-upload.tsx:38 | an image of exactly the limit is accepted, one byte more is refused; the default limit is 5242880 bytes |
| ImageUploadField.ImageUpload.constructor | src/components/ui/image-upload.tsx:17-27 | the preview starts as the value when it is non-empty; not uploading, no calls, no alerts |
| ImageUploadField.ImageUpload.SelectFile | src/components/ui/image-upload.tsx:30-43 | accepted if and only if an `image/` type within the size limit; the type alert wins over the size alert; a refused file changes nothing else; an accepted one starts uploading |
| ImageUploadField.ImageUpload.ReaderLoaded | src/components/ui/image-upload.tsx:47-51 | the preview becomes the file's data URL and nothing else changes |
| ImageUploadField.ImageUpload.UploadSettled | src/components/ui/image-upload.tsx:53-62 | on success `onChange` gets the URL once; on failure one alert, the preview cleared, no `onChange`; uploading ends |
| ImageUploadField.ImageUpload.HandleFileSelect | src/components/ui/image-upload.tsx:30-63 | a file that is not an image gets the type alert, an image over the limit the size alert, and neither calls `onChange`; an accepted file whose upload succeeds reports the URL once with no alert and the preview kept, and one whose upload fails gets the upload alert and a cleared preview; uploading ends |
| ImageUploadField.ImageUpload.HandleRemove | src/components/ui/image-upload.tsx:81-87 | the preview is cleared and `onChange` gets `""` |
| SlideIndex.JsRem | src/components/home/BannerSlider.tsx:82 | JavaScript's `%`: the Euclidean remainder for a non-negative dividend, and always strictly between `-n` and `n` |
| SlideIndex.StepsStayInRange | src/components/home/BannerSlider.tsx:96-102 | from an index in range, next and previous stay in range and move one place around the circle, wrapping at both ends |
| SlideIndex.PreviousUndoesNext | src/components/home/BannerSlider.tsx:96-102 | previous undoes next and next undoes previous |
| SlideIndex.AdvanceIsMod | src/components/home/BannerSlider.tsx:81-83 | `k` steps forward from an index in range land on `(i + k) mod n` |
| SlideIndex.NextOfRemainder | src/components/home/BannerSlider.tsx:82 | one step from `a mod n` lands on `(a + 1) mod n` |
| SlideIndex.ModUnique | src/components/home/BannerSlider.tsx:82 | the remainder of `q * n + r` with `0 <= r < n` is `r` |
| SlideIndex.FullTurn | src/components/home/BannerSlider.tsx:81-83 | `n` steps forward return to the start |
| HomeBannerSlider.BannerSlider.constructor | src/components/home/BannerSlider.tsx:74-75 | the first slide, autoplay on, no resume pending |
| HomeBannerSlider.BannerSlider.GoToSlide | src/components/home/BannerSlider.tsx:88-93 | the index exactly as given, autoplay off, one more resume scheduled |
| HomeBannerSlider.BannerSlider.GoToPrevious | src/components/home/BannerSlider.tsx:95-99 | one slide back, from the first to the last; stays a valid slide; autoplay off, one more resume scheduled |
| HomeBannerSlider.BannerSlider.GoToNext | src/components/home/BannerSlider.tsx:101-105 | one slide on, from the last to the first; stays a valid slide; autoplay off, one more resume scheduled |
| HomeBannerSlider.BannerSlider.Tick | src/components/home/BannerSlider.tsx:78-86 | the interval, present only while autoplaying, moves one slide on and keeps a valid slide |
| HomeBannerSlider.BannerSlider.ResumeFires | src/components/home/BannerSlider.tsx:92 | a pending timeout turns autoplay back on and leaves the slide |
| HomeBannerSlider.NextThenPrevious | src/components/home/BannerSlider.tsx:95-105 | the two arrows undo each other on the five slides |
| HomeBannerSlider.FiveNextsReturn | src/components/home/BannerSlider.tsx:81-83 | five steps on return to the starting slide |
| ProfileBannerCarousel.FilteredBanners | src/components/shared/BannerCarousel.tsx:14 | exactly the non-blank entries, in order |
| ProfileBannerCarousel.BlankEntriesHidden | src/components/shared/BannerCarousel.tsx:14-26 | a list of blank entries shows nothing, so the component renders nothing |
| ProfileBannerCarousel.BannerCarousel.constructor | src/components/shared/BannerCarousel.tsx:10-12 | index 0 and autoplay on; a valid index whenever something is rendered |
| ProfileBannerCarousel.BannerCarousel.GoToPrevious | src/components/shared/BannerCarousel.tsx:28-31 | one place back over the shown banners, staying valid; autoplay off for good |
| ProfileBannerCarousel.BannerCarousel.GoToNext | src/components/shared/BannerCarousel.tsx:33-36 | one place on over the shown banners, staying valid; autoplay off for good |
| ProfileBannerCarousel.BannerCarousel.GoToSlide | src/components/shared/BannerCarousel.tsx:38-41 | the chosen dot's index; autoplay off for good |
| ProfileBannerCarousel.BannerCarousel.Tick | src/components/shared/BannerCarousel.tsx:16-24 | moves one place on only while autoplaying with more than one banner shown; otherwise nothing moves; the index stays valid |
| PublicLists.OrderedByName | src/pages/Clinics.tsx:37 | `.order("name")`: the same rows (as a multiset and as a set), in ascending name order |
| PublicLists.ByNameIsTotalPreorder | src/pages/Clinics.tsx:37 | name order is total and transitive |
| ClinicsPage.FetchClinics | src/pages/Clinics.tsx:31-50 | on success exactly the active clinics, as a permutation, in name order and no toast; on error an empty list and the "Erro ao carregar clínicas" toast; loading ends either way |
| ClinicsPage.FilteredClinics | src/pages/Clinics.tsx:52-56 | a clinic is shown if and only if its name or city contains the term ignoring case; the shown list keeps list order |
| ClinicsPage.EmptySearchKeepsAll | src/pages/Clinics.tsx:52-56 | an empty search shows every clinic |
| ClinicsPage.ListedClinics | src/pages/Clinics.tsx:31-56 | after a successful fetch the page shows exactly the active matching clinics, in name order |
| DoctorsPage.FetchDoctors | src/pages/Doctors.tsx:31-50 | on success exactly the active doctors, as a permutation, in name order and no toast; on error an empty list and the "Erro ao carregar médicos" toast; loading ends either way |
| DoctorsPage.ListedDoctors | src/pages/Doctors.tsx:31-56 | after a successful fetch the page shows exactly the active doctors whose name or specialty matches, in name order |
| DoctorsPage.EmptySearchListsAllActive | src/pages/Doctors.tsx:52-56 | an empty search shows every active doctor |
| ProfessionalsPage.LocationKey | src/pages/Professionals.tsx:74 | the key is the second `", "` part when it is non-empty, else the whole location; it always occurs in the location |
| ProfessionalsPage.LocationKeyWhole | src/pages/Professionals.tsx:74 | a location without `", "` is its own key |
| ProfessionalsPage.Locations | src/pages/Professionals.tsx:72-76 | the offered locations are distinct, sorted, and are exactly the keys of the listed professionals |
| ProfessionalsPage.FilteredProfessionals | src/pages/Professionals.tsx:78-92 | a professional is shown if and only if search, specialty and location filters all pass; list order kept |
| ProfessionalsPage.ClearedShowsAll | src/pages/Professionals.tsx:94-98 | after clearing the filters every professional is shown |
| ProfessionalsPage.LocationChoiceKeepsOwners | src/pages/Professionals.tsx:74-88 | choosing a professional's own location key never hides that professional |
| ProfessionalsPage.FetchData | src/pages/Professionals.tsx:37-70 | each list, when its query returns data, becomes that data in name order; otherwise it keeps its value; loading ends |
| ProfessionalCard.HeadsAreFirstLetters | src/components/cards/ProfessionalCard.tsx:26-29 | the joined word heads are the first letters of the non-empty words, one each, in order |
| ProfessionalCard.Initials | src/components/cards/ProfessionalCard.tsx:25-32 | the initials have at most two characters |
| ProfessionalCard.InitialsOfTwoWords | src/components/cards/ProfessionalCard.tsx:25-32 | for "First Last" the initials are the upper-cased first letters of both words |
| ProfessionalCard.WhatsAppUrl | src/components/cards/ProfessionalCard.tsx:91 | the link is `https://wa.me/` followed by the number's digits and nothing else |
| ProfessionalCard.WhatsAppUrlIgnoresFormatting | src/components/cards/ProfessionalCard.tsx:91 | numbers with the same digits give the same link, and stripping is idempotent |
| ProfessionalCard.SpecialtyLabel | src/components/cards/ProfessionalCard.tsx:53-55 | the badge is never empty: the specialty name when filled, otherwise "Sem especialidade" |
| ProfessionalCard.WhatsAppButton | src/components/cards/ProfessionalCard.tsx:86-96 | the button appears if and only if the number is filled, and opens the digits-only link |
| ProfessionalProfile.Lookup | src/pages/ProfessionalProfile.tsx:13-30 | the first entry with the route's id, if and only if one exists; none without a route id |
| ProfessionalProfile.WhatsAppLink | src/pages/ProfessionalProfile.tsx:41-47 | the link starts with `https://wa.me/`, the number's digits and `?text=` |
| ProfessionalProfile.EmailLink | src/pages/ProfessionalProfile.tsx:53-57 | a mailto link if and only if the address is filled |
| ContactBox.ContactInfo.constructor | src/components/auth/ContactInfo.tsx:21-23 | no contact, loading, no error |
| ContactBox.ContactInfo.FetchContactInfo | src/components/auth/ContactInfo.tsx:29-47 | the first row becomes the contact; no rows sets the not-found message; an error sets its message; a failure keeps the old contact; loading ends |
| ContactBox.WhatsAppAction | src/components/auth/ContactInfo.tsx:49-57 | a link if and only if the WhatsApp number is filled, starting with the digits-only `wa.me` link and `?text=` |
| ContactBox.PhoneAction | src/components/auth/ContactInfo.tsx:59-63 | a `tel:` link if and only if the phone is filled |
| ContactBox.MailtoLink | src/components/auth/ContactInfo.tsx:65-69 | the `mailto:` link shared by both e-mail buttons, present if and only if the address is filled |
| ContactBox.EmailAction | src/components/auth/ContactInfo.tsx:65-69 | a `mailto:` link if and only if the address is filled |
| ContactBox.NoticeIffNoAction | src/components/auth/ContactInfo.tsx:155-161 | the "no public contact" notice shows exactly when none of the three actions does anything |
| NewsDetailPage.NewsDetail.constructor | src/pages/NewsDetail.tsx:21-22 | no article, loading |
| NewsDetailPage.NewsDetail.Open | src/pages/NewsDetail.tsx:24-46 | without a slug nothing happens; otherwise one select, and the article becomes the unique active match with that slug, or keeps its value when the reply fails or there is no single match; loading ends; no row changes |
| NewsDetailPage.ShowsTheOnlyMatch | src/pages/NewsDetail.tsx:32-37 | with exactly one active article of that slug, `.single()` yields that article |
| NewsDetailPage.NoMatchNotFound | src/pages/NewsDetail.tsx:32-37 | with no active article of that slug, `.single()` finds no row |
| NewsDetailPage.Paragraphs | src/pages/NewsDetail.tsx:136-138 | no paragraphs without content; otherwise joining them with line breaks gives the content back, there is one more paragraph than line breaks, and none holds a line break |
| JoinRows.Element | src/pages/ClinicDetail.tsx:78 | a record if and only if the relation is an object or a non-empty array: the object, or the array's first element |
| JoinRows.Defined | src/pages/ClinicDetail.tsx:81 | `.filter(Boolean)` keeps at most as many entries as it is given |
| JoinRows.DefinedAppend | src/pages/ClinicDetail.tsx:81 | `.filter(Boolean)` distributes over concatenation |
| JoinRows.Flatten | src/pages/ClinicDetail.tsx:75-81 | at most one record per join row; a record is listed if and only if some join row yields it |
| JoinRows.FlattenAppend | src/pages/ClinicDetail.tsx:75-81 | flattening distributes over concatenation of join rows |
| JoinRows.FlattenOfObjects | src/pages/DoctorDetail.tsx:74-80 | when every join row embeds an object, the result is those objects, row for row |
| JoinRows.FlattenIsChain | src/pages/ClinicDetail.tsx:75-81 | the recursive definition equals the filter, map and filter chain the pages write |
| ClinicDetailPage.ProfessionalsOf | src/pages/ClinicDetail.tsx:59-81 | at most one professional per join row of the clinic; a professional is listed if and only if one of the clinic's join rows embeds it |
| ClinicDetailPage.ClinicDetail.constructor | src/pages/ClinicDetail.tsx:35-37 | no clinic, no professionals, loading |
| ClinicDetailPage.ClinicDetail.Open | src/pages/ClinicDetail.tsx:39-90 | without a slug nothing is queried; a single active match becomes the clinic and only then are its join rows requested; the list is refreshed only when that request succeeds; loading ends; no row changes |
| ClinicDetailPage.ListsEveryLinkedProfessional | src/pages/ClinicDetail.tsx:75-83 | when every join row of the clinic embeds an object, the list is those professionals, in join-row order |
| DoctorDetailPage.ClinicsOf | src/pages/DoctorDetail.tsx:58-80 | at most one clinic per join row of the doctor; a clinic is listed if and only if one of the doctor's join rows embeds it |
| DoctorDetailPage.DoctorDetail.constructor | src/pages/DoctorDetail.tsx:33-35 | no doctor, no clinics, loading |
| DoctorDetailPage.DoctorDetail.Open | src/pages/DoctorDetail.tsx:37-89 | without a slug nothing is queried; a single active match becomes the doctor and only then are its join rows requested; the list is refreshed only when that request succeeds; loading ends; no row changes |
| DoctorDetailPage.ListsEveryLinkedClinic | src/pages/DoctorDetail.tsx:74-82 | when every join row of the doctor embeds an object, the list is those clinics, in join-row order |

## Left out

- Network transport, the query builder and authentication are not modelled: tables and the bucket are in-memory values, and every call's outcome is a parameter. Admin.tsx's session gating is not part of this model.
- The clinics, professionals, doctors, news and health-plans tabs' plain `handleDelete` (confirm, delete by id, toast, refetch) is not modelled. `Backend.Table.Remove` and `Backend.RemovedById` give its effect on the table; the partners and specialties deletes are modelled in full.
- The admin tabs' list loaders (`fetchClinics`, `fetchProfessionals`, `fetchDoctors`, `fetchNews`, `fetchPartners`, `fetchSpecialties`) are counted as requested refetches (`reloads`) rather than modelled, except `HealthPlansAdmin.HealthPlansTab.FetchHealthPlans`. Their order and joins are not modelled.
- Only the health-plans tab models the saving flag being true while a save is pending, through `StartSaving`. The other tabs' handlers are one atomic step: their contracts state the flag afterwards only.
- `resizeImage` (canvas decoding and floating-point scaling), the doctors tab's own `uploadImage` and the partners tab's inline logo upload are not modelled. Their random file names come from `Math.random`.
- In `uploadImage` the clock value, the random token and the public URL are parameters.
- Timers are not modelled: intervals and timeouts are events the page delivers (`Tick`, `ResumeFires`), and their timing is not modelled.
- The file reader is not modelled: its data URL is an input, and its completion is an event (`ReaderLoaded`) that may come before or after the upload settles.
- `alert`, `confirm`, `window.open` and toasts are not modelled: confirm is a boolean input, alerts and `onChange` calls are recorded in order, toasts are values, and opened links are returned URLs.
- `encodeURIComponent` is not modelled: the encoded greeting of the WhatsApp link is a parameter.
- Text.Lower, Text.Upper: case mapping covers ASCII and the Latin-1 range (every Latin-1 character whose case changes, including `ß`, `ÿ` and the micro sign) and leaves characters beyond Latin-1 unchanged, not full Unicode.
- Slug.NfdChar: decomposition covers only the precomposed lower-case Latin-1 letters, which are what remains after lower-casing Portuguese names.
- Seqs.StrLe: name order is by character code. The backend's collation of accented names is not modelled.
- ProfessionalCard.Initials: `word[0]` is taken as the first character, not the first UTF-16 code unit, so a name starting outside the Basic Multilingual Plane differs.
- ProfessionalProfile.Lookup: the sample list is a parameter, not the file's literal data. The page's own copy of `getInitials` (src/pages/ProfessionalProfile.tsx:32-39) is the same definition as the card's, so it is `ProfessionalCard.Initials`.
- ProfessionalProfile.PhoneLink has no contract: the phone link is used as stored, unchecked.
- ContactBox.ContactInfo.FetchContactInfo: a successful call with no data is treated as an empty list, which is what the code does with it.
- ProfileBannerCarousel.BannerCarousel: the `banners` property is fixed for the life of one instance; a parent that changes it is not modelled.
- NewsCarousel, the other home sections, the debug and test components, and `test-storage.ts` are not part of this model. They are presentation or backend probes.
- Dates are not modelled: locale date formatting and `published_at` ordering on the public pages.
