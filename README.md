# Catalogue editor: store and controller state in Dafny

A model of the two parts of the seat-cover catalogue editor that hold its logic:

- `CatalogueStore` keeps an array of brands, each with a list of models, in one
  `localStorage` entry. Every operation loads the whole array, changes it, and
  writes it back. The model is the class `Store.CatalogueStore`. It keeps its
  storage key, which defaults to `STORAGE_KEY`, and one mutable field: the
  storage entry, as a `Slot`. A `Slot` is absent, unparseable, not an array, or
  an array of brands. JSON serialisation is treated as an exact round trip.
- `CatalogueApp` holds the state behind the page: the loaded brands, the search
  filter, the active brand, the modal record and the text of the form-error
  slot. Its handlers validate the modal form, call the store, and merge the
  result back into the state. The model is the class `App.CatalogueApp`, with
  the DOM removed.

Files:

- `wrappers.dfy`: `Option` and `Result`.
- `text.dfy`: stand-ins for `toLowerCase`, `trim` and `includes`.
- `js_array.dfy`: `findIndex` and `filter` as functions, and when a key is
  unique across a list.
- `store.dfy`: the records, the storage slot, the array operations behind each
  store method, and the store class.
- `forms.dfy`: the form inputs and messages, `collectModelFields`, the
  case-insensitive uniqueness checks, and what a brand or model submission
  produces. It also holds the catalogue's data invariant (`CatalogueOk`) and
  the proofs that every accepted submission and every delete keep it.
- `app.dfy`: filtering, the active brand, and the app class.

Inputs the program takes from the browser are parameters:

- `validUrl` stands for `isValidUrl`, which relies on the WHATWG URL parser.
- `confirmed` is the answer to `window.confirm`.
- `freshBrandId`, `freshModelIds` (one per field group) and `freshModelId`
  are the ids `createId` would return.
- The form arrives as a `BrandFields` value or a list of `ModelFields`.
  Seats are already parsed by `Number.parseInt(…, 10)`, with `None` for NaN.

Three choices shape the model:

- `App.CatalogueApp.Valid()` requires the state's brands to equal what the
  store holds. Each handler writes the store first and applies the same change
  to the state, so every handler keeps this.
- `filtered` holds positions into `brands`, not copies. In the source,
  `filteredBrands` shares brand objects with `brands`. The model handlers
  (`persistModelCreate`, `persistModelUpdate`, `handleModelDelete`) change a
  brand's `models` in place and do not recompute the filter. So the filtered
  list shows the changed models, but which brands it holds stays the same
  until the next search or brand change. `FilteredBrands()` reads the brands
  through these positions.
- Store failures are `Result` values. `saveBrand`, `addModel`, `updateModel`
  and `deleteModel` throw, and the awaiting handler then stops without
  touching the state. A model on a brand whose `models` is missing (or not an
  array) gets `ModelsNotArray`: `updateModel` and `deleteModel` call an array
  method on it and throw a `TypeError`.

The model follows the code on two points that are easy to get wrong:

- `submitBrandForm` checks for a duplicate brand name before duplicate model
  names (`catalogue-app.js:424-432`).
- `updateModel` on a brand without a models list fails with a `TypeError`.
  It does not fail with "Model not found".

## Model

| member | source | states |
|---|---|---|
| Store.CatalogueStore.constructor | assets/js/modules/catalogue-store.js:1-6 | the store keeps its storage key, `klw-catalogue-brands-v1` unless another is given, and the entry under it |
| Store.Decode | assets/js/modules/catalogue-store.js:71-82 | what `_load` returns for each kind of entry: the stored array, or the empty list for an absent, unparseable or non-array entry; `Load` is proved to return it |
| Store.Upsert | assets/js/modules/catalogue-store.js:19-26 | the array `saveBrand` writes back: the first brand with the id replaced, or the brand appended; characterised by `UpsertReplacesOrAppends` and `UpsertThenFind` |
| Store.WithoutBrand | assets/js/modules/catalogue-store.js:31-32 | the array `deleteBrand` writes back: the loaded array filtered by id; characterised by `WithoutBrandRemoves` and `WithoutBrandCutsOne` |
| Store.AppendModel | assets/js/modules/catalogue-store.js:38-42 | the array `addModel` writes back, or "Brand not found"; characterised by `AppendModelChangesOneBrand` |
| Store.ReplaceModel | assets/js/modules/catalogue-store.js:48-53 | the array `updateModel` writes back, or its three errors; characterised by `ReplaceModelChangesOneModel` |
| Store.RemoveModel | assets/js/modules/catalogue-store.js:59-62 | the array `deleteModel` writes back, or its two errors; characterised by `RemoveModelChangesOneBrand` and `RemoveModelCutsOne` |
| Store.CatalogueStore.Load | assets/js/modules/catalogue-store.js:71-82 | an absent, unparseable or non-array entry loads as the empty list; a stored array loads as itself |
| Store.CatalogueStore.Persist | assets/js/modules/catalogue-store.js:84-90 | the entry afterwards holds exactly the given array |
| Store.CatalogueStore.GetBrands | assets/js/modules/catalogue-store.js:8-10 | returns what loading the entry gives |
| Store.CatalogueStore.SetBrands | assets/js/modules/catalogue-store.js:12-15 | an array is stored and handed back unchanged (set then get round trip); a non-array stores and returns the empty list |
| Store.CatalogueStore.SaveBrand | assets/js/modules/catalogue-store.js:17-28 | a brand without an id fails with the "brand with id required" error and leaves storage untouched; otherwise storage becomes the upsert by id of the loaded array |
| Store.UpsertReplacesOrAppends | assets/js/modules/catalogue-store.js:19-27 | an existing id: the first brand with it is replaced in place and the length is kept; a new id: the brand is appended; every other entry keeps its place and value |
| Store.UpsertThenFind | assets/js/modules/catalogue-store.js:17-28 | after saving, looking the id up finds exactly the saved record |
| Store.UpsertIdempotent | assets/js/modules/catalogue-store.js:17-28 | saving the same brand twice equals saving it once |
| Store.UpsertKeepsDistinctIds | assets/js/modules/catalogue-store.js:17-28 | saving keeps brand ids unique |
| Store.CatalogueStore.DeleteBrand | assets/js/modules/catalogue-store.js:30-35 | storage and the returned array are the loaded array without the brands with that id |
| Store.WithoutBrandRemoves | assets/js/modules/catalogue-store.js:30-35 | no brand with the id remains, every other brand is kept, nothing new appears, and an absent id changes nothing |
| Store.WithoutBrandCutsOne | assets/js/modules/catalogue-store.js:30-35 | with unique ids, deleting cuts out exactly that brand's record and keeps the others in their original order |
| Store.WithoutBrandKeepsDistinctIds | assets/js/modules/catalogue-store.js:30-35 | deleting keeps brand ids unique |
| Store.CatalogueStore.AddModel | assets/js/modules/catalogue-store.js:37-45 | an unknown brand fails with "Brand not found" and leaves storage untouched; otherwise storage holds the array with the model appended and the model is returned |
| Store.AppendModelChangesOneBrand | assets/js/modules/catalogue-store.js:37-45 | fails exactly when no brand has the id; otherwise only the first such brand changes, and its models (a missing list counting as empty) gain the model at the end |
| Store.CatalogueStore.UpdateModel | assets/js/modules/catalogue-store.js:47-56 | an unknown brand, a missing models array or an unknown model id fails with storage untouched; otherwise storage holds the replaced model |
| Store.ReplaceModelChangesOneModel | assets/js/modules/catalogue-store.js:47-56 | succeeds exactly when the first brand with the id has a models array holding the model id; then exactly the first model with that id is replaced, the model count is kept, and nothing else changes |
| Store.CatalogueStore.DeleteModel | assets/js/modules/catalogue-store.js:58-65 | an unknown brand or a missing models array fails with storage untouched; otherwise storage holds the filtered list and the brand's remaining models are returned |
| Store.RemoveModelChangesOneBrand | assets/js/modules/catalogue-store.js:58-65 | succeeds exactly when the brand exists with a models array; then the brand keeps its id, name and logo, its remaining models all come from its old list, no model with the id remains, every other model is kept, an absent id changes nothing, and other brands are untouched |
| Store.RemoveModelCutsOne | assets/js/modules/catalogue-store.js:58-65 | with unique model ids, deleting a model cuts exactly its record out of its brand's list and keeps the other models in order |
| Store.CatalogueStore.ClearAll | assets/js/modules/catalogue-store.js:67-69 | the entry is removed, so loading gives the empty list |
| Text.TrimDropsOuterSpace | assets/js/modules/catalogue-app.js:397-398 | the `trim` the form inputs go through returns a part of the input that neither starts nor ends with white space, and everything the input holds around it is white space, so only white space is removed |
| Forms.GroupError | assets/js/modules/catalogue-app.js:536-563 | the checks on one field group in the code's order: a name, then a positive seat count, then a valid image URL; used by `CollectedReportsFirstFailure` |
| Forms.Collected | assets/js/modules/catalogue-app.js:517-572 | an accepted form yields one model per field group, and exactly one group when at least one is required and a single model is expected |
| Forms.CollectedReportsFirstFailure | assets/js/modules/catalogue-app.js:517-572 | acceptance means at least one group when required and every group passing; a rejection carries "no models", or the error of the first failing group with all earlier groups passing, or "exactly one model" with every group passing |
| Forms.CollectedDraftsAreValid | assets/js/modules/catalogue-app.js:536-563 | every model read from an accepted form keeps its group's id and has a trimmed non-empty name, the parsed positive seat count and a trimmed valid image URL |
| Forms.CollectModelFields | assets/js/modules/catalogue-app.js:517-572 | the loop over the field groups returns exactly the result of `Collected`, stopping at the first failing group |
| Forms.HasDuplicateModelNames | assets/js/modules/catalogue-app.js:733-743 | true exactly when two submitted models have equal lower-cased names, that is, when the names are not unique ignoring case |
| Forms.IsDuplicateBrandName | assets/js/modules/catalogue-app.js:726-731 | some brand other than the one being edited has the name ignoring case; `OwnNameIsNoDuplicate`, `BrandAcceptedIffChecksPass`, `DuplicateBrandReportedFirst` and `AcceptedBrandIsWellFormed` use it, and `BrandSubmissionKeepsCatalogue` builds on the last |
| Forms.DuplicateBrandNameIgnoresCase | assets/js/modules/catalogue-app.js:726-731 | for ASCII letters, the duplicate-name check gives the same answer for a name typed in upper case |
| Forms.OwnNameIsNoDuplicate | assets/js/modules/catalogue-app.js:726-731 | with unique names, an edited brand may keep its own name; the same name for a new brand is a duplicate, and for ASCII letters also when typed in upper case |
| Forms.Normalize | assets/js/modules/catalogue-app.js:417-420 | `normalizedModels`: each collected model keeps its group's id or takes the new id made for it; `BrandAcceptedIffChecksPass` gives the result group by group |
| Forms.ExistingBrandId | assets/js/modules/catalogue-app.js:421-422 | the id the duplicate check skips: the edited brand's in edit mode, none when creating |
| Forms.NewBrandId | assets/js/modules/catalogue-app.js:434-437 | a submitted brand keeps the edited brand's id when there is one, else takes a new id |
| Forms.BrandSubmission | assets/js/modules/catalogue-app.js:396-447 | the error `submitBrandForm` shows or the brand it saves; characterised by `BrandAcceptedIffChecksPass` and `DuplicateBrandReportedFirst` |
| Forms.BrandAcceptedIffChecksPass | assets/js/modules/catalogue-app.js:396-447 | a brand is accepted exactly when the name, logo, logo URL, field groups, brand-name and model-name checks all pass; it is then the trimmed input with the edited brand's id or a new one, and, in group order, one model per group carrying the group's id or a new one, its trimmed name, its parsed seat count and its trimmed image URL |
| Forms.DuplicateBrandReportedFirst | assets/js/modules/catalogue-app.js:421-432 | once the fields pass, a duplicate brand name is the error shown, whether or not model names also clash |
| Forms.BrandSubmissionKeepsCatalogue | assets/js/modules/catalogue-app.js:396-462 | an accepted brand, merged by id, keeps ids unique, brand names unique ignoring case and every brand well formed, given a non-empty new brand id and pairwise distinct model ids after normalising, counting both the ids the groups already carry and the new ones |
| Forms.AcceptedBrandIsWellFormed | assets/js/modules/catalogue-app.js:396-447 | an accepted brand has an id, a name, a valid logo and models with unique ids and case-insensitively unique names, each valid; its id is the edited brand's or the new one, and its name passed the duplicate check |
| Forms.UpsertKeepsCatalogue | assets/js/modules/catalogue-store.js:17-28 | merging a well-formed brand by id keeps the invariant when no brand with another id has its name ignoring case |
| Forms.SiblingConflict | assets/js/modules/catalogue-app.js:476-480 | some model under the brand has the name ignoring case, the edited model excepted in edit mode; `OwnModelNameIsNoConflict` shows an edit keeping its name raises none |
| Forms.ModelSubmission | assets/js/modules/catalogue-app.js:464-495 | what `submitModelForm` does: show an error, return silently, or append or update a model; characterised by `AcceptedModelHasNoSibling` |
| Forms.AcceptedModelHasNoSibling | assets/js/modules/catalogue-app.js:464-495 | an accepted model is valid and targets an existing brand; in create mode it has the new id and no model under the brand has its name ignoring case; in edit mode it keeps the modal's model id and only the edited model may share its name; a sibling clash on an existing target brand is rejected as "already listed under" that brand |
| Forms.ModelSubmissionKeepsCatalogue | assets/js/modules/catalogue-app.js:464-515 | appending an accepted new model, or replacing with an accepted edit, keeps the catalogue invariant, given that a new model id is new |
| Forms.AppendedModelKeepsCatalogue | assets/js/modules/catalogue-store.js:37-45 | appending a valid model whose id and lower-cased name are new under the brand keeps the invariant |
| Forms.ReplacedModelKeepsCatalogue | assets/js/modules/catalogue-store.js:47-56 | replacing a model by a valid one with the same id keeps the invariant when no other sibling has its name ignoring case |
| Forms.WithoutBrandKeepsCatalogue | assets/js/modules/catalogue-store.js:30-35 | deleting a brand keeps the catalogue invariant |
| Forms.RemoveModelKeepsCatalogue | assets/js/modules/catalogue-store.js:58-65 | deleting a model keeps the catalogue invariant |
| Forms.EmptyGroup | assets/js/modules/catalogue-app.js:323-343 | the field group `addModelField()` adds with its default data: no model id, empty name and image, and a seat input that parses as not a number |
| Forms.ModelGroup | assets/js/modules/catalogue-app.js:323-343 | the field group `addModelField(model)` fills in for a stored model: its id (none when empty), name, seat count and interior image |
| Forms.BrandPrefill | assets/js/modules/catalogue-app.js:244-259 | the brand form `openBrandModal` fills in: the edited brand's values with a group per model, or a blank form; `EditBrandUnchangedRoundTrip` shows it reads back as the same brand |
| Forms.ModelPrefill | assets/js/modules/catalogue-app.js:266-289 | the model form `openModelModal` fills in: the edited model's values, or one empty group; `EditModelUnchangedRoundTrip` shows it reads back as the same model |
| Forms.EditBrandUnchangedRoundTrip | assets/js/modules/catalogue-app.js:232-263 | opening a stored brand for editing and submitting the filled-in form untouched gives back the same brand, and merging it leaves the catalogue as it was |
| Forms.EditModelUnchangedRoundTrip | assets/js/modules/catalogue-app.js:265-295 | opening a stored model for editing and submitting it untouched hands the same model to the update, which leaves the catalogue as it was |
| Forms.OwnModelNameIsNoConflict | assets/js/modules/catalogue-app.js:476-480 | with unique names under a brand, an edited model keeping its own name raises no sibling conflict |
| Forms.ReplaceWithItself | assets/js/modules/catalogue-store.js:47-56 | with unique ids, updating a stored model with itself succeeds and leaves the array as it was |
| App.MatchesTerm | assets/js/modules/catalogue-app.js:699-705 | a brand matches when its lower-cased name, or one of its models' lower-cased names, contains the term |
| App.MatchPositions | assets/js/modules/catalogue-app.js:694-707 | which brands `updateFilteredBrands` keeps: all for a blank trimmed term, else the matching ones; characterised by `FilteredBrandsAre` |
| App.Positions | assets/js/modules/catalogue-app.js:699-706 | the positions kept are increasing, each brand kept passes the test, and every brand that passes is kept |
| App.PositionsPickFilter | assets/js/modules/catalogue-app.js:699-706 | the brands at the kept positions are exactly what the array `filter` returns, in order |
| App.FilteredBrandsAre | assets/js/modules/catalogue-app.js:694-707 | a blank term after trimming shows a copy of all brands; any other term shows exactly the brands, in order, whose lower-cased name or some model's lower-cased name contains it |
| App.SearchIgnoresCase | assets/js/modules/catalogue-app.js:130-134 | because the term is lower-cased first, typing its ASCII letters in upper case filters the same brands |
| App.EnsuredActive | assets/js/modules/catalogue-app.js:681-692 | no active brand exactly when there are no brands; otherwise the active id names an existing brand, a valid id is kept, and an invalid one becomes the first brand's |
| App.EnsuredActiveIdempotent | assets/js/modules/catalogue-app.js:681-692 | ensuring the active brand a second time changes nothing |
| App.DeleteKeepsActiveValid | assets/js/modules/catalogue-app.js:209-212 | after a brand delete the active id names a remaining brand, and is null only when nothing remains or nothing was active |
| App.CatalogueApp.constructor | assets/js/modules/catalogue-app.js:76-88 | after start-up the state holds what the store holds, the search is empty, all brands are listed, the active brand is ensured and the modal is closed |
| App.CatalogueApp.ErrorText | assets/js/modules/catalogue-app.js:709-715 | the error slot shows the message of the error set by `showFormError`, with the program's exact texts, and is blank exactly when `clearFormError` left no error |
| App.CatalogueApp.LoadBrands | assets/js/modules/catalogue-app.js:83-88 | the state becomes the store's brands, the filter is recomputed and the active brand is ensured |
| App.CatalogueApp.UpdateFilteredBrands | assets/js/modules/catalogue-app.js:694-707 | the filter becomes `MatchPositions` of the brands and the current term, which `FilteredBrandsAre` shows picks all brands or exactly the matching ones |
| App.CatalogueApp.HandleSearch | assets/js/modules/catalogue-app.js:130-134 | the lower-cased term is kept and the filter is recomputed for it |
| App.CatalogueApp.SetActiveBrand | assets/js/modules/catalogue-app.js:674-679 | the given brand becomes active and nothing else changes |
| App.CatalogueApp.EnsureActiveBrand | assets/js/modules/catalogue-app.js:681-692 | the active id becomes `EnsuredActive` of the brands and the previous id |
| App.CatalogueApp.HandleBrandDelete | assets/js/modules/catalogue-app.js:200-216 | an unknown brand or no confirmation changes nothing; otherwise the brand leaves the store and the state, the filter is recomputed, and only if the brand was active does the first remaining brand (or none) become active |
| App.CatalogueApp.HandleModelDelete | assets/js/modules/catalogue-app.js:218-230 | without confirmation, or when the store fails, nothing changes; otherwise the brand's models lose that id in the store and the state, and the filter is not recomputed |
| App.CatalogueApp.OpenBrandModal | assets/js/modules/catalogue-app.js:232-263 | the modal opens on the brand panel with the given mode and brand id and no model id, the error slot is cleared, and the form is filled from the edited brand or left blank |
| App.CatalogueApp.OpenModelModal | assets/js/modules/catalogue-app.js:265-295 | an unknown brand changes nothing; otherwise the modal opens on the model panel for the brand and keeps the model id only when editing a model the brand has |
| App.CatalogueApp.CloseModal | assets/js/modules/catalogue-app.js:363-384 | the modal record is cleared and so is the error slot |
| App.CatalogueApp.SubmitBrandForm | assets/js/modules/catalogue-app.js:396-447 | a rejected form shows its first failing check and leaves store, brands, filter, active brand and modal alone; an accepted brand is merged by id into store and state, becomes active, and the modal closes |
| App.CatalogueApp.PersistBrand | assets/js/modules/catalogue-app.js:449-462 | the state is merged by id with the same rule the store uses, so state and store stay equal; the saved brand becomes active and the modal closes |
| App.CatalogueApp.SubmitModelForm | assets/js/modules/catalogue-app.js:464-495 | a rejected model shows its error with nothing stored; a model without a target brand clears the error slot and changes nothing else; a new model is appended to the brand; an edit replaces the model by id when the store finds it |
| App.CatalogueApp.PersistModelCreate | assets/js/modules/catalogue-app.js:497-504 | store and state both append the model to the first brand with the id, and the modal closes; an unknown brand changes nothing |
| App.CatalogueApp.PersistModelUpdate | assets/js/modules/catalogue-app.js:506-515 | store and state both replace the model with the same id, and the modal closes; when the store fails nothing changes |

## Left out

- Rendering and event wiring are not modelled: `renderBrandList`, `renderActiveBrand`, `renderEmptyState`, `bindEvents`, the click handlers, `addModelField`, the `configureModalFor*` methods, `showModal`, the DOM half of `closeModal`, `handleKeyDown`, `handleModalSubmit`, and `assets/js/app.js`. They change only the page. The display sort uses the locale-dependent `localeCompare`.
- Seeding on start-up (`seed-manager.js`) is not modelled. It fetches seed JSON over the network. Start-up reads the store as it is.
- `createId` (`id.js`) is not modelled. It depends on `Math.random` and `Date.now`, so new ids are parameters.
- `dom-utils.js` is not part of this model. It holds DOM helpers and a seat-label formatter.
- JSON serialisation is treated as an exact round trip. A failed storage write, which the source swallows with a warning, is not modelled: every write succeeds.
- `isValidUrl` is the parameter `validUrl`. It stands for the WHATWG URL parser plus the http/https protocol test.
- `Text.Lower` (`toLowerCase`) and `Text.Upper` (`toUpperCase`) map ASCII letters only, not full Unicode case mapping. `trim` removes exactly the characters JavaScript treats as whitespace.
- Forms.DuplicateBrandNameIgnoresCase, Forms.OwnNameIsNoDuplicate (its upper-case half) and App.SearchIgnoresCase hold for ASCII letters only. With full Unicode mapping they can fail: `"straße".toUpperCase()` is `"STRASSE"`, which lower-cases to `"strasse"`.
- `async`/`await` runs in order. A rejected store promise ends the handler at that point, as an unhandled rejection does.
- Guards that JavaScript's dynamic types need are not modelled. A non-object `brand` passed to `saveBrand` cannot occur with typed records. A `models` value that is non-null but not an array is treated like a missing list. A stored array is assumed to hold brand records: `_load` returns any array unchanged, and `Slot` cannot represent one with other entries.
- App.CatalogueApp.SubmitModelForm: an edit whose modal has no model id does not call the store. It is modelled as clearing the error slot and changing nothing else. The source, after `collectModelFields` has cleared the error slot, calls `updateModel` with a null id, which throws "Model not found" and changes nothing else.
- App.CatalogueApp.OpenBrandModal: opening an unknown brand for editing returns `None` for the form. The source has already set the modal record to open, cleared the error and removed every model field group. It returns before filling the form or showing the backdrop, so the name and logo inputs keep what they held. The model sets the record the same way.
- App.CatalogueApp.SubmitBrandForm requires a non-empty new brand id and one new model id per field group. `createId` always returns a non-empty string, and the source asks for a model id only for groups that lack one.
- Forms.ModelGroup reads a stored seat count back from its input as itself. That holds only for integers whose magnitude is below 10^21. JavaScript renders 1e21 and above as "1e+21", which `parseInt` reads as 1, and truncates a fractional count. `EditBrandUnchangedRoundTrip` and `EditModelUnchangedRoundTrip` rely on it.
- The form-error slot is modelled as the error shown or none, and `ErrorText` gives its text. Focus handling is not modelled.
