/**
 * The state side of the catalogue app: the loaded brands, the search filter,
 * the active brand, the modal, and the handlers that keep the brands in step
 * with the store. Rendering is not modelled; what the handlers change is.
 */
module App {
  import opened Wrappers
  import opened Text
  import opened JsArray
  import opened Store
  import opened Forms

  /** `updateFilteredBrands`'s test: the term occurs in the lower-cased name of the brand or of one of its models. */
  function MatchesTerm(term: string): Brand -> bool {
    (b: Brand) =>
      || Contains(Lower(b.name), term)
      || (b.models.Some? && exists k :: 0 <= k < |b.models.value| && Contains(Lower(b.models.value[k].name), term))
  }

  /** The brands at the given positions, in that order. */
  function Pick(bs: seq<Brand>, ps: seq<nat>): (r: seq<Brand>)
    requires forall k :: 0 <= k < |ps| ==> ps[k] < |bs|
    ensures |r| == |ps|
  {
    seq(|ps|, k requires 0 <= k < |ps| => bs[ps[k]])
  }

  /** Positions from `from` on, in increasing order, of the brands that pass `p`. */
  function Positions(bs: seq<Brand>, p: Brand -> bool, from: nat): (r: seq<nat>)
    requires from <= |bs|
    ensures forall k :: 0 <= k < |r| ==> from <= r[k] < |bs| && p(bs[r[k]])
    ensures forall k, l :: 0 <= k < l < |r| ==> r[k] < r[l]
    ensures forall i :: from <= i < |bs| && p(bs[i]) ==> i in r
    decreases |bs| - from
  {
    if from == |bs| then []
    else if p(bs[from]) then [from] + Positions(bs, p, from + 1)
    else Positions(bs, p, from + 1)
  }

  /** Every position, in order. */
  function AllPositions(n: nat): (r: seq<nat>)
    ensures |r| == n && forall k :: 0 <= k < n ==> r[k] == k
  {
    seq(n, k requires 0 <= k < n => k)
  }

  /** Which brands `updateFilteredBrands` keeps for the search term: all of them for a blank term. */
  function MatchPositions(bs: seq<Brand>, searchTerm: string): seq<nat> {
    var term := Trim(searchTerm);
    if term == "" then AllPositions(|bs|) else Positions(bs, MatchesTerm(term), 0)
  }

  /** The filtered positions pick out exactly the brands JavaScript's `filter` keeps, in the same order. */
  lemma {:induction false} PositionsPickFilter(bs: seq<Brand>, p: Brand -> bool, from: nat)
    requires from <= |bs|
    ensures Pick(bs, Positions(bs, p, from)) == Filter(bs[from..], p)
    decreases |bs| - from
  {
    if from < |bs| {
      PositionsPickFilter(bs, p, from + 1);
      var rest := Positions(bs, p, from + 1);
      assert bs[from..][1..] == bs[from + 1..];
      assert Filter(bs[from..], p) == (if p(bs[from]) then [bs[from]] else []) + Filter(bs[from + 1..], p);
      if p(bs[from]) {
        PickCons(bs, from, rest);
      }
    }
  }

  lemma PickCons(bs: seq<Brand>, x: nat, ps: seq<nat>)
    requires x < |bs| && forall k :: 0 <= k < |ps| ==> ps[k] < |bs|
    ensures Pick(bs, [x] + ps) == [bs[x]] + Pick(bs, ps)
  {
  }

  /**
   * A blank term (after trimming) shows every brand as loaded; any other term
   * shows exactly the brands whose name or one model's name contains it once
   * lower-cased, in catalogue order.
   */
  lemma FilteredBrandsAre(bs: seq<Brand>, searchTerm: string)
    ensures var ps := MatchPositions(bs, searchTerm);
      && (forall k :: 0 <= k < |ps| ==> ps[k] < |bs|)
      && (Trim(searchTerm) == "" ==> Pick(bs, ps) == bs)
      && (Trim(searchTerm) != "" ==> Pick(bs, ps) == Filter(bs, MatchesTerm(Trim(searchTerm))))
  {
    if Trim(searchTerm) != "" {
      PositionsPickFilter(bs, MatchesTerm(Trim(searchTerm)), 0);
      assert bs[0..] == bs;
    }
  }

  /** `handleSearch` lower-cases the term, so the filter ignores the case the user typed in. */
  lemma SearchIgnoresCase(bs: seq<Brand>, term: string)
    ensures MatchPositions(bs, Lower(Upper(term))) == MatchPositions(bs, Lower(term))
  {
    LowerOfUpper(term);
  }

  /**
   * The active brand after `ensureActiveBrand`: none for an empty catalogue,
   * the current one while it is still in the catalogue, else the first brand.
   */
  function EnsuredActive(bs: seq<Brand>, active: Option<string>): (r: Option<string>)
    ensures r.None? <==> bs == []
    ensures r.Some? ==> HasBrand(bs, r.value)
    ensures bs != [] && active.Some? && HasBrand(bs, active.value) ==> r == active
    ensures bs != [] && !(active.Some? && HasBrand(bs, active.value)) ==> r == Some(bs[0].id)
  {
    if |bs| == 0 then None
    else if active.Some? && HasBrand(bs, active.value) then active
    else
      assert HasBrand(bs, bs[0].id);
      Some(bs[0].id)
  }

  /** Ensuring the active brand twice changes nothing the second time. */
  lemma EnsuredActiveIdempotent(bs: seq<Brand>, active: Option<string>)
    ensures EnsuredActive(bs, EnsuredActive(bs, active)) == EnsuredActive(bs, active)
  {
  }

  /**
   * The delete path keeps the active brand valid: the active id that
   * `handleBrandDelete` leaves behind names a remaining brand, and is null
   * only when nothing remains or nothing was active.
   */
  lemma DeleteKeepsActiveValid(bs: seq<Brand>, id: string, active: Option<string>)
    requires active.Some? ==> HasBrand(bs, active.value)
    ensures var rest := WithoutBrand(bs, id);
      var next := if active == Some(id) then (if rest == [] then None else Some(rest[0].id)) else active;
      && (next.Some? ==> HasBrand(rest, next.value))
      && (next.None? ==> rest == [] || active.None?)
  {
    var rest := WithoutBrand(bs, id);
    WithoutBrandRemoves(bs, id);
    if active.Some? && active != Some(id) {
      var k :| 0 <= k < |bs| && bs[k].id == active.value;
      assert bs[k] in rest;
    } else if active == Some(id) && rest != [] {
      assert HasBrand(rest, rest[0].id);
    }
  }

  /**
   * The app object. `filtered` holds positions into `brands` rather than
   * brands: `filteredBrands` shares brand objects with `brands`, so a model
   * added, edited or removed in place shows through the filtered list even
   * though the filter is not recomputed.
   */
  class CatalogueApp {
    const store: CatalogueStore
    var brands: seq<Brand>
    var filtered: seq<nat>
    var searchTerm: string
    var activeBrandId: Option<string>
    var modal: Modal
    var formError: Option<FormError>

    /** The loaded brands are what the store holds, and the filter points into them. */
    predicate Valid()
      reads this, store
    {
      && Decode(store.slot) == brands
      && forall k :: 0 <= k < |filtered| ==> filtered[k] < |brands|
    }

    /** `state.filteredBrands` */
    function FilteredBrands(): seq<Brand>
      reads this
      requires forall k :: 0 <= k < |filtered| ==> filtered[k] < |brands|
    {
      Pick(brands, filtered)
    }

    /**
     * `formErrorEl.textContent`: the message `showFormError` wrote, or nothing
     * after `clearFormError`. Every message is non-empty, so the slot is blank
     * exactly when no error is shown.
     */
    function ErrorText(): (r: string)
      reads this
      ensures r == "" <==> formError.None?
      ensures formError.Some? ==> r == Message(formError.value)
    {
      match formError
      case None => ""
      case Some(e) => Message(e)
    }

    /** `new CatalogueApp(config)` followed by `init()`: the brands come from the store. */
    constructor (store: CatalogueStore)
      ensures this.store == store && Valid()
      ensures brands == Decode(store.slot) && searchTerm == ""
      ensures FilteredBrands() == brands
      ensures activeBrandId == EnsuredActive(brands, None)
      ensures modal == Closed && formError == None
    {
      this.store := store;
      brands := [];
      filtered := [];
      searchTerm := "";
      activeBrandId := None;
      modal := Closed;
      formError := None;
      new;
      LoadBrands();
    }

    /** `loadBrands`: read the store, refilter, make sure a brand is active. */
    method LoadBrands()
      modifies this
      ensures Valid() && brands == Decode(store.slot)
      ensures filtered == MatchPositions(brands, searchTerm)
      ensures activeBrandId == EnsuredActive(brands, old(activeBrandId))
      ensures searchTerm == old(searchTerm) && modal == old(modal) && formError == old(formError)
    {
      brands := store.GetBrands();
      UpdateFilteredBrands();
      EnsureActiveBrand();
    }

    /** `updateFilteredBrands` */
    method UpdateFilteredBrands()
      modifies this
      ensures filtered == MatchPositions(brands, searchTerm)
      ensures forall k :: 0 <= k < |filtered| ==> filtered[k] < |brands|
      ensures brands == old(brands) && searchTerm == old(searchTerm) && activeBrandId == old(activeBrandId)
      ensures modal == old(modal) && formError == old(formError)
    {
      var term := Trim(searchTerm);
      if term == "" {
        filtered := AllPositions(|brands|);
      } else {
        filtered := Positions(brands, MatchesTerm(term), 0);
      }
      FilteredBrandsAre(brands, searchTerm);
    }

    /** `handleSearch`: remember the lower-cased term and refilter. */
    method HandleSearch(term: string)
      requires Valid()
      modifies this
      ensures Valid() && searchTerm == Lower(term)
      ensures filtered == MatchPositions(brands, Lower(term))
      ensures brands == old(brands) && activeBrandId == old(activeBrandId)
      ensures modal == old(modal) && formError == old(formError)
    {
      searchTerm := Lower(term);
      UpdateFilteredBrands();
    }

    /** `setActiveBrand` */
    method SetActiveBrand(brandId: string)
      modifies this
      ensures activeBrandId == Some(brandId)
      ensures brands == old(brands) && filtered == old(filtered) && searchTerm == old(searchTerm)
      ensures modal == old(modal) && formError == old(formError)
    {
      if activeBrandId == Some(brandId) {
        return;
      }
      activeBrandId := Some(brandId);
    }

    /** `ensureActiveBrand` */
    method EnsureActiveBrand()
      modifies this
      ensures activeBrandId == EnsuredActive(brands, old(activeBrandId))
      ensures brands == old(brands) && filtered == old(filtered) && searchTerm == old(searchTerm)
      ensures modal == old(modal) && formError == old(formError)
    {
      if |brands| == 0 {
        activeBrandId := None;
        return;
      }
      if activeBrandId.None? {
        activeBrandId := Some(brands[0].id);
        return;
      }
      var at := FindIndex(brands, IdIs(activeBrandId.value));
      FindBrand(brands, activeBrandId.value);
      if at < 0 {
        activeBrandId := Some(brands[0].id);
      }
    }

    /**
     * `handleBrandDelete`: nothing happens for an unknown brand or when the
     * user does not confirm; otherwise the brand leaves the store and the
     * state, the filter is recomputed, and if it was the active brand the
     * first remaining brand (or none) becomes active.
     */
    method HandleBrandDelete(brandId: string, confirmed: bool)
      requires Valid()
      modifies this, store
      ensures Valid()
      ensures !HasBrand(old(brands), brandId) || !confirmed ==>
        && store.slot == old(store.slot) && brands == old(brands) && filtered == old(filtered)
        && activeBrandId == old(activeBrandId)
      ensures HasBrand(old(brands), brandId) && confirmed ==>
        && brands == WithoutBrand(old(brands), brandId)
        && filtered == MatchPositions(brands, searchTerm)
        && activeBrandId == (if old(activeBrandId) == Some(brandId) then
                               (if brands == [] then None else Some(brands[0].id))
                             else old(activeBrandId))
      ensures searchTerm == old(searchTerm) && modal == old(modal) && formError == old(formError)
    {
      var at := FindIndex(brands, IdIs(brandId));
      FindBrand(brands, brandId);
      if at < 0 || !confirmed {
        return;
      }
      var remaining := store.DeleteBrand(brandId);
      brands := Filter(brands, IdIsNot(brandId));
      UpdateFilteredBrands();
      if activeBrandId == Some(brandId) {
        activeBrandId := if |brands| > 0 then Some(brands[0].id) else None;
      }
    }

    /**
     * `handleModelDelete`: nothing happens for an unknown brand, when the user
     * does not confirm, or when the store fails (the brand has no models
     * array); otherwise the brand keeps its other models, in the store and in
     * the state. The filter is not recomputed.
     */
    method HandleModelDelete(brandId: string, modelId: string, confirmed: bool)
      requires Valid()
      modifies this, store
      ensures Valid() && filtered == old(filtered)
      ensures !confirmed ==> store.slot == old(store.slot) && brands == old(brands)
      ensures confirmed ==> match RemoveModel(old(brands), brandId, modelId)
        case Failure(_) => store.slot == old(store.slot) && brands == old(brands)
        case Success(bs) => brands == bs
      ensures searchTerm == old(searchTerm) && activeBrandId == old(activeBrandId)
      ensures modal == old(modal) && formError == old(formError)
    {
      var at := FindIndex(brands, IdIs(brandId));
      if at < 0 || !confirmed {
        return;
      }
      var r := store.DeleteModel(brandId, modelId);
      if r.Failure? {
        return;
      }
      brands := brands[at := brands[at].(models := Some(Filter(ModelsOf(brands[at]), ModelIdIsNot(modelId))))];
    }

    /** `openBrandModal`: the modal opens on the brand panel, with the error slot cleared. */
    method OpenBrandModal(brandId: Option<string>, mode: Mode) returns (shown: Option<BrandFields>)
      modifies this
      ensures modal == Open(BrandPanel, mode, brandId, None) && formError == None
      ensures shown == BrandPrefill(brands, brandId, mode)
      ensures brands == old(brands) && filtered == old(filtered) && searchTerm == old(searchTerm)
      ensures activeBrandId == old(activeBrandId)
    {
      modal := Open(BrandPanel, mode, brandId, None);
      formError := None;
      shown := BrandPrefill(brands, brandId, mode);
    }

    /**
     * `openModelModal`: nothing happens for an unknown brand; otherwise the
     * modal opens on the model panel for that brand, remembering the model
     * id only when editing a model the brand has.
     */
    method OpenModelModal(brandId: string, modelId: Option<string>, mode: Mode) returns (shown: Option<seq<ModelFields>>)
      modifies this
      ensures !HasBrand(brands, brandId) ==> modal == old(modal) && formError == old(formError) && shown == None
      ensures HasBrand(brands, brandId) ==>
        var ms := ModelsOf(brands[FindIndex(brands, IdIs(brandId))]);
        var keep := mode == Edit && modelId.Some? && HasModel(ms, modelId.value);
        && modal == Open(ModelPanel, mode, Some(brandId), if keep then modelId else None)
        && formError == None
        && shown == ModelPrefill(brands, brandId, modelId, mode)
      ensures brands == old(brands) && filtered == old(filtered) && searchTerm == old(searchTerm)
      ensures activeBrandId == old(activeBrandId)
    {
      shown := None;
      var at := FindIndex(brands, IdIs(brandId));
      FindBrand(brands, brandId);
      if at < 0 {
        return;
      }
      var found: Option<string> := None;
      if mode == Edit && modelId.Some? {
        var ms := ModelsOf(brands[at]);
        var j := FindIndex(ms, ModelIdIs(modelId.value));
        if j >= 0 {
          found := Some(ms[j].id);
        }
      }
      modal := Open(ModelPanel, mode, Some(brandId), found);
      formError := None;
      shown := ModelPrefill(brands, brandId, modelId, mode);
    }

    /** `closeModal` */
    method CloseModal()
      modifies this
      ensures modal == Closed && formError == None
      ensures brands == old(brands) && filtered == old(filtered) && searchTerm == old(searchTerm)
      ensures activeBrandId == old(activeBrandId)
    {
      modal := Closed;
      formError := None;
    }

    /**
     * `submitBrandForm`: a rejected form shows its first failing check and
     * changes nothing else; an accepted brand goes through `persistBrand`.
     * `freshBrandId` and `freshModelIds` are what `createId` would return.
     */
    method SubmitBrandForm(form: BrandFields, validUrl: string -> bool, freshBrandId: string, freshModelIds: seq<string>)
      requires Valid() && |freshModelIds| == |form.groups| && freshBrandId != ""
      modifies this, store
      ensures Valid()
      ensures match BrandSubmission(old(brands), old(modal), form, validUrl, freshBrandId, freshModelIds)
        case Failure(e) =>
          && formError == Some(e) && modal == old(modal) && store.slot == old(store.slot)
          && brands == old(brands) && filtered == old(filtered) && activeBrandId == old(activeBrandId)
        case Success(b) =>
          && brands == Upsert(old(brands), b) && activeBrandId == Some(b.id)
          && filtered == MatchPositions(brands, searchTerm) && modal == Closed && formError == None
      ensures searchTerm == old(searchTerm)
    {
      var name := Trim(form.name);
      var logo := Trim(form.logo);
      if name == "" {
        formError := Some(BrandNameRequired);
        return;
      }
      if logo == "" {
        formError := Some(LogoRequired);
        return;
      }
      if !validUrl(logo) {
        formError := Some(LogoInvalid);
        return;
      }
      var collected := CollectModelFields(form.groups, true, false, validUrl);
      if collected.Failure? {
        formError := Some(collected.error);
        return;
      }
      formError := None;
      var models := Normalize(collected.value, freshModelIds);
      if IsDuplicateBrandName(brands, name, ExistingBrandId(modal)) {
        formError := Some(DuplicateBrandName);
        return;
      }
      var dup := HasDuplicateModelNames(models);
      if dup {
        formError := Some(DuplicateModelNames);
        return;
      }
      PersistBrand(Brand(NewBrandId(modal, freshBrandId), name, logo, Some(models)));
    }

    /**
     * `persistBrand`: the store merges the brand by id, the state does the
     * same, the filter is recomputed, the brand becomes active and the modal
     * closes. A brand without an id is refused by the store and nothing changes.
     */
    method PersistBrand(brand: Brand)
      requires Valid()
      modifies this, store
      ensures Valid()
      ensures brand.id == "" ==>
        && store.slot == old(store.slot) && brands == old(brands) && filtered == old(filtered)
        && activeBrandId == old(activeBrandId) && modal == old(modal) && formError == old(formError)
      ensures brand.id != "" ==>
        && brands == Upsert(old(brands), brand) && activeBrandId == Some(brand.id)
        && filtered == MatchPositions(brands, searchTerm) && modal == Closed && formError == None
      ensures searchTerm == old(searchTerm)
    {
      var saved := store.SaveBrand(brand);
      if saved.Failure? {
        return;
      }
      var at := FindIndex(brands, IdIs(brand.id));
      if at >= 0 {
        brands := brands[at := brand];
      } else {
        brands := brands + [brand];
      }
      UpdateFilteredBrands();
      activeBrandId := Some(brand.id);
      CloseModal();
    }

    /**
     * `submitModelForm`: a rejected model shows its error; a dropped one
     * changes nothing; an accepted one goes to `persistModelCreate` or
     * `persistModelUpdate`. `freshModelId` is what `createId` would return.
     */
    method SubmitModelForm(groups: seq<ModelFields>, validUrl: string -> bool, freshModelId: string)
      requires Valid()
      modifies this, store
      ensures Valid() && filtered == old(filtered)
      ensures match ModelSubmission(old(brands), old(modal), groups, validUrl, freshModelId)
        case Rejected(e) =>
          formError == Some(e) && modal == old(modal) && store.slot == old(store.slot) && brands == old(brands)
        case Dropped =>
          formError == None && modal == old(modal) && store.slot == old(store.slot) && brands == old(brands)
        case AddTo(id, m) =>
          brands == AppendModel(old(brands), id, m).value && modal == Closed && formError == None
        case UpdateIn(id, m) =>
          match ReplaceModel(old(brands), id, m)
          case Failure(_) =>
            formError == None && modal == old(modal) && store.slot == old(store.slot) && brands == old(brands)
          case Success(bs) => brands == bs && modal == Closed && formError == None
      ensures searchTerm == old(searchTerm) && activeBrandId == old(activeBrandId)
    {
      var collected := CollectModelFields(groups, true, true, validUrl);
      if collected.Failure? {
        formError := Some(collected.error);
        return;
      }
      formError := None;
      var d := collected.value[0];
      var target := modal.TargetBrand();
      if target.None? || target.value == "" {
        return;
      }
      var at := FindIndex(brands, IdIs(target.value));
      if at < 0 {
        return;
      }
      if SiblingConflict(brands[at], d.name, modal) {
        formError := Some(AlreadyListed(d.name, brands[at].name));
        return;
      }
      if modal.IsEdit() {
        if modal.TargetModel().None? {
          return;
        }
        PersistModelUpdate(target.value, Model(modal.TargetModel().value, d.name, d.seats, d.interiorImage));
      } else {
        PersistModelCreate(target.value, Model(freshModelId, d.name, d.seats, d.interiorImage));
      }
    }

    /**
     * `persistModelCreate`: the store appends the model to the brand's list
     * (starting one when it is missing) and the state does the same; the
     * modal closes. When the store does not know the brand nothing changes.
     */
    method PersistModelCreate(brandId: string, model: Model)
      requires Valid()
      modifies this, store
      ensures Valid() && filtered == old(filtered)
      ensures match AppendModel(old(brands), brandId, model)
        case Failure(_) =>
          && store.slot == old(store.slot) && brands == old(brands)
          && modal == old(modal) && formError == old(formError)
        case Success(bs) => brands == bs && modal == Closed && formError == None
      ensures searchTerm == old(searchTerm) && activeBrandId == old(activeBrandId)
    {
      var r := store.AddModel(brandId, model);
      if r.Failure? {
        return;
      }
      AppendModelChangesOneBrand(old(brands), brandId, model);
      var at := FindIndex(brands, IdIs(brandId));
      brands := brands[at := brands[at].(models := Some(ModelsOf(brands[at]) + [model]))];
      CloseModal();
    }

    /**
     * `persistModelUpdate`: the store replaces the model with the same id
     * under the brand, and so does the state; the modal closes. When the store
     * fails (unknown brand, no models array, unknown model) nothing changes.
     */
    method PersistModelUpdate(brandId: string, model: Model)
      requires Valid()
      modifies this, store
      ensures Valid() && filtered == old(filtered)
      ensures match ReplaceModel(old(brands), brandId, model)
        case Failure(_) =>
          && store.slot == old(store.slot) && brands == old(brands)
          && modal == old(modal) && formError == old(formError)
        case Success(bs) => brands == bs && modal == Closed && formError == None
      ensures searchTerm == old(searchTerm) && activeBrandId == old(activeBrandId)
    {
      var r := store.UpdateModel(brandId, model);
      if r.Failure? {
        return;
      }
      FindBrand(brands, brandId);
      var at := FindIndex(brands, IdIs(brandId));
      var ms := ModelsOf(brands[at]);
      var j := FindIndex(ms, ModelIdIs(model.id));
      if j >= 0 {
        brands := brands[at := brands[at].(models := Some(ms[j := model]))];
      }
      CloseModal();
    }
  }
}
