/**
 * The checks the catalogue app runs on its modal form before it touches the
 * store: reading the model field groups, the case-insensitive uniqueness
 * checks, and what a brand or model submission turns into. Also the
 * catalogue's data invariant, and that every accepted submission keeps it.
 */
module Forms {
  import opened Wrappers
  import opened Text
  import opened JsArray
  import opened Store

  datatype Panel = BrandPanel | ModelPanel

  datatype Mode = Create | Edit

  /** `state.modal`; Closed is the record with isOpen false and every other field null. */
  datatype Modal = Closed | Open(panel: Panel, mode: Mode, brandId: Option<string>, modelId: Option<string>) {

    /** `modal.mode === "edit"` */
    predicate IsEdit() {
      Open? && mode == Edit
    }

    /** `modal.brandId` */
    function TargetBrand(): Option<string> {
      if Open? then brandId else None
    }

    /** `modal.modelId` */
    function TargetModel(): Option<string> {
      if Open? then modelId else None
    }
  }

  /** The messages the form's error slot shows. */
  datatype FormError =
    | BrandNameRequired
    | LogoRequired
    | LogoInvalid
    | NoModels
    | ModelNameRequired
    | SeatsNotPositive
    | ImageInvalid
    | NotExactlyOneModel
    | DuplicateBrandName
    | DuplicateModelNames
    | AlreadyListed(modelName: string, brandName: string)

  function Message(e: FormError): string {
    match e
    case BrandNameRequired => "Brand name is required."
    case LogoRequired => "Brand logo URL is required."
    case LogoInvalid => "Please provide a valid logo URL (https://)."
    case NoModels => "Please add at least one model."
    case ModelNameRequired => "Each model requires a name."
    case SeatsNotPositive => "Seats should be a positive number."
    case ImageInvalid => "Provide a valid interior image URL (https://)."
    case NotExactlyOneModel => "Exactly one model is required."
    case DuplicateBrandName => "Brand name already exists in the catalogue."
    case DuplicateModelNames => "Model names within a brand must be unique."
    case AlreadyListed(m, b) => m + " is already listed under " + b + "."
  }

  /**
   * One model field group of the form, as typed: `modelId` is the group's
   * `data-model-id`, `seats` what `Number.parseInt(value, 10)` gave (None for NaN).
   */
  datatype ModelFields = ModelFields(modelId: Option<string>, name: string, seats: Option<int>, image: string)

  /** The brand form: name and logo inputs and the model field groups, in order. */
  datatype BrandFields = BrandFields(name: string, logo: string, groups: seq<ModelFields>)

  /** A model read from a field group; the id is missing for a group added in the form. */
  datatype ModelDraft = ModelDraft(id: Option<string>, name: string, seats: int, interiorImage: string)

  /** The checks on one field group, in the order the code makes them. */
  function GroupError(g: ModelFields, validUrl: string -> bool): Option<FormError> {
    if Trim(g.name) == "" then Some(ModelNameRequired)
    else if g.seats.None? || g.seats.value <= 0 then Some(SeatsNotPositive)
    else if Trim(g.image) == "" || !validUrl(Trim(g.image)) then Some(ImageInvalid)
    else None
  }

  function Failing(validUrl: string -> bool): ModelFields -> bool {
    (g: ModelFields) => GroupError(g, validUrl).Some?
  }

  function Draft(g: ModelFields): ModelDraft {
    ModelDraft(g.modelId, Trim(g.name), g.seats.GetOr(0), Trim(g.image))
  }

  function Drafts(gs: seq<ModelFields>): (ds: seq<ModelDraft>)
    ensures |ds| == |gs|
  {
    seq(|gs|, i requires 0 <= i < |gs| => Draft(gs[i]))
  }

  /** What `collectModelFields` returns, or the error it shows. */
  function Collected(gs: seq<ModelFields>, requireAtLeastOne: bool, expectSingle: bool, validUrl: string -> bool)
    : (r: Result<seq<ModelDraft>, FormError>)
    ensures r.Success? ==> |r.value| == |gs|
    ensures r.Success? && requireAtLeastOne && expectSingle ==> |gs| == 1
  {
    if |gs| == 0 then
      if requireAtLeastOne then Failure(NoModels) else Success([])
    else
      var k := FindIndex(gs, Failing(validUrl));
      if k >= 0 then Failure(GroupError(gs[k], validUrl).value)
      else if expectSingle && |gs| != 1 then Failure(NotExactlyOneModel)
      else Success(Drafts(gs))
  }

  /**
   * First failure wins: a rejection carries the error of the first group that
   * fails a check, and the count checks come only around the per-group ones.
   */
  lemma CollectedReportsFirstFailure(gs: seq<ModelFields>, requireAtLeastOne: bool, expectSingle: bool, validUrl: string -> bool)
    ensures match Collected(gs, requireAtLeastOne, expectSingle, validUrl)
      case Success(_) =>
        (|gs| > 0 || !requireAtLeastOne) && forall i :: 0 <= i < |gs| ==> GroupError(gs[i], validUrl).None?
      case Failure(e) =>
        || (|gs| == 0 && requireAtLeastOne && e == NoModels)
        || (exists i :: 0 <= i < |gs| && GroupError(gs[i], validUrl) == Some(e)
              && forall j :: 0 <= j < i ==> GroupError(gs[j], validUrl).None?)
        || (expectSingle && |gs| > 1 && e == NotExactlyOneModel
              && forall i :: 0 <= i < |gs| ==> GroupError(gs[i], validUrl).None?)
  {
    if |gs| > 0 {
      var k := FindIndex(gs, Failing(validUrl));
      if k >= 0 {
        assert forall j :: 0 <= j < k ==> !Failing(validUrl)(gs[j]);
      } else {
        assert forall j :: 0 <= j < |gs| ==> !Failing(validUrl)(gs[j]);
      }
    }
  }

  /** Every model read from an accepted form has a name, a positive seat count and a valid image URL. */
  lemma CollectedDraftsAreValid(gs: seq<ModelFields>, requireAtLeastOne: bool, expectSingle: bool, validUrl: string -> bool)
    requires Collected(gs, requireAtLeastOne, expectSingle, validUrl).Success?
    ensures var ds := Collected(gs, requireAtLeastOne, expectSingle, validUrl).value;
      forall i :: 0 <= i < |ds| ==>
        && ds[i].id == gs[i].modelId && ds[i].name == Trim(gs[i].name) && ds[i].name != ""
        && Some(ds[i].seats) == gs[i].seats && ds[i].seats > 0
        && ds[i].interiorImage == Trim(gs[i].image) && validUrl(ds[i].interiorImage)
  {
    CollectedReportsFirstFailure(gs, requireAtLeastOne, expectSingle, validUrl);
  }

  lemma CollectedStopsAt(gs: seq<ModelFields>, i: nat, requireAtLeastOne: bool, expectSingle: bool, validUrl: string -> bool)
    requires i < |gs| && GroupError(gs[i], validUrl).Some?
    requires forall k :: 0 <= k < i ==> !Failing(validUrl)(gs[k])
    ensures Collected(gs, requireAtLeastOne, expectSingle, validUrl) == Failure(GroupError(gs[i], validUrl).value)
  {
    FindIndexIsFirst(gs, Failing(validUrl), i);
  }

  lemma CollectedPasses(gs: seq<ModelFields>, requireAtLeastOne: bool, expectSingle: bool, validUrl: string -> bool)
    requires |gs| > 0
    requires forall k :: 0 <= k < |gs| ==> !Failing(validUrl)(gs[k])
    ensures Collected(gs, requireAtLeastOne, expectSingle, validUrl)
      == if expectSingle && |gs| != 1 then Failure(NotExactlyOneModel) else Success(Drafts(gs))
  {
  }

  /** `collectModelFields`: reads the groups in order and stops at the first one that fails. */
  method CollectModelFields(groups: seq<ModelFields>, requireAtLeastOne: bool, expectSingle: bool, validUrl: string -> bool)
    returns (r: Result<seq<ModelDraft>, FormError>)
    ensures r == Collected(groups, requireAtLeastOne, expectSingle, validUrl)
  {
    if |groups| == 0 {
      if requireAtLeastOne {
        return Failure(NoModels);
      }
      return Success([]);
    }
    var models: seq<ModelDraft> := [];
    for i := 0 to |groups|
      invariant |models| == i
      invariant forall k :: 0 <= k < i ==> !Failing(validUrl)(groups[k])
      invariant models == Drafts(groups[..i])
    {
      var g := groups[i];
      var name := Trim(g.name);
      var seats := g.seats;
      var image := Trim(g.image);
      if GroupError(g, validUrl).Some? {
        CollectedStopsAt(groups, i, requireAtLeastOne, expectSingle, validUrl);
      }
      if name == "" {
        return Failure(ModelNameRequired);
      }
      if seats.None? || seats.value <= 0 {
        return Failure(SeatsNotPositive);
      }
      if image == "" || !validUrl(image) {
        return Failure(ImageInvalid);
      }
      assert groups[..i + 1] == groups[..i] + [g];
      models := models + [ModelDraft(g.modelId, name, seats.value, image)];
    }
    assert groups[..|groups|] == groups;
    CollectedPasses(groups, requireAtLeastOne, expectSingle, validUrl);
    if expectSingle && |models| != 1 {
      return Failure(NotExactlyOneModel);
    }
    r := Success(models);
  }

  function ModelNameKey(m: Model): string { Lower(m.name) }

  function BrandNameKey(b: Brand): string { Lower(b.name) }

  /** `hasDuplicateModelNames`: true exactly when two entries have the same lower-cased name. */
  method HasDuplicateModelNames(models: seq<Model>) returns (dup: bool)
    ensures dup <==> exists i, j :: 0 <= i < j < |models| && Lower(models[i].name) == Lower(models[j].name)
    ensures dup <==> !Distinct(models, ModelNameKey)
  {
    var seen: set<string> := {};
    for i := 0 to |models|
      invariant seen == set k | 0 <= k < i :: Lower(models[k].name)
      invariant forall k, l :: 0 <= k < l < i ==> Lower(models[k].name) != Lower(models[l].name)
    {
      var key := Lower(models[i].name);
      if key in seen {
        ghost var k :| 0 <= k < i && Lower(models[k].name) == key;
        assert ModelNameKey(models[k]) == ModelNameKey(models[i]);
        return true;
      }
      seen := seen + {key};
    }
    return false;
  }

  /** `isDuplicateBrandName(name, currentId)`: a brand with another id has the name, ignoring case. */
  predicate IsDuplicateBrandName(brands: seq<Brand>, name: string, currentId: Option<string>) {
    exists i :: 0 <= i < |brands| && Lower(brands[i].name) == Lower(name) && Some(brands[i].id) != currentId
  }

  /** The duplicate check does not depend on the case a name is typed in. */
  lemma DuplicateBrandNameIgnoresCase(brands: seq<Brand>, name: string, currentId: Option<string>)
    ensures IsDuplicateBrandName(brands, Upper(name), currentId) == IsDuplicateBrandName(brands, name, currentId)
  {
    LowerOfUpper(name);
  }

  /**
   * In a catalogue whose names are unique, a brand being edited may keep its
   * own name, while a new brand with that name, in any case, is a duplicate.
   */
  lemma OwnNameIsNoDuplicate(brands: seq<Brand>, i: nat)
    requires i < |brands| && Distinct(brands, BrandNameKey)
    ensures !IsDuplicateBrandName(brands, brands[i].name, Some(brands[i].id))
    ensures IsDuplicateBrandName(brands, Upper(brands[i].name), None)
  {
    LowerOfUpper(brands[i].name);
    assert Lower(brands[i].name) == Lower(Upper(brands[i].name));
    forall j | 0 <= j < |brands| && j != i
      ensures Lower(brands[j].name) != Lower(brands[i].name)
    {
      assert BrandNameKey(brands[j]) != BrandNameKey(brands[i]);
    }
  }

  /** The id a submitted brand gets: the edited brand's id, or a new one. */
  function NewBrandId(modal: Modal, freshBrandId: string): string {
    if modal.IsEdit() && modal.TargetBrand().Some? && modal.TargetBrand().value != "" then modal.TargetBrand().value
    else freshBrandId
  }

  /** The id the duplicate check skips: the edited brand's, none when creating. */
  function ExistingBrandId(modal: Modal): Option<string> {
    if modal.IsEdit() then modal.TargetBrand() else None
  }

  /** The submitted models with ids: a group's own id, else the new id made for it. */
  function Normalize(ds: seq<ModelDraft>, freshModelIds: seq<string>): (ms: seq<Model>)
    requires |freshModelIds| == |ds|
  {
    seq(|ds|, i requires 0 <= i < |ds| => Model(ds[i].id.GetOr(freshModelIds[i]), ds[i].name, ds[i].seats, ds[i].interiorImage))
  }

  /**
   * What `submitBrandForm` does with the form: the error it shows, or the
   * brand it hands to `persistBrand`.
   */
  function BrandSubmission(brands: seq<Brand>, modal: Modal, form: BrandFields, validUrl: string -> bool,
                           freshBrandId: string, freshModelIds: seq<string>): Result<Brand, FormError>
    requires |freshModelIds| == |form.groups|
  {
    var name := Trim(form.name);
    var logo := Trim(form.logo);
    if name == "" then Failure(BrandNameRequired)
    else if logo == "" then Failure(LogoRequired)
    else if !validUrl(logo) then Failure(LogoInvalid)
    else match Collected(form.groups, true, false, validUrl)
      case Failure(e) => Failure(e)
      case Success(ds) =>
        var models := Normalize(ds, freshModelIds);
        if IsDuplicateBrandName(brands, name, ExistingBrandId(modal)) then Failure(DuplicateBrandName)
        else if !Distinct(models, ModelNameKey) then Failure(DuplicateModelNames)
        else Success(Brand(NewBrandId(modal, freshBrandId), name, logo, Some(models)))
  }

  /**
   * A brand is accepted exactly when every check passes, and then it is the
   * trimmed input with one model per field group, in order, each keeping its
   * group's model id or taking a new one.
   */
  lemma BrandAcceptedIffChecksPass(brands: seq<Brand>, modal: Modal, form: BrandFields, validUrl: string -> bool,
                                   freshBrandId: string, freshModelIds: seq<string>)
    requires |freshModelIds| == |form.groups|
    ensures var r := BrandSubmission(brands, modal, form, validUrl, freshBrandId, freshModelIds);
      r.Success? <==>
        && Trim(form.name) != "" && Trim(form.logo) != "" && validUrl(Trim(form.logo))
        && |form.groups| > 0
        && (forall i :: 0 <= i < |form.groups| ==> GroupError(form.groups[i], validUrl).None?)
        && !IsDuplicateBrandName(brands, Trim(form.name), ExistingBrandId(modal))
        && Distinct(Normalize(Drafts(form.groups), freshModelIds), ModelNameKey)
    ensures var r := BrandSubmission(brands, modal, form, validUrl, freshBrandId, freshModelIds);
      r.Success? ==>
        && r.value.id == NewBrandId(modal, freshBrandId) && r.value.name == Trim(form.name)
        && r.value.logoUrl == Trim(form.logo) && r.value.models.Some?
        && |r.value.models.value| == |form.groups|
        && forall k :: 0 <= k < |form.groups| ==>
             r.value.models.value[k] == Model(form.groups[k].modelId.GetOr(freshModelIds[k]), Trim(form.groups[k].name),
                                              form.groups[k].seats.value, Trim(form.groups[k].image))
  {
    CollectedReportsFirstFailure(form.groups, true, false, validUrl);
    if Collected(form.groups, true, false, validUrl).Success? {
      CollectedDraftsAreValid(form.groups, true, false, validUrl);
    }
  }

  /**
   * The code checks the brand name before the model names: a form that fails
   * both is rejected as a duplicate brand.
   */
  lemma DuplicateBrandReportedFirst(brands: seq<Brand>, modal: Modal, form: BrandFields, validUrl: string -> bool,
                                    freshBrandId: string, freshModelIds: seq<string>)
    requires |freshModelIds| == |form.groups|
    requires Trim(form.name) != "" && Trim(form.logo) != "" && validUrl(Trim(form.logo))
    requires Collected(form.groups, true, false, validUrl).Success?
    requires IsDuplicateBrandName(brands, Trim(form.name), ExistingBrandId(modal))
    ensures BrandSubmission(brands, modal, form, validUrl, freshBrandId, freshModelIds) == Failure(DuplicateBrandName)
  {
  }

  /** One model of the catalogue satisfies the data model's field rules. */
  predicate ModelOk(m: Model, validUrl: string -> bool) {
    m.name != "" && m.seats > 0 && validUrl(m.interiorImage)
  }

  /** A brand has an id, a name, a valid logo, and models with unique ids and case-insensitively unique names. */
  predicate BrandOk(b: Brand, validUrl: string -> bool) {
    && b.id != "" && b.name != "" && validUrl(b.logoUrl) && b.models.Some?
    && Distinct(b.models.value, ModelId) && Distinct(b.models.value, ModelNameKey)
    && forall k :: 0 <= k < |b.models.value| ==> ModelOk(b.models.value[k], validUrl)
  }

  /** The data invariant: brand ids unique, brand names unique ignoring case, every brand well formed. */
  predicate CatalogueOk(bs: seq<Brand>, validUrl: string -> bool) {
    && Distinct(bs, BrandId) && Distinct(bs, BrandNameKey)
    && forall i :: 0 <= i < |bs| ==> BrandOk(bs[i], validUrl)
  }

  /** Writing a brand back with its id and name unchanged keeps the invariant, when the new record is well formed. */
  lemma SameKeysKeepCatalogue(bs: seq<Brand>, i: nat, nb: Brand, validUrl: string -> bool)
    requires CatalogueOk(bs, validUrl) && i < |bs|
    requires nb.id == bs[i].id && nb.name == bs[i].name && BrandOk(nb, validUrl)
    ensures CatalogueOk(bs[i := nb], validUrl)
  {
    UpdateKeepsDistinct(bs, i, nb, BrandId);
    UpdateKeepsDistinct(bs, i, nb, BrandNameKey);
  }

  /**
   * Every brand the brand form accepts keeps the catalogue's invariant when it
   * is merged in by id, provided the new ids are new: the duplicate-name check
   * skips only the brand that the upsert then replaces.
   */
  lemma BrandSubmissionKeepsCatalogue(brands: seq<Brand>, modal: Modal, form: BrandFields, validUrl: string -> bool,
                                      freshBrandId: string, freshModelIds: seq<string>)
    requires |freshModelIds| == |form.groups|
    requires CatalogueOk(brands, validUrl)
    requires freshBrandId != ""
    requires forall i, j :: 0 <= i < j < |form.groups| ==>
      form.groups[i].modelId.GetOr(freshModelIds[i]) != form.groups[j].modelId.GetOr(freshModelIds[j])
    requires BrandSubmission(brands, modal, form, validUrl, freshBrandId, freshModelIds).Success?
    ensures CatalogueOk(Upsert(brands, BrandSubmission(brands, modal, form, validUrl, freshBrandId, freshModelIds).value), validUrl)
  {
    var b := BrandSubmission(brands, modal, form, validUrl, freshBrandId, freshModelIds).value;
    AcceptedBrandIsWellFormed(brands, modal, form, validUrl, freshBrandId, freshModelIds);
    forall j | 0 <= j < |brands| && brands[j].id != b.id
      ensures Lower(brands[j].name) != Lower(b.name)
    {
      assert BrandOk(brands[j], validUrl);
      assert Some(brands[j].id) != ExistingBrandId(modal);
    }
    UpsertKeepsCatalogue(brands, b, validUrl);
  }

  /**
   * An accepted brand is well formed, carries the edited brand's id or the new
   * one, and passed the duplicate-name check.
   */
  lemma AcceptedBrandIsWellFormed(brands: seq<Brand>, modal: Modal, form: BrandFields, validUrl: string -> bool,
                                  freshBrandId: string, freshModelIds: seq<string>)
    requires |freshModelIds| == |form.groups|
    requires freshBrandId != ""
    requires forall i, j :: 0 <= i < j < |form.groups| ==>
      form.groups[i].modelId.GetOr(freshModelIds[i]) != form.groups[j].modelId.GetOr(freshModelIds[j])
    requires BrandSubmission(brands, modal, form, validUrl, freshBrandId, freshModelIds).Success?
    ensures var b := BrandSubmission(brands, modal, form, validUrl, freshBrandId, freshModelIds).value;
      && BrandOk(b, validUrl) && b.id == NewBrandId(modal, freshBrandId)
      && !IsDuplicateBrandName(brands, b.name, ExistingBrandId(modal))
  {
    var b := BrandSubmission(brands, modal, form, validUrl, freshBrandId, freshModelIds).value;
    CollectedDraftsAreValid(form.groups, true, false, validUrl);
    var ds := Collected(form.groups, true, false, validUrl).value;
    var models := Normalize(ds, freshModelIds);
    assert b == Brand(NewBrandId(modal, freshBrandId), Trim(form.name), Trim(form.logo), Some(models));
    forall i, j | 0 <= i < j < |models|
      ensures ModelId(models[i]) != ModelId(models[j])
    {
      assert models[i].id == form.groups[i].modelId.GetOr(freshModelIds[i]);
      assert models[j].id == form.groups[j].modelId.GetOr(freshModelIds[j]);
    }
  }

  /** Merging a well-formed brand by id keeps the invariant when no brand with another id has its name. */
  lemma UpsertKeepsCatalogue(brands: seq<Brand>, b: Brand, validUrl: string -> bool)
    requires CatalogueOk(brands, validUrl) && BrandOk(b, validUrl)
    requires forall j :: 0 <= j < |brands| && brands[j].id != b.id ==> Lower(brands[j].name) != Lower(b.name)
    ensures CatalogueOk(Upsert(brands, b), validUrl)
  {
    var i := FindIndex(brands, IdIs(b.id));
    FindBrand(brands, b.id);
    forall j | 0 <= j < |brands| && j != i
      ensures BrandNameKey(brands[j]) != BrandNameKey(b)
    {
      if i >= 0 {
        assert BrandId(brands[j]) != BrandId(brands[i]);
      } else {
        assert !IdIs(b.id)(brands[j]);
      }
    }
    UpsertKeepsDistinctIds(brands, b);
    if i >= 0 {
      UpdateKeepsDistinct(brands, i, b, BrandNameKey);
    } else {
      AppendKeepsDistinct(brands, b, BrandNameKey);
    }
  }

  /** `submitModelForm`'s conflict: a sibling under the brand has the name, ignoring case; when editing, the edited model is no sibling. */
  predicate SiblingConflict(brand: Brand, name: string, modal: Modal) {
    exists k :: 0 <= k < |ModelsOf(brand)| && Lower(ModelsOf(brand)[k].name) == Lower(name)
      && (!modal.IsEdit() || Some(ModelsOf(brand)[k].id) != modal.TargetModel())
  }

  /**
   * What `submitModelForm` does: show an error, return without a message, or
   * hand a model to `persistModelCreate` or `persistModelUpdate`.
   */
  datatype ModelOutcome =
    | Rejected(error: FormError)
    | Dropped
    | AddTo(brandId: string, model: Model)
    | UpdateIn(brandId: string, model: Model)

  /**
   * The outcome of submitting the model form. An edit whose modal has no model
   * id is Dropped: the store would look for a model with a null id and throw
   * "Model not found", leaving everything as it was.
   */
  function ModelSubmission(brands: seq<Brand>, modal: Modal, groups: seq<ModelFields>, validUrl: string -> bool,
                           freshModelId: string): ModelOutcome
  {
    match Collected(groups, true, true, validUrl)
    case Failure(e) => Rejected(e)
    case Success(ds) =>
      var d := ds[0];
      var target := modal.TargetBrand();
      if target.None? || target.value == "" then Dropped
      else
        var i := FindIndex(brands, IdIs(target.value));
        if i < 0 then Dropped
        else if SiblingConflict(brands[i], d.name, modal) then Rejected(AlreadyListed(d.name, brands[i].name))
        else if modal.IsEdit() then
          if modal.TargetModel().Some? then
            UpdateIn(target.value, Model(modal.TargetModel().value, d.name, d.seats, d.interiorImage))
          else Dropped
        else AddTo(target.value, Model(freshModelId, d.name, d.seats, d.interiorImage))
  }

  /**
   * An accepted model is well formed, targets an existing brand, and no
   * sibling there has its name: in create mode no model at all, in edit mode
   * none but the edited one; it gets a new id, or keeps the edited one's.
   */
  lemma AcceptedModelHasNoSibling(brands: seq<Brand>, modal: Modal, groups: seq<ModelFields>, validUrl: string -> bool,
                                  freshModelId: string)
    ensures var o := ModelSubmission(brands, modal, groups, validUrl, freshModelId);
      o.AddTo? ==>
        var ms := ModelsOf(brands[FindIndex(brands, IdIs(o.brandId))]);
        && HasBrand(brands, o.brandId) && modal.TargetBrand() == Some(o.brandId) && !modal.IsEdit()
        && o.model.id == freshModelId && ModelOk(o.model, validUrl)
        && (forall k :: 0 <= k < |ms| ==> Lower(ms[k].name) != Lower(o.model.name))
    ensures var o := ModelSubmission(brands, modal, groups, validUrl, freshModelId);
      o.UpdateIn? ==>
        var ms := ModelsOf(brands[FindIndex(brands, IdIs(o.brandId))]);
        && HasBrand(brands, o.brandId) && modal.TargetBrand() == Some(o.brandId) && modal.IsEdit()
        && modal.TargetModel() == Some(o.model.id) && ModelOk(o.model, validUrl)
        && (forall k :: 0 <= k < |ms| && ms[k].id != o.model.id ==> Lower(ms[k].name) != Lower(o.model.name))
    ensures var o := ModelSubmission(brands, modal, groups, validUrl, freshModelId);
      o.Rejected? && Collected(groups, true, true, validUrl).Success? ==> o.error.AlreadyListed?
    ensures var c := Collected(groups, true, true, validUrl);
      var t := modal.TargetBrand();
      c.Success? && t.Some? && t.value != "" && FindIndex(brands, IdIs(t.value)) >= 0
      && SiblingConflict(brands[FindIndex(brands, IdIs(t.value))], c.value[0].name, modal) ==>
        ModelSubmission(brands, modal, groups, validUrl, freshModelId)
          == Rejected(AlreadyListed(c.value[0].name, brands[FindIndex(brands, IdIs(t.value))].name))
  {
    if Collected(groups, true, true, validUrl).Success? {
      CollectedDraftsAreValid(groups, true, true, validUrl);
      var target := modal.TargetBrand();
      if target.Some? {
        FindBrand(brands, target.value);
      }
    }
  }

  /**
   * Every model the model form accepts keeps the catalogue's invariant once the
   * store has merged it, provided a new model id is new.
   */
  lemma ModelSubmissionKeepsCatalogue(brands: seq<Brand>, modal: Modal, groups: seq<ModelFields>, validUrl: string -> bool,
                                      freshModelId: string)
    requires CatalogueOk(brands, validUrl)
    requires forall i :: 0 <= i < |brands| ==> !HasModel(ModelsOf(brands[i]), freshModelId)
    ensures var o := ModelSubmission(brands, modal, groups, validUrl, freshModelId);
      o.AddTo? ==>
        AppendModel(brands, o.brandId, o.model).Success? && CatalogueOk(AppendModel(brands, o.brandId, o.model).value, validUrl)
    ensures var o := ModelSubmission(brands, modal, groups, validUrl, freshModelId);
      o.UpdateIn? && ReplaceModel(brands, o.brandId, o.model).Success? ==>
        CatalogueOk(ReplaceModel(brands, o.brandId, o.model).value, validUrl)
  {
    AcceptedModelHasNoSibling(brands, modal, groups, validUrl, freshModelId);
    var o := ModelSubmission(brands, modal, groups, validUrl, freshModelId);
    if o.AddTo? {
      AppendModelChangesOneBrand(brands, o.brandId, o.model);
      AppendedModelKeepsCatalogue(brands, FindIndex(brands, IdIs(o.brandId)), o.model, validUrl);
    } else if o.UpdateIn? && ReplaceModel(brands, o.brandId, o.model).Success? {
      ReplaceModelChangesOneModel(brands, o.brandId, o.model);
      var i := FindIndex(brands, IdIs(o.brandId));
      ReplacedModelKeepsCatalogue(brands, i, FindIndex(ModelsOf(brands[i]), ModelIdIs(o.model.id)), o.model, validUrl);
    }
  }

  /** A valid model whose id and name are new under its brand can be appended to it. */
  lemma AppendedModelKeepsCatalogue(brands: seq<Brand>, i: nat, m: Model, validUrl: string -> bool)
    requires CatalogueOk(brands, validUrl) && i < |brands| && ModelOk(m, validUrl)
    requires forall k :: 0 <= k < |ModelsOf(brands[i])| ==>
      ModelsOf(brands[i])[k].id != m.id && Lower(ModelsOf(brands[i])[k].name) != Lower(m.name)
    ensures CatalogueOk(brands[i := brands[i].(models := Some(ModelsOf(brands[i]) + [m]))], validUrl)
  {
    var ms := ModelsOf(brands[i]);
    assert BrandOk(brands[i], validUrl);
    AppendKeepsDistinct(ms, m, ModelId);
    AppendKeepsDistinct(ms, m, ModelNameKey);
    SameKeysKeepCatalogue(brands, i, brands[i].(models := Some(ms + [m])), validUrl);
  }

  /** A valid model can replace the one with its id when no other sibling has its name. */
  lemma ReplacedModelKeepsCatalogue(brands: seq<Brand>, i: nat, j: nat, m: Model, validUrl: string -> bool)
    requires CatalogueOk(brands, validUrl) && i < |brands| && j < |ModelsOf(brands[i])| && ModelOk(m, validUrl)
    requires ModelsOf(brands[i])[j].id == m.id
    requires forall k :: 0 <= k < |ModelsOf(brands[i])| && ModelsOf(brands[i])[k].id != m.id ==>
      Lower(ModelsOf(brands[i])[k].name) != Lower(m.name)
    ensures CatalogueOk(brands[i := brands[i].(models := Some(ModelsOf(brands[i])[j := m]))], validUrl)
  {
    var ms := ModelsOf(brands[i]);
    assert BrandOk(brands[i], validUrl);
    forall k | 0 <= k < |ms| && k != j
      ensures ModelId(ms[k]) != ModelId(m) && ModelNameKey(ms[k]) != ModelNameKey(m)
    {
      assert ModelId(ms[k]) != ModelId(ms[j]);
    }
    UpdateKeepsDistinct(ms, j, m, ModelId);
    UpdateKeepsDistinct(ms, j, m, ModelNameKey);
    SameKeysKeepCatalogue(brands, i, brands[i].(models := Some(ms[j := m])), validUrl);
  }

  /** Deleting a brand keeps the catalogue's invariant. */
  lemma WithoutBrandKeepsCatalogue(bs: seq<Brand>, id: string, validUrl: string -> bool)
    requires CatalogueOk(bs, validUrl)
    ensures CatalogueOk(WithoutBrand(bs, id), validUrl)
  {
    FilterKeepsDistinct(bs, IdIsNot(id), BrandId);
    FilterKeepsDistinct(bs, IdIsNot(id), BrandNameKey);
  }

  /** Deleting a model keeps the catalogue's invariant. */
  lemma RemoveModelKeepsCatalogue(bs: seq<Brand>, brandId: string, modelId: string, validUrl: string -> bool)
    requires CatalogueOk(bs, validUrl)
    ensures RemoveModel(bs, brandId, modelId).Success? ==> CatalogueOk(RemoveModel(bs, brandId, modelId).value, validUrl)
  {
    var i := FindIndex(bs, IdIs(brandId));
    if i >= 0 && bs[i].models.Some? {
      var ms := bs[i].models.value;
      assert BrandOk(bs[i], validUrl);
      FilterKeepsDistinct(ms, ModelIdIsNot(modelId), ModelId);
      FilterKeepsDistinct(ms, ModelIdIsNot(modelId), ModelNameKey);
      SameKeysKeepCatalogue(bs, i, bs[i].(models := Some(Filter(ms, ModelIdIsNot(modelId)))), validUrl);
    }
  }

  /** A fresh field group as `addModelField()` adds it: no id, empty inputs, seats not a number. */
  function EmptyGroup(): ModelFields {
    ModelFields(None, "", None, "")
  }

  /** The field group `addModelField(model)` fills in for a stored model. */
  function ModelGroup(m: Model): ModelFields {
    ModelFields(if m.id == "" then None else Some(m.id), m.name, Some(m.seats), m.interiorImage)
  }

  /**
   * The brand form as `openBrandModal` leaves it: the edited brand's values
   * with a group per model (one empty group when it has none), or a blank form
   * with one empty group. None when editing an unknown brand: the handler
   * returns before filling the form or showing the modal.
   */
  function BrandPrefill(brands: seq<Brand>, brandId: Option<string>, mode: Mode): Option<BrandFields> {
    if mode == Edit && brandId.Some? && brandId.value != "" then
      var i := FindIndex(brands, IdIs(brandId.value));
      if i < 0 then None
      else
        var ms := ModelsOf(brands[i]);
        Some(BrandFields(brands[i].name, brands[i].logoUrl,
                         if |ms| == 0 then [EmptyGroup()] else seq(|ms|, k requires 0 <= k < |ms| => ModelGroup(ms[k]))))
    else Some(BrandFields("", "", [EmptyGroup()]))
  }

  /**
   * The model form as `openModelModal` leaves it: the edited model's values,
   * or one empty group. None for an unknown brand, where nothing happens.
   */
  function ModelPrefill(brands: seq<Brand>, brandId: string, modelId: Option<string>, mode: Mode): Option<seq<ModelFields>> {
    var i := FindIndex(brands, IdIs(brandId));
    if i < 0 then None
    else
      var ms := ModelsOf(brands[i]);
      var j := if mode == Edit && modelId.Some? then FindIndex(ms, ModelIdIs(modelId.value)) else -1;
      if j >= 0 then Some([ModelGroup(ms[j])]) else Some([EmptyGroup()])
  }

  /** A model reads back unchanged from its own field group: id set, name and image already trimmed and non-empty. */
  predicate ModelFormShaped(m: Model) {
    m.id != "" && Trim(m.name) == m.name && m.interiorImage != "" && Trim(m.interiorImage) == m.interiorImage
  }

  /** A brand reads back unchanged from its own form. */
  predicate FormShaped(b: Brand) {
    && Trim(b.name) == b.name && b.logoUrl != "" && Trim(b.logoUrl) == b.logoUrl
    && |ModelsOf(b)| > 0 && forall k :: 0 <= k < |ModelsOf(b)| ==> ModelFormShaped(ModelsOf(b)[k])
  }

  /** The brand at position i is the first with its id when ids are unique. */
  lemma FindDistinctBrand(brands: seq<Brand>, i: nat)
    requires i < |brands| && Distinct(brands, BrandId)
    ensures FindIndex(brands, IdIs(brands[i].id)) == i
  {
    forall j | 0 <= j < i
      ensures !IdIs(brands[i].id)(brands[j])
    {
      assert BrandId(brands[j]) != BrandId(brands[i]);
    }
    FindIndexIsFirst(brands, IdIs(brands[i].id), i);
  }

  /** The model at position j is the first with its id when ids are unique. */
  lemma FindDistinctModel(ms: seq<Model>, j: nat)
    requires j < |ms| && Distinct(ms, ModelId)
    ensures FindIndex(ms, ModelIdIs(ms[j].id)) == j
  {
    forall k | 0 <= k < j
      ensures !ModelIdIs(ms[j].id)(ms[k])
    {
      assert ModelId(ms[k]) != ModelId(ms[j]);
    }
    FindIndexIsFirst(ms, ModelIdIs(ms[j].id), j);
  }

  /**
   * Opening a brand for editing and saving the form untouched gives back the
   * very same brand, and merging it leaves the catalogue as it was.
   */
  lemma EditBrandUnchangedRoundTrip(brands: seq<Brand>, i: nat, validUrl: string -> bool,
                                    freshBrandId: string, freshModelIds: seq<string>)
    requires CatalogueOk(brands, validUrl) && i < |brands| && FormShaped(brands[i])
    requires BrandPrefill(brands, Some(brands[i].id), Edit).Some?
    requires |freshModelIds| == |BrandPrefill(brands, Some(brands[i].id), Edit).value.groups|
    ensures var b := brands[i];
      var modal := Open(BrandPanel, Edit, Some(b.id), None);
      var form := BrandPrefill(brands, Some(b.id), Edit).value;
      && BrandSubmission(brands, modal, form, validUrl, freshBrandId, freshModelIds) == Success(b)
      && Upsert(brands, b) == brands
  {
    var b := brands[i];
    var modal := Open(BrandPanel, Edit, Some(b.id), None);
    assert BrandOk(b, validUrl);
    FindDistinctBrand(brands, i);
    var ms := ModelsOf(b);
    var form := BrandPrefill(brands, Some(b.id), Edit).value;
    assert form.groups == seq(|ms|, k requires 0 <= k < |ms| => ModelGroup(ms[k]));
    forall k | 0 <= k < |form.groups|
      ensures !Failing(validUrl)(form.groups[k])
    {
      assert ModelOk(ms[k], validUrl) && ModelFormShaped(ms[k]);
    }
    CollectedPasses(form.groups, true, false, validUrl);
    var models := Normalize(Drafts(form.groups), freshModelIds);
    assert models == ms by {
      forall k | 0 <= k < |ms|
        ensures models[k] == ms[k]
      {
        assert ModelFormShaped(ms[k]);
      }
    }
    OwnNameIsNoDuplicate(brands, i);
    assert brands[i := b] == brands;
  }

  /**
   * Opening a model for editing and saving the form untouched hands back the
   * same model for an update, and the update leaves the catalogue as it was.
   */
  lemma EditModelUnchangedRoundTrip(brands: seq<Brand>, i: nat, j: nat, validUrl: string -> bool, freshModelId: string)
    requires CatalogueOk(brands, validUrl) && i < |brands| && j < |ModelsOf(brands[i])|
    requires ModelFormShaped(ModelsOf(brands[i])[j])
    ensures var b := brands[i];
      var m := ModelsOf(b)[j];
      var modal := Open(ModelPanel, Edit, Some(b.id), Some(m.id));
      && ModelPrefill(brands, b.id, Some(m.id), Edit) == Some([ModelGroup(m)])
      && ModelSubmission(brands, modal, [ModelGroup(m)], validUrl, freshModelId) == UpdateIn(b.id, m)
      && ReplaceModel(brands, b.id, m) == Success(brands)
  {
    var b := brands[i];
    assert BrandOk(b, validUrl);
    var ms := ModelsOf(b);
    var m := ms[j];
    var modal := Open(ModelPanel, Edit, Some(b.id), Some(m.id));
    FindDistinctBrand(brands, i);
    FindDistinctModel(ms, j);
    assert ModelOk(m, validUrl);
    CollectedPasses([ModelGroup(m)], true, true, validUrl);
    OwnModelNameIsNoConflict(b, j, modal);
    ReplaceWithItself(brands, i, j);
  }

  /** When editing a model, its own name is no sibling conflict, given unique names under the brand. */
  lemma OwnModelNameIsNoConflict(b: Brand, j: nat, modal: Modal)
    requires j < |ModelsOf(b)| && Distinct(ModelsOf(b), ModelNameKey)
    requires modal.IsEdit() && modal.TargetModel() == Some(ModelsOf(b)[j].id)
    ensures !SiblingConflict(b, ModelsOf(b)[j].name, modal)
  {
    var ms := ModelsOf(b);
    forall k | 0 <= k < |ms| && k != j
      ensures Lower(ms[k].name) != Lower(ms[j].name)
    {
      assert ModelNameKey(ms[k]) != ModelNameKey(ms[j]);
    }
  }

  /** Updating a stored model with itself changes nothing, given unique ids. */
  lemma ReplaceWithItself(brands: seq<Brand>, i: nat, j: nat)
    requires i < |brands| && Distinct(brands, BrandId)
    requires brands[i].models.Some? && j < |brands[i].models.value| && Distinct(brands[i].models.value, ModelId)
    ensures ReplaceModel(brands, brands[i].id, brands[i].models.value[j]) == Success(brands)
  {
    var ms := brands[i].models.value;
    FindDistinctBrand(brands, i);
    FindDistinctModel(ms, j);
    assert ms[j := ms[j]] == ms;
    assert brands[i].(models := Some(ms)) == brands[i];
    assert brands[i := brands[i]] == brands;
  }
}
