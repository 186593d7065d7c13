/**
 * The catalogue store: a repository of brand records, each owning a list of
 * models, kept as one JSON array under one key of the browser's storage.
 * Every operation loads the whole array, changes it and writes it all back.
 */
module Store {
  import opened Wrappers
  import opened JsArray

  /** The storage key used when none is given. */
  const STORAGE_KEY := "klw-catalogue-brands-v1"

  datatype Model = Model(id: string, name: string, seats: int, interiorImage: string)

  /** `models` is None when the record has no models array (absent, or not an array). */
  datatype Brand = Brand(id: string, name: string, logoUrl: string, models: Option<seq<Model>>)

  /**
   * What `localStorage.getItem(key)` followed by `JSON.parse` can meet: no
   * entry (or an empty one), text that does not parse, a JSON value that is
   * not an array, or an array of brand records.
   */
  datatype Slot = Absent | Corrupt | NotAnArray | Stored(brands: seq<Brand>)

  /**
   * The errors the store throws: "saveBrand: brand with id required", "Brand
   * not found", "Model not found", and ModelsNotArray for the TypeError of
   * calling an array method on a missing list.
   */
  datatype StoreError = IdRequired | BrandNotFound | ModelNotFound | ModelsNotArray

  function BrandId(b: Brand): string { b.id }

  function ModelId(m: Model): string { m.id }

  /** A brand's models, a missing list read as empty (`Array.isArray(m) ? m : []`). */
  function ModelsOf(b: Brand): seq<Model> { b.models.GetOr([]) }

  function IdIs(id: string): Brand -> bool { (b: Brand) => b.id == id }

  function IdIsNot(id: string): Brand -> bool { (b: Brand) => b.id != id }

  function ModelIdIs(id: string): Model -> bool { (m: Model) => m.id == id }

  function ModelIdIsNot(id: string): Model -> bool { (m: Model) => m.id != id }

  predicate HasBrand(bs: seq<Brand>, id: string) {
    exists i :: 0 <= i < |bs| && bs[i].id == id
  }

  predicate HasModel(ms: seq<Model>, id: string) {
    exists j :: 0 <= j < |ms| && ms[j].id == id
  }

  /** What `_load` makes of the slot. */
  function Decode(slot: Slot): seq<Brand> {
    if slot.Stored? then slot.brands else []
  }

  /** `saveBrand` on the loaded array: replace the first brand with the same id, else append. */
  function Upsert(bs: seq<Brand>, b: Brand): seq<Brand> {
    var i := FindIndex(bs, IdIs(b.id));
    if i >= 0 then bs[i := b] else bs + [b]
  }

  /** `deleteBrand` on the loaded array. */
  function WithoutBrand(bs: seq<Brand>, id: string): seq<Brand> {
    Filter(bs, IdIsNot(id))
  }

  /** `addModel` on the loaded array. */
  function AppendModel(bs: seq<Brand>, brandId: string, m: Model): Result<seq<Brand>, StoreError> {
    var i := FindIndex(bs, IdIs(brandId));
    if i < 0 then Failure(BrandNotFound)
    else Success(bs[i := bs[i].(models := Some(ModelsOf(bs[i]) + [m]))])
  }

  /** `updateModel` on the loaded array. */
  function ReplaceModel(bs: seq<Brand>, brandId: string, m: Model): Result<seq<Brand>, StoreError> {
    var i := FindIndex(bs, IdIs(brandId));
    if i < 0 then Failure(BrandNotFound)
    else if bs[i].models.None? then Failure(ModelsNotArray)
    else
      var ms := bs[i].models.value;
      var j := FindIndex(ms, ModelIdIs(m.id));
      if j < 0 then Failure(ModelNotFound)
      else Success(bs[i := bs[i].(models := Some(ms[j := m]))])
  }

  /** `deleteModel` on the loaded array. */
  function RemoveModel(bs: seq<Brand>, brandId: string, modelId: string): Result<seq<Brand>, StoreError> {
    var i := FindIndex(bs, IdIs(brandId));
    if i < 0 then Failure(BrandNotFound)
    else if bs[i].models.None? then Failure(ModelsNotArray)
    else Success(bs[i := bs[i].(models := Some(Filter(bs[i].models.value, ModelIdIsNot(modelId))))])
  }

  lemma FindBrand(bs: seq<Brand>, id: string)
    ensures FindIndex(bs, IdIs(id)) >= 0 <==> HasBrand(bs, id)
    ensures FindIndex(bs, IdIs(id)) >= 0 ==> bs[FindIndex(bs, IdIs(id))].id == id
  {
    var i := FindIndex(bs, IdIs(id));
    if HasBrand(bs, id) {
      var k :| 0 <= k < |bs| && bs[k].id == id;
      assert IdIs(id)(bs[k]);
    }
  }

  /**
   * After an upsert the brand is the one a lookup by its id finds: the
   * record a later `find` by id returns is exactly the saved record.
   */
  lemma UpsertThenFind(bs: seq<Brand>, b: Brand)
    ensures var r := Upsert(bs, b);
      var k := FindIndex(r, IdIs(b.id));
      0 <= k < |r| && r[k] == b
  {
    var i := FindIndex(bs, IdIs(b.id));
    var r := Upsert(bs, b);
    if i >= 0 {
      FindIndexIsFirst(r, IdIs(b.id), i);
    } else {
      assert forall j :: 0 <= j < |bs| ==> r[j] == bs[j];
      FindIndexIsFirst(r, IdIs(b.id), |bs|);
    }
  }

  /**
   * Upsert by id: with a brand of that id present the first one is replaced
   * in place and the length is kept; otherwise the brand is appended. Every
   * other entry keeps its position and value.
   */
  lemma UpsertReplacesOrAppends(bs: seq<Brand>, b: Brand)
    ensures var r := Upsert(bs, b);
      && (HasBrand(bs, b.id) ==> |r| == |bs| && r[FindIndex(bs, IdIs(b.id))] == b)
      && (!HasBrand(bs, b.id) ==> |r| == |bs| + 1 && r[|bs|] == b)
      && (forall j :: 0 <= j < |bs| && bs[j].id != b.id ==> r[j] == bs[j])
      && (forall j :: 0 <= j < |bs| && r[j] != bs[j] ==> r[j] == b && j == FindIndex(bs, IdIs(b.id)))
  {
    FindBrand(bs, b.id);
  }

  /** Saving the same brand twice is the same as saving it once. */
  lemma UpsertIdempotent(bs: seq<Brand>, b: Brand)
    ensures Upsert(Upsert(bs, b), b) == Upsert(bs, b)
  {
    var r := Upsert(bs, b);
    UpsertThenFind(bs, b);
    var k := FindIndex(r, IdIs(b.id));
    assert r[k := b] == r;
  }

  /** Upsert keeps brand ids unique. */
  lemma UpsertKeepsDistinctIds(bs: seq<Brand>, b: Brand)
    requires Distinct(bs, BrandId)
    ensures Distinct(Upsert(bs, b), BrandId)
  {
    var i := FindIndex(bs, IdIs(b.id));
    if i >= 0 {
      UpdateKeepsDistinct(bs, i, b, BrandId);
    } else {
      AppendKeepsDistinct(bs, b, BrandId);
    }
  }

  /**
   * Deleting a brand removes every record with that id, keeps every other
   * record, and changes nothing when no record has the id.
   */
  lemma WithoutBrandRemoves(bs: seq<Brand>, id: string)
    ensures var r := WithoutBrand(bs, id);
      && !HasBrand(r, id)
      && (forall j :: 0 <= j < |bs| && bs[j].id != id ==> bs[j] in r)
      && (forall k :: 0 <= k < |r| ==> r[k] in bs)
      && (!HasBrand(bs, id) ==> r == bs)
  {
    if !HasBrand(bs, id) {
      FilterKeepsAll(bs, IdIsNot(id));
    }
  }

  /** With unique ids, deleting a brand cuts exactly its record out and keeps the rest in order. */
  lemma WithoutBrandCutsOne(bs: seq<Brand>, i: nat)
    requires i < |bs| && Distinct(bs, BrandId)
    ensures WithoutBrand(bs, bs[i].id) == bs[..i] + bs[i + 1..]
  {
    var p := IdIsNot(bs[i].id);
    var before, after := bs[..i], bs[i + 1..];
    assert bs == before + [bs[i]] + after;
    forall j | 0 <= j < |before|
      ensures p(before[j])
    {
      assert BrandId(bs[j]) != BrandId(bs[i]);
    }
    forall j | 0 <= j < |after|
      ensures p(after[j])
    {
      assert after[j] == bs[i + 1 + j];
      assert BrandId(bs[i + 1 + j]) != BrandId(bs[i]);
    }
    FilterDropsOne(before, bs[i], after, p);
  }

  /** Deleting a brand keeps brand ids unique. */
  lemma WithoutBrandKeepsDistinctIds(bs: seq<Brand>, id: string)
    requires Distinct(bs, BrandId)
    ensures Distinct(WithoutBrand(bs, id), BrandId)
  {
    FilterKeepsDistinct(bs, IdIsNot(id), BrandId);
  }

  /**
   * `addModel` fails exactly when no brand has the id; otherwise only the
   * first such brand changes, and its models gain the model at the end.
   */
  lemma AppendModelChangesOneBrand(bs: seq<Brand>, brandId: string, m: Model)
    ensures AppendModel(bs, brandId, m).Failure? <==> !HasBrand(bs, brandId)
    ensures match AppendModel(bs, brandId, m)
      case Failure(e) => e == BrandNotFound
      case Success(r) =>
        var i := FindIndex(bs, IdIs(brandId));
        && |r| == |bs| && r[i].id == brandId
        && r[i] == bs[i].(models := Some(ModelsOf(bs[i]) + [m]))
        && (forall j :: 0 <= j < |bs| && j != i ==> r[j] == bs[j])
  {
    FindBrand(bs, brandId);
  }

  /**
   * `updateModel` fails when the brand is missing, has no models array, or has
   * no model with the model's id; otherwise it replaces exactly the first model
   * with that id and keeps the model count and every other brand.
   */
  lemma ReplaceModelChangesOneModel(bs: seq<Brand>, brandId: string, m: Model)
    ensures ReplaceModel(bs, brandId, m).Success? <==>
      exists i :: 0 <= i < |bs| && bs[i].id == brandId && i == FindIndex(bs, IdIs(brandId))
        && bs[i].models.Some? && HasModel(bs[i].models.value, m.id)
    ensures match ReplaceModel(bs, brandId, m)
      case Failure(e) => e in {BrandNotFound, ModelsNotArray, ModelNotFound}
      case Success(r) =>
        var i := FindIndex(bs, IdIs(brandId));
        var ms := ModelsOf(bs[i]);
        var j := FindIndex(ms, ModelIdIs(m.id));
        && |r| == |bs| && 0 <= i && r[i].models.Some? && |ModelsOf(r[i])| == |ms|
        && ModelsOf(r[i])[j] == m && ms[j].id == m.id
        && (forall k :: 0 <= k < |ms| && k != j ==> ModelsOf(r[i])[k] == ms[k])
        && r[i].(models := bs[i].models) == bs[i]
        && (forall k :: 0 <= k < |bs| && k != i ==> r[k] == bs[k])
  {
    FindBrand(bs, brandId);
    var i := FindIndex(bs, IdIs(brandId));
    if i >= 0 && bs[i].models.Some? {
      var ms := bs[i].models.value;
      if HasModel(ms, m.id) {
        var k :| 0 <= k < |ms| && ms[k].id == m.id;
        assert ModelIdIs(m.id)(ms[k]);
      }
    }
  }

  /**
   * `deleteModel` fails when the brand is missing or has no models array;
   * otherwise that brand keeps its id, name and logo and exactly those of its
   * own models with another id (none removed when no model has the id), and
   * every other brand is unchanged.
   */
  lemma RemoveModelChangesOneBrand(bs: seq<Brand>, brandId: string, modelId: string)
    ensures RemoveModel(bs, brandId, modelId).Success? <==>
      HasBrand(bs, brandId) && bs[FindIndex(bs, IdIs(brandId))].models.Some?
    ensures match RemoveModel(bs, brandId, modelId)
      case Failure(e) => e in {BrandNotFound, ModelsNotArray}
      case Success(r) =>
        var i := FindIndex(bs, IdIs(brandId));
        var ms := ModelsOf(bs[i]);
        && |r| == |bs| && 0 <= i && r[i].models.Some?
        && r[i].(models := bs[i].models) == bs[i]
        && !HasModel(ModelsOf(r[i]), modelId)
        && (forall k :: 0 <= k < |ModelsOf(r[i])| ==> ModelsOf(r[i])[k] in ms)
        && (forall k :: 0 <= k < |ms| && ms[k].id != modelId ==> ms[k] in ModelsOf(r[i]))
        && (!HasModel(ms, modelId) ==> ModelsOf(r[i]) == ms)
        && (forall k :: 0 <= k < |bs| && k != i ==> r[k] == bs[k])
  {
    FindBrand(bs, brandId);
    var i := FindIndex(bs, IdIs(brandId));
    if i >= 0 && bs[i].models.Some? && !HasModel(bs[i].models.value, modelId) {
      FilterKeepsAll(bs[i].models.value, ModelIdIsNot(modelId));
    }
  }

  /** With unique model ids, deleting a model cuts exactly its record out of its brand's list and keeps the rest in order. */
  lemma RemoveModelCutsOne(bs: seq<Brand>, i: nat, j: nat)
    requires i < |bs| && FindIndex(bs, IdIs(bs[i].id)) == i && bs[i].models.Some?
    requires j < |bs[i].models.value| && Distinct(bs[i].models.value, ModelId)
    ensures var ms := bs[i].models.value;
      RemoveModel(bs, bs[i].id, ms[j].id) == Success(bs[i := bs[i].(models := Some(ms[..j] + ms[j + 1..]))])
  {
    var ms := bs[i].models.value;
    var p := ModelIdIsNot(ms[j].id);
    var before, after := ms[..j], ms[j + 1..];
    assert ms == before + [ms[j]] + after;
    forall k | 0 <= k < |before|
      ensures p(before[k])
    {
      assert ModelId(ms[k]) != ModelId(ms[j]);
    }
    forall k | 0 <= k < |after|
      ensures p(after[k])
    {
      assert ModelId(ms[j]) != ModelId(ms[j + 1 + k]);
    }
    FilterDropsOne(before, ms[j], after, p);
  }

  /** The store object; `slot` is the storage entry under `storageKey`. */
  class CatalogueStore {
    const storageKey: string
    var slot: Slot

    /** `new CatalogueStore(storageKey)`, the key defaulting to `STORAGE_KEY`; `slot` is what storage holds under it. */
    constructor(slot: Slot, storageKey: string := STORAGE_KEY)
      ensures this.storageKey == storageKey && this.slot == slot
    {
      this.storageKey := storageKey;
      this.slot := slot;
    }

    /** `_load`: an absent, unparsable or non-array entry reads as the empty catalogue. */
    method Load() returns (brands: seq<Brand>)
      ensures slot.Stored? ==> brands == slot.brands
      ensures !slot.Stored? ==> brands == []
    {
      match slot
      case Stored(bs) => brands := bs;
      case _ => brands := [];
    }

    /** `_persist`: the whole array is written back. */
    method Persist(brands: seq<Brand>)
      modifies this
      ensures slot == Stored(brands)
    {
      slot := Stored(brands);
    }

    method GetBrands() returns (brands: seq<Brand>)
      ensures brands == Decode(slot)
    {
      brands := Load();
    }

    /** `input` is None when the value given is not an array. */
    method SetBrands(input: Option<seq<Brand>>) returns (brands: seq<Brand>)
      modifies this
      ensures slot == Stored(input.GetOr([]))
      ensures brands == input.GetOr([])
      ensures input.Some? ==> brands == input.value
    {
      Persist(if input.Some? then input.value else []);
      brands := Load();
    }

    method SaveBrand(brand: Brand) returns (r: Result<Brand, StoreError>)
      modifies this
      ensures brand.id == "" ==> r == Failure(IdRequired) && slot == old(slot)
      ensures brand.id != "" ==> r == Success(brand) && slot == Stored(Upsert(Decode(old(slot)), brand))
    {
      if brand.id == "" {
        return Failure(IdRequired);
      }
      var brands := Load();
      var idx := FindIndex(brands, IdIs(brand.id));
      if idx >= 0 {
        brands := brands[idx := brand];
      } else {
        brands := brands + [brand];
      }
      Persist(brands);
      r := Success(brand);
    }

    method DeleteBrand(brandId: string) returns (remaining: seq<Brand>)
      modifies this
      ensures remaining == WithoutBrand(Decode(old(slot)), brandId)
      ensures slot == Stored(remaining)
    {
      var brands := Load();
      remaining := Filter(brands, IdIsNot(brandId));
      Persist(remaining);
    }

    method AddModel(brandId: string, model: Model) returns (r: Result<Model, StoreError>)
      modifies this
      ensures match AppendModel(Decode(old(slot)), brandId, model)
        case Failure(e) => r == Failure(e) && slot == old(slot)
        case Success(bs) => r == Success(model) && slot == Stored(bs)
    {
      var brands := Load();
      var idx := FindIndex(brands, IdIs(brandId));
      if idx < 0 {
        return Failure(BrandNotFound);
      }
      var models := if brands[idx].models.Some? then brands[idx].models.value else [];
      brands := brands[idx := brands[idx].(models := Some(models + [model]))];
      Persist(brands);
      r := Success(model);
    }

    method UpdateModel(brandId: string, model: Model) returns (r: Result<Model, StoreError>)
      modifies this
      ensures match ReplaceModel(Decode(old(slot)), brandId, model)
        case Failure(e) => r == Failure(e) && slot == old(slot)
        case Success(bs) => r == Success(model) && slot == Stored(bs)
    {
      var brands := Load();
      var idx := FindIndex(brands, IdIs(brandId));
      if idx < 0 {
        return Failure(BrandNotFound);
      }
      if brands[idx].models.None? {
        return Failure(ModelsNotArray);
      }
      var models := brands[idx].models.value;
      var at := FindIndex(models, ModelIdIs(model.id));
      if at == -1 {
        return Failure(ModelNotFound);
      }
      brands := brands[idx := brands[idx].(models := Some(models[at := model]))];
      Persist(brands);
      r := Success(model);
    }

    /** On success, the models the brand has left. */
    method DeleteModel(brandId: string, modelId: string) returns (r: Result<seq<Model>, StoreError>)
      modifies this
      ensures match RemoveModel(Decode(old(slot)), brandId, modelId)
        case Failure(e) => r == Failure(e) && slot == old(slot)
        case Success(bs) =>
          var i := FindIndex(Decode(old(slot)), IdIs(brandId));
          && slot == Stored(bs) && 0 <= i < |bs| && r == Success(ModelsOf(bs[i]))
    {
      var brands := Load();
      var idx := FindIndex(brands, IdIs(brandId));
      if idx < 0 {
        return Failure(BrandNotFound);
      }
      if brands[idx].models.None? {
        return Failure(ModelsNotArray);
      }
      var models := Filter(brands[idx].models.value, ModelIdIsNot(modelId));
      brands := brands[idx := brands[idx].(models := Some(models))];
      Persist(brands);
      r := Success(models);
    }

    /** `clearAll`: the storage entry is removed. */
    method ClearAll()
      modifies this
      ensures slot == Absent
      ensures Decode(slot) == []
    {
      slot := Absent;
    }
  }
}
