/**
 * The product staging record: one import candidate built up by setter calls
 * before its named references are resolved and it is written in bulk.
 *
 * Every PHP field is a mutable field here, every setter a method whose
 * `modifies` clause names the one field it writes, so that "nothing else
 * changes" is part of each contract.
 */
module Product {
  import opened Wrappers
  import opened Strings

  const GLOBAL_STORE_VIEW_CODE: string := "admin"
  const DEFAULT_STOCK_NAME: string := "Default"

  /** Keys of the unresolved-attributes map, one per resolvable attribute. */
  const CATEGORY_IDS: string := "category_ids"
  const ATTRIBUTE_SET_ID: string := "attribute_set_id"
  const WEBSITE_IDS: string := "website_ids"

  /** The three kinds of product link. */
  datatype LinkKind = Related | UpSell | CrossSell

  /**
   * A value waiting in the unresolved-attributes map: a list of category
   * paths or website codes, or a single attribute set name.
   */
  datatype UnresolvedValue = NameList(names: seq<string>) | SingleName(name: string)

  /** Per-store-view attribute overrides; only their identity matters here. */
  class ProductStoreView {
    constructor () {}
  }

  /** Stock data of one stock; only its identity matters here. */
  class ProductStockItem {
    constructor () {}
  }

  class Image {
    const imagePath: string

    constructor (imagePath: string)
      ensures this.imagePath == imagePath
    {
      this.imagePath := imagePath;
    }
  }

  /** Opaque element types of the tier price and custom option lists. */
  class TierPrice {}
  class CustomOption {}

  /** `array_map('trim', $xs)`: every element trimmed, order and length kept. */
  function TrimAll(xs: seq<string>): (r: seq<string>)
    ensures |r| == |xs|
    ensures forall i :: 0 <= i < |xs| ==> r[i] == TrimSpace(xs[i])
  {
    seq(|xs|, i requires 0 <= i < |xs| => TrimSpace(xs[i]))
  }

  class Product {
    var id: Option<int>
    var attributeSetId: Option<int>
    const sku: string
    var categoryIds: seq<int>
    var websiteIds: seq<int>
    var storeViews: map<string, ProductStoreView>
    var stockItems: map<string, ProductStockItem>
    var images: seq<Image>
    /** An absent kind means "leave this product's links of that kind alone". */
    var linkedProductSkus: map<LinkKind, seq<string>>
    var linkedProductIds: map<LinkKind, seq<string>>
    /** `None` means "not used in this import"; `Some([])` means "remove all". */
    var tierPrices: Option<seq<TierPrice>>
    var customOptions: Option<seq<CustomOption>>
    var unresolvedAttributes: map<string, UnresolvedValue>
    var errors: seq<string>
    var lineNumber: string

    /** The global store view exists from construction on. */
    ghost predicate Valid()
      reads this`storeViews
    {
      GLOBAL_STORE_VIEW_CODE in storeViews
    }

    constructor (sku: string)
      ensures Valid()
      ensures this.sku == TrimSpace(sku) && TrimSpace(this.sku) == this.sku
      ensures storeViews.Keys == {GLOBAL_STORE_VIEW_CODE} && fresh(storeViews[GLOBAL_STORE_VIEW_CODE])
      ensures IsOk() && errors == []
      ensures id == None && attributeSetId == None
      ensures categoryIds == [] && websiteIds == [] && images == []
      ensures stockItems == map[] && unresolvedAttributes == map[]
      ensures linkedProductSkus == map[] && linkedProductIds == map[]
      ensures tierPrices == None && customOptions == None
      ensures lineNumber == ""
    {
      id, attributeSetId := None, None;
      categoryIds, websiteIds, images := [], [], [];
      stockItems, unresolvedAttributes := map[], map[];
      linkedProductSkus, linkedProductIds := map[], map[];
      tierPrices, customOptions := None, None;
      errors, lineNumber := [], "";
      var global := new ProductStoreView();
      storeViews := map[GLOBAL_STORE_VIEW_CODE := global];
      this.sku := TrimSpace(sku);
      TrimIdempotent(sku, PHP_WHITESPACE);
    }

    /** A record is fit to be written while no error has been recorded. */
    predicate IsOk()
      reads this`errors
      ensures IsOk() <==> errors == []
    {
      |errors| == 0
    }

    /** Appends an error; no method removes one, so `IsOk` stays false from here on. */
    method AddError(error: string)
      modifies this`errors
      ensures errors == old(errors) + [error]
      ensures old(errors) <= errors && !IsOk()
    {
      errors := errors + [error];
    }

    /**
     * Returns the override bag of the trimmed store view code, creating an
     * empty one if that code has none yet; other entries are untouched.
     */
    method StoreView(storeViewCode: string) returns (view: ProductStoreView)
      requires Valid()
      modifies this`storeViews
      ensures Valid()
      ensures TrimSpace(storeViewCode) in storeViews && view == storeViews[TrimSpace(storeViewCode)]
      ensures TrimSpace(storeViewCode) in old(storeViews) ==> storeViews == old(storeViews)
      ensures TrimSpace(storeViewCode) !in old(storeViews) ==>
                fresh(view) && storeViews == old(storeViews)[TrimSpace(storeViewCode) := view]
    {
      var code := TrimSpace(storeViewCode);
      if code !in storeViews {
        var created := new ProductStoreView();
        storeViews := storeViews[code := created];
      }
      view := storeViews[code];
    }

    /** The override bag of the global store view, which always exists. */
    function Global(): (view: ProductStoreView)
      requires Valid()
      reads this`storeViews
      ensures view in storeViews.Values && view == storeViews[GLOBAL_STORE_VIEW_CODE]
    {
      storeViews[GLOBAL_STORE_VIEW_CODE]
    }

    /** The stock item of the default stock, created on first use. */
    method DefaultStockItem() returns (item: ProductStockItem)
      modifies this`stockItems
      ensures DEFAULT_STOCK_NAME in stockItems && item == stockItems[DEFAULT_STOCK_NAME]
      ensures DEFAULT_STOCK_NAME in old(stockItems) ==> stockItems == old(stockItems)
      ensures DEFAULT_STOCK_NAME !in old(stockItems) ==>
                fresh(item) && stockItems == old(stockItems)[DEFAULT_STOCK_NAME := item]
    {
      if DEFAULT_STOCK_NAME !in stockItems {
        var created := new ProductStockItem();
        stockItems := stockItems[DEFAULT_STOCK_NAME := created];
      }
      item := stockItems[DEFAULT_STOCK_NAME];
    }

    method SetCategoryIds(categoryIds: seq<int>)
      modifies this`categoryIds
      ensures this.categoryIds == categoryIds
    {
      this.categoryIds := categoryIds;
    }

    /** Category name paths wait for resolution; the resolved ids stay as they are. */
    method SetCategoriesByGlobalName(categoryNames: seq<string>)
      modifies this`unresolvedAttributes
      ensures unresolvedAttributes == old(unresolvedAttributes)[CATEGORY_IDS := NameList(categoryNames)]
    {
      unresolvedAttributes := unresolvedAttributes[CATEGORY_IDS := NameList(categoryNames)];
    }

    method SetAttributeSetId(attributeSetId: int)
      modifies this`attributeSetId
      ensures this.attributeSetId == Some(attributeSetId)
    {
      this.attributeSetId := Some(attributeSetId);
    }

    method RemoveAttributeSetId()
      modifies this`attributeSetId
      ensures attributeSetId == None
    {
      attributeSetId := None;
    }

    method SetAttributeSetByName(attributeSetName: string)
      modifies this`unresolvedAttributes
      ensures unresolvedAttributes == old(unresolvedAttributes)[ATTRIBUTE_SET_ID := SingleName(attributeSetName)]
    {
      unresolvedAttributes := unresolvedAttributes[ATTRIBUTE_SET_ID := SingleName(attributeSetName)];
    }

    method SetWebsitesByCode(websiteCodes: seq<string>)
      modifies this`unresolvedAttributes
      ensures unresolvedAttributes == old(unresolvedAttributes)[WEBSITE_IDS := NameList(websiteCodes)]
    {
      unresolvedAttributes := unresolvedAttributes[WEBSITE_IDS := NameList(websiteCodes)];
    }

    method SetWebsitesIds(websiteIds: seq<int>)
      modifies this`websiteIds
      ensures this.websiteIds == websiteIds
    {
      this.websiteIds := websiteIds;
    }

    method RemoveWebsiteIds()
      modifies this`websiteIds
      ensures websiteIds == []
    {
      websiteIds := [];
    }

    method AddImage(imagePath: string) returns (image: Image)
      modifies this`images
      ensures fresh(image) && image.imagePath == imagePath
      ensures images == old(images) + [image]
    {
      image := new Image(imagePath);
      images := images + [image];
    }

    /**
     * The related / up-sell / cross-sell SKU setters: the trimmed SKUs become
     * the entry of their own kind, and the entries of other kinds stay as
     * they were (present or absent).
     */
    method SetLinkedProductSkus(kind: LinkKind, skus: seq<string>)
      modifies this`linkedProductSkus
      ensures kind in linkedProductSkus && linkedProductSkus[kind] == TrimAll(skus)
      ensures forall k :: k != kind ==>
                (k in linkedProductSkus <==> k in old(linkedProductSkus)) &&
                (k in linkedProductSkus ==> linkedProductSkus[k] == old(linkedProductSkus)[k])
    {
      linkedProductSkus := linkedProductSkus[kind := TrimAll(skus)];
    }

    /** The related / up-sell / cross-sell id setters, framed like the SKU setters. */
    method SetLinkedProductIds(kind: LinkKind, ids: seq<string>)
      modifies this`linkedProductIds
      ensures GetLinkedProductIds(kind) == Some(TrimAll(ids))
      ensures forall k :: k != kind ==> GetLinkedProductIds(k) == old(GetLinkedProductIds(k))
    {
      linkedProductIds := linkedProductIds[kind := TrimAll(ids)];
    }

    /**
     * The ids of one link kind, or `None` when that kind was never set
     * (meaning: leave existing links of this kind alone).
     */
    function GetLinkedProductIds(kind: LinkKind): (ids: Option<seq<string>>)
      reads this`linkedProductIds
      ensures ids == None <==> kind !in linkedProductIds
      ensures ids != None ==> ids.value == linkedProductIds[kind]
    {
      if kind in linkedProductIds then Some(linkedProductIds[kind]) else None
    }

    method SetTierPrices(tierPrices: seq<TierPrice>)
      modifies this`tierPrices
      ensures this.tierPrices == Some(tierPrices)
    {
      this.tierPrices := Some(tierPrices);
    }

    method SetCustomOptions(customOptions: seq<CustomOption>)
      modifies this`customOptions
      ensures this.customOptions == Some(customOptions)
    {
      this.customOptions := Some(customOptions);
    }
  }

  /**
   * Staging sessions written as a caller would, on any record whose global
   * store view exists: what the contracts above let a caller conclude about
   * get-or-create identity, the never-set versus set-to-empty distinction,
   * and the error gate.
   */

  /** The same store view code, asked for twice, yields the same override bag; so does the default stock. */
  method StoreViewTwice(p: Product, code: string) returns (first: ProductStoreView, again: ProductStoreView,
                                                           stock: ProductStockItem, stockAgain: ProductStockItem)
    requires p.Valid()
    modifies p
    ensures first == again && stock == stockAgain
    ensures p.Valid()
  {
    first := p.StoreView(code);
    again := p.StoreView(code);
    stock := p.DefaultStockItem();
    stockAgain := p.DefaultStockItem();
  }

  /** Asking for the global code by name, with any surrounding whitespace, yields the global bag. */
  method GlobalByName(p: Product, code: string) returns (global: ProductStoreView, named: ProductStoreView)
    requires p.Valid() && TrimSpace(code) == GLOBAL_STORE_VIEW_CODE
    modifies p
    ensures global == named
    ensures p.storeViews == old(p.storeViews)
  {
    global := p.Global();
    named := p.StoreView(code);
  }

  /**
   * Setting a kind to the empty list makes it read `Some([])`, which differs
   * from the `None` of a kind never set; every other kind reads as before.
   */
  method LinkTriState(p: Product, kind: LinkKind, other: LinkKind)
    returns (before: Option<seq<string>>, cleared: Option<seq<string>>,
             otherBefore: Option<seq<string>>, otherAfter: Option<seq<string>>)
    requires kind != other
    modifies p
    ensures before == None <==> kind !in old(p.linkedProductIds)
    ensures cleared == Some([])
    ensures otherAfter == otherBefore
  {
    before := p.GetLinkedProductIds(kind);
    otherBefore := p.GetLinkedProductIds(other);
    p.SetLinkedProductIds(kind, []);
    cleared := p.GetLinkedProductIds(kind);
    otherAfter := p.GetLinkedProductIds(other);
    p.SetTierPrices([]);
    assert p.tierPrices == Some([]) && p.tierPrices != None;
  }

  /** One error makes the record not ok, whatever is set after it. */
  method ErrorGate(p: Product, error: string) returns (okBefore: bool, okAfter: bool)
    requires p.Valid()
    modifies p
    ensures okBefore == (old(p.errors) == [])
    ensures !okAfter && !p.IsOk()
  {
    p.SetCategoryIds([3, 4]);
    p.SetCategoriesByGlobalName(["Books/Novels"]);
    okBefore := p.IsOk();
    p.AddError(error);
    p.SetWebsitesIds([1]);
    p.RemoveAttributeSetId();
    var view := p.StoreView("default");
    p.SetLinkedProductIds(Related, []);
    okAfter := p.IsOk();
  }
}
