/** The form state of `src/components/Products/AddProductModal.jsx`: the
    product being edited, its list of image-URL fields, and the set of fields
    that failed validation. */
module AddProductModal {
  import opened Wrappers
  import opened JsStrings

  /** A form value as JavaScript holds it. Text fields give strings; the stock
      field gives the (already floored) number, or NaN; a product loaded for
      editing may carry either, its numbers being any finite number such as
      a price of 19.99. */
  datatype FieldValue = Text(text: string) | Number(number: real) | NotANumber

  /** JavaScript truthiness: `''`, `0` and `NaN` are falsy. */
  predicate Truthy(v: FieldValue) {
    match v
    case Text(s) => s != ""
    case Number(n) => n != 0.0
    case NotANumber => false
  }

  /** The keys `validateForm` may put into `errors`. */
  datatype FieldName = ProductName | Description | Price | Categories | Stock | ImageUrl

  /** The `product` state: six form fields and, when editing, the id of the
      product being changed. */
  datatype Product = Product(
    productName: string,
    description: string,
    price: FieldValue,
    categories: string,
    stock: FieldValue,
    imageUrl: string,
    id: Option<string>)

  /** The state of a blank form. */
  const EmptyProduct: Product := Product("", "", Text(""), "", Text(""), "", None)

  /** The `editProduct` prop: a product record from the list, any of whose
      fields may be missing. */
  datatype EditProduct = EditProduct(
    productName: Option<string>,
    description: Option<string>,
    price: Option<FieldValue>,
    categories: Option<string>,
    stock: Option<FieldValue>,
    imageUrl: Option<string>,
    id: Option<string>)

  /** `x || ''` for a string field. */
  function OrEmpty(x: Option<string>): string {
    if x.Some? && x.value != "" then x.value else ""
  }

  /** `x || ''` for a price or stock field. */
  function ValueOrEmpty(x: Option<FieldValue>): FieldValue {
    if x.Some? && Truthy(x.value) then x.value else Text("")
  }

  /** The `product` the load effect sets for a given `editProduct`. */
  function LoadedProduct(ep: Option<EditProduct>): Product {
    match ep
    case None => EmptyProduct
    case Some(e) =>
      Product(OrEmpty(e.productName), OrEmpty(e.description), ValueOrEmpty(e.price),
              OrEmpty(e.categories), ValueOrEmpty(e.stock), OrEmpty(e.imageUrl), e.id)
  }

  /** The `imageUrls` the load effect sets: the stored URL string split on
      spaces when there is one, a single empty field otherwise. It is never
      empty, no field holds a space, and its join is the loaded
      `product.imageUrl`. */
  function LoadedUrls(ep: Option<EditProduct>): (urls: seq<string>)
    ensures |urls| >= 1
    ensures forall i :: 0 <= i < |urls| ==> ' ' !in urls[i]
    ensures Join(urls) == LoadedProduct(ep).imageUrl
  {
    if ep.Some? && ep.value.imageUrl.Some? && ep.value.imageUrl.value != "" then
      JoinSplit(ep.value.imageUrl.value);
      Split(ep.value.imageUrl.value)
    else [""]
  }

  /** Loading a product whose `imageUrl` was written as the space-join of a
      list of space-free URLs gives that list back as the URL fields. */
  lemma LoadRoundTrip(e: EditProduct, urls: seq<string>)
    requires |urls| >= 1
    requires forall i :: 0 <= i < |urls| ==> ' ' !in urls[i]
    requires e.imageUrl == Some(Join(urls))
    ensures LoadedUrls(Some(e)) == urls
  {
    if Join(urls) == "" {
      assert urls == [""];
    } else {
      SplitJoin(urls);
    }
  }

  /** A field `validateForm` rejects: the four text fields when blank after
      trimming, price and stock when falsy. */
  predicate Fails(p: Product, f: FieldName) {
    match f
    case ProductName => IsBlank(p.productName)
    case Description => IsBlank(p.description)
    case Price => !Truthy(p.price)
    case Categories => IsBlank(p.categories)
    case Stock => !Truthy(p.stock)
    case ImageUrl => IsBlank(p.imageUrl)
  }

  /** A product passes validation exactly when each text field has a
      non-whitespace character and price and stock are truthy; so an empty
      price and a stock of `0` are both rejected. */
  lemma PassesIff(p: Product)
    ensures (forall f :: !Fails(p, f)) <==>
      (exists i :: 0 <= i < |p.productName| && !IsWhitespace(p.productName[i])) &&
      (exists i :: 0 <= i < |p.description| && !IsWhitespace(p.description[i])) &&
      (exists i :: 0 <= i < |p.categories| && !IsWhitespace(p.categories[i])) &&
      (exists i :: 0 <= i < |p.imageUrl| && !IsWhitespace(p.imageUrl[i])) &&
      Truthy(p.price) && Truthy(p.stock)
    ensures p.stock == Number(0.0) || p.stock == Text("") ==> Fails(p, Stock)
    ensures p.price == Text("") ==> Fails(p, Price)
  {
    BlankIffAllWhitespace(p.productName);
    BlankIffAllWhitespace(p.description);
    BlankIffAllWhitespace(p.categories);
    BlankIffAllWhitespace(p.imageUrl);
    if forall f :: !Fails(p, f) {
      assert !Fails(p, ProductName) && !Fails(p, Description) && !Fails(p, Categories);
      assert !Fails(p, ImageUrl) && !Fails(p, Price) && !Fails(p, Stock);
    }
  }

  /** What `handleSubmit` passes on: nothing, or the product to exactly one
      of the two callbacks. */
  datatype Submission = NoCallback | HandleAdd(product: Product) | HandleUpdate(product: Product)

  class ProductForm {
    var product: Product
    var imageUrls: seq<string>
    var errors: set<FieldName>
    var editProduct: Option<EditProduct>

    /** There is always at least one URL field. */
    ghost predicate Valid()
      reads this
    {
      |imageUrls| >= 1
    }

    /** `product.imageUrl` is the space-join of the URL fields. */
    ghost predicate Synced()
      reads this
    {
      product.imageUrl == Join(imageUrls)
    }

    /** Mounting the modal: the initial state (a blank product, one empty URL
        field, no errors), then the load effect for the given `editProduct`. */
    constructor (ep: Option<EditProduct>)
      ensures Valid() && Synced()
      ensures editProduct == ep
      ensures product == LoadedProduct(ep) && imageUrls == LoadedUrls(ep)
      ensures errors == {}
    {
      product := EmptyProduct;
      errors := {};
      imageUrls := [""];
      editProduct := None;
      new;
      OnEditProductChange(ep);
    }

    /** The effect that runs when `editProduct` changes: copy its fields,
        defaulting falsy ones to `''` and keeping its id, and split its
        `imageUrl` into URL fields; with no product, reset the form. */
    method OnEditProductChange(ep: Option<EditProduct>)
      modifies this`product, this`imageUrls, this`editProduct
      ensures editProduct == ep
      ensures product == LoadedProduct(ep) && imageUrls == LoadedUrls(ep)
      ensures ep.Some? ==> product.id == ep.value.id
      ensures ep.None? ==> product == EmptyProduct && imageUrls == [""]
      ensures Valid() && Synced()
    {
      editProduct := ep;
      if ep.Some? {
        var e := ep.value;
        var urls := if e.imageUrl.Some? && e.imageUrl.value != "" then Split(e.imageUrl.value) else [""];
        imageUrls := urls;
        product := Product(OrEmpty(e.productName), OrEmpty(e.description), ValueOrEmpty(e.price),
                           OrEmpty(e.categories), ValueOrEmpty(e.stock), OrEmpty(e.imageUrl), e.id);
      } else {
        imageUrls := [""];
        product := EmptyProduct;
      }
    }

    /** `validateForm`: `errors` becomes exactly the set of failing fields,
        and the form is accepted when that set is empty. */
    method ValidateForm() returns (ok: bool)
      modifies this`errors
      ensures forall f :: f in errors <==> Fails(product, f)
      ensures ok <==> errors == {}
    {
      var p := product;
      var newErrors: set<FieldName> := {};
      if IsBlank(p.productName) { newErrors := newErrors + {ProductName}; }
      if IsBlank(p.description) { newErrors := newErrors + {Description}; }
      if !Truthy(p.price) { newErrors := newErrors + {Price}; }
      if IsBlank(p.categories) { newErrors := newErrors + {Categories}; }
      if !Truthy(p.stock) { newErrors := newErrors + {Stock}; }
      if IsBlank(p.imageUrl) { newErrors := newErrors + {ImageUrl}; }
      assert forall f :: f in newErrors <==> Fails(p, f);
      errors := newErrors;
      ok := newErrors == {};
    }

    /** `handleImageUrlChange(index, value)`: field `index` becomes `value`,
        the others stay, and `product.imageUrl` is re-joined. */
    method HandleImageUrlChange(index: nat, value: string)
      requires index < |imageUrls|
      modifies this`imageUrls, this`product
      ensures imageUrls == old(imageUrls)[index := value]
      ensures |imageUrls| == |old(imageUrls)| && imageUrls[index] == value
      ensures forall j :: 0 <= j < |imageUrls| && j != index ==> imageUrls[j] == old(imageUrls)[j]
      ensures product == old(product).(imageUrl := Join(imageUrls))
      ensures Valid() && Synced()
    {
      var newUrls := imageUrls;
      newUrls := newUrls[index := value];
      imageUrls := newUrls;
      product := product.(imageUrl := Join(newUrls));
    }

    /** `removeImageUrl(index)`: the URL fields without the one at `index`,
        in their order, with `product.imageUrl` re-joined. An `index` past the
        end removes nothing. */
    method RemoveImageUrl(index: int)
      requires Valid()
      requires index > 0
      modifies this`imageUrls, this`product
      ensures imageUrls == WithoutIndex(old(imageUrls), index)
      ensures index < |old(imageUrls)| ==>
        |imageUrls| == |old(imageUrls)| - 1 &&
        imageUrls == old(imageUrls)[..index] + old(imageUrls)[index + 1..]
      ensures index >= |old(imageUrls)| ==> imageUrls == old(imageUrls)
      ensures product == old(product).(imageUrl := Join(imageUrls))
      ensures Valid() && Synced()
    {
      var newUrls := WithoutIndex(imageUrls, index);
      WithoutIndexIsSlices(imageUrls, index);
      imageUrls := newUrls;
      product := product.(imageUrl := Join(newUrls));
    }

    /** `addImageUrl`: one more, empty, URL field. `product.imageUrl` is not
        re-joined, so it now lacks the trailing space the new join would
        have. */
    method AddImageUrl()
      requires Valid()
      modifies this`imageUrls
      ensures imageUrls == old(imageUrls) + [""]
      ensures Valid()
      ensures old(Synced()) ==> Join(imageUrls) == product.imageUrl + " "
    {
      JoinAppendEmpty(imageUrls);
      imageUrls := imageUrls + [""];
    }

    /** `handleSubmit`: validation first; on failure neither callback runs,
        otherwise exactly one does, `handleUpdate` when a product is being
        edited and `handleAdd` when not, with the current `product`. */
    method HandleSubmit() returns (call: Submission)
      modifies this`errors
      ensures forall f :: f in errors <==> Fails(product, f)
      ensures call == NoCallback <==> errors != {}
      ensures call.HandleUpdate? <==> errors == {} && editProduct.Some?
      ensures call.HandleAdd? <==> errors == {} && editProduct.None?
      ensures call != NoCallback ==> call.product == product
    {
      var ok := ValidateForm();
      if !ok {
        return NoCallback;
      }
      if editProduct.Some? {
        call := HandleUpdate(product);
      } else {
        call := HandleAdd(product);
      }
    }
  }
}
