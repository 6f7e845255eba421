/** The admin product editor: the list of additional image URL fields (never empty), the
    product write and the `product_images` rows it saves, loading the fields back when editing,
    the form reset, and the stock badge of the product table. */
module AdminProducts {
  import opened Tables
  import opened Text

  /** `addImageField`: one more empty field at the end. */
  function AddImageField(fields: seq<string>): (r: seq<string>)
    ensures |r| == |fields| + 1 && r[..|fields|] == fields && r[|fields|] == ""
  {
    fields + [""]
  }

  /** The list without position i; unchanged when i is not a position. */
  function DropIndex(fields: seq<string>, i: int): (r: seq<string>)
    ensures 0 <= i < |fields| ==> |r| == |fields| - 1
    ensures !(0 <= i < |fields|) ==> r == fields
    ensures 0 <= i < |fields| ==> forall j :: 0 <= j < |r| ==> r[j] == (if j < i then fields[j] else fields[j + 1])
  {
    if 0 <= i < |fields| then fields[..i] + fields[i + 1..] else fields
  }

  /** `removeImageField`: the fields without position i; an empty result becomes one empty field. */
  function RemoveImageField(fields: seq<string>, i: int): (r: seq<string>)
    ensures |r| > 0
    ensures |DropIndex(fields, i)| > 0 ==> r == DropIndex(fields, i)
    ensures |DropIndex(fields, i)| == 0 ==> r == [""]
  {
    var kept := DropIndex(fields, i);
    if |kept| > 0 then kept else [""]
  }

  /** `updateImageField`: position i gets the new value, the rest and the length stay. */
  function UpdateImageField(fields: seq<string>, i: int, value: string): (r: seq<string>)
    requires 0 <= i < |fields|
    ensures |r| == |fields| && r[i] == value
    ensures forall j :: 0 <= j < |fields| && j != i ==> r[j] == fields[j]
  {
    fields[i := value]
  }

  /** Adding, removing and updating fields keeps the list non-empty. */
  lemma FieldEditsKeepNonEmpty(fields: seq<string>, i: int, j: int, value: string)
    requires |fields| > 0 && 0 <= j < |fields|
    ensures |AddImageField(fields)| > 0
    ensures |RemoveImageField(fields, i)| > 0
    ensures |UpdateImageField(fields, j, value)| > 0
  {
  }

  /** The fields that are not blank, untrimmed and in their order (a field trims to "" exactly
      when it is all white space). */
  function ValidImages(fields: seq<string>): (r: seq<string>)
    ensures |r| <= |fields|
    ensures forall u :: u in r <==> u in fields && !AllWhitespace(u)
  {
    if |fields| == 0 then []
    else (if !AllWhitespace(fields[0]) then [fields[0]] else []) + ValidImages(fields[1..])
  }

  /** The kept fields are exactly those whose trimmed text is non-empty. */
  lemma ValidImagesAreNonBlank(fields: seq<string>, u: string)
    ensures u in ValidImages(fields) <==> u in fields && Trim(u) != ""
  {
    TrimEmptyIffBlank(u);
  }

  /** The filter distributes over concatenation, so kept fields keep their relative order. */
  lemma {:induction false} ValidImagesConcat(a: seq<string>, b: seq<string>)
    ensures ValidImages(a + b) == ValidImages(a) + ValidImages(b)
  {
    if |a| == 0 {
      assert a + b == b;
    } else {
      assert (a + b)[1..] == a[1..] + b;
      ValidImagesConcat(a[1..], b);
    }
  }

  /** The rows saved for the valid fields: one per field, the URL as typed, `display_order`
      counting from 0. */
  function ImageRecords(productId: Id, valid: seq<string>): (r: seq<ProductImage>)
    ensures |r| == |valid|
    ensures forall k :: 0 <= k < |r| ==> r[k] == ProductImage(productId, valid[k], k)
  {
    seq(|valid|, k requires 0 <= k < |valid| => ProductImage(productId, valid[k], k))
  }

  /** The rows of one product, in table order. */
  function ImagesOf(images: seq<ProductImage>, productId: Id): (r: seq<ProductImage>)
    ensures |r| <= |images|
    ensures forall x :: x in r <==> x in images && x.productId == productId
  {
    if |images| == 0 then []
    else (if images[0].productId == productId then [images[0]] else []) + ImagesOf(images[1..], productId)
  }

  /** The table without the rows of one product. */
  function DeleteImagesOf(images: seq<ProductImage>, productId: Id): (r: seq<ProductImage>)
    ensures |r| <= |images|
    ensures forall x :: x in r <==> x in images && x.productId != productId
  {
    if |images| == 0 then []
    else (if images[0].productId == productId then [] else [images[0]]) + DeleteImagesOf(images[1..], productId)
  }

  lemma {:induction false} ImagesOfConcat(a: seq<ProductImage>, b: seq<ProductImage>, productId: Id)
    ensures ImagesOf(a + b, productId) == ImagesOf(a, productId) + ImagesOf(b, productId)
  {
    if |a| == 0 {
      assert a + b == b;
    } else {
      assert (a + b)[1..] == a[1..] + b;
      ImagesOfConcat(a[1..], b, productId);
    }
  }

  lemma {:induction false} ImagesOfOwn(rows: seq<ProductImage>, productId: Id)
    requires forall k :: 0 <= k < |rows| ==> rows[k].productId == productId
    ensures ImagesOf(rows, productId) == rows
  {
    if |rows| > 0 {
      assert forall k :: 0 <= k < |rows[1..]| ==> rows[1..][k] == rows[k + 1];
      ImagesOfOwn(rows[1..], productId);
    }
  }

  lemma ImagesOfNone(rows: seq<ProductImage>, productId: Id)
    requires forall x :: x in rows ==> x.productId != productId
    ensures ImagesOf(rows, productId) == []
  {
    if ImagesOf(rows, productId) != [] {
      assert ImagesOf(rows, productId)[0] in ImagesOf(rows, productId);
    }
  }

  /** A product's fields as stored (everything but the id); parsing the form's text into
      these numbers is not part of this model. */
  datatype ProductData = ProductData(
    name: string,
    description: Option<string>,
    price: int,
    discountPrice: Option<int>,
    imageUrl: Option<string>,
    category: Option<string>,
    stock: int)

  function WithId(d: ProductData, id: Id): Product
  {
    Product(id, d.name, d.description, d.price, d.discountPrice, d.imageUrl, d.category, d.stock)
  }

  /** The `products` update: the rows with the id get the new data, the others stay. */
  function UpdateProduct(products: seq<Product>, id: Id, d: ProductData): (r: seq<Product>)
    ensures |r| == |products|
    ensures forall i :: 0 <= i < |products| ==> r[i] == (if products[i].id == id then WithId(d, id) else products[i])
  {
    if |products| == 0 then []
    else [if products[0].id == id then WithId(d, id) else products[0]] + UpdateProduct(products[1..], id, d)
  }

  /** The form's seven text inputs. */
  datatype FormText = FormText(name: string, description: string, price: string, discountPrice: string,
                               imageUrl: string, category: string, stock: string)

  const EmptyForm: FormText := FormText("", "", "", "", "", "", "")

  /** The editor's state and the two tables it writes. */
  datatype Editor = Editor(
    products: seq<Product>,
    images: seq<ProductImage>,
    listed: seq<Product>,
    form: FormText,
    fields: seq<string>,
    editing: Option<Product>,
    showForm: bool,
    loading: bool)

  /** `resetForm`: empty inputs, one empty image field, not editing, form hidden. */
  function ResetForm(s: Editor): (r: Editor)
    ensures r.form == EmptyForm && r.fields == [""] && r.editing.None? && !r.showForm
    ensures r.products == s.products && r.images == s.images && r.listed == s.listed && r.loading == s.loading
  {
    s.(form := EmptyForm, fields := [""], editing := None, showForm := false)
  }

  /** The outcomes of the backend calls `handleSubmit` makes: the product write, the image
      delete (whose result is never looked at), the image insert, and the list refetch that
      follows a successful save. */
  datatype Backend = Backend(productWriteOk: bool, imagesDeleteOk: bool, imagesInsertOk: bool, listOk: bool)

  /** The product id the save works on: the edited product's, or the new row's. */
  function TargetId(s: Editor, newId: Id): Id
  {
    if s.editing.Some? then s.editing.value.id else newId
  }

  /** The `product_images` table after the product write succeeded: when editing, the
      product's rows are deleted first (a failed delete is ignored); the records of the valid
      fields are appended when there are any and their insert succeeds. */
  function SaveImages(images: seq<ProductImage>, productId: Id, editing: bool, fields: seq<string>, b: Backend): (r: seq<ProductImage>)
    // other products' rows are neither added nor removed
    ensures forall x: ProductImage :: x.productId != productId ==> (x in r <==> x in images)
    // after a successful delete, the product's rows are exactly the new records
    ensures editing && b.imagesDeleteOk ==>
      forall x: ProductImage :: x.productId == productId ==> (x in r <==> b.imagesInsertOk && x in ImageRecords(productId, ValidImages(fields)))
    // the records are appended when there are valid fields and the insert succeeds
    ensures var recs := ImageRecords(productId, ValidImages(fields));
            |recs| > 0 && b.imagesInsertOk ==> |r| >= |recs| && r[|r| - |recs|..] == recs
    // a failed or skipped insert, with no delete, leaves the table as it was
    ensures !(editing && b.imagesDeleteOk) && !(|ValidImages(fields)| > 0 && b.imagesInsertOk) ==> r == images
  {
    var base := if editing && b.imagesDeleteOk then DeleteImagesOf(images, productId) else images;
    var recs := ImageRecords(productId, ValidImages(fields));
    if |recs| > 0 && b.imagesInsertOk then
      assert (base + recs)[|base|..] == recs;
      base + recs
    else base
  }

  /** `handleSubmit`: a failed product write changes nothing but the loading flag; otherwise
      the product row is updated or inserted, the images saved, and, unless the image insert
      fails, the form is reset and the list refetched; a failed refetch keeps the old list.
      A failed image insert leaves the product write and the image delete in place. */
  function HandleSubmit(s: Editor, d: ProductData, newId: Id, b: Backend): (r: Editor)
    ensures !r.loading
    ensures !b.productWriteOk ==> r == s.(loading := false)
    ensures b.productWriteOk && s.editing.Some? ==> r.products == UpdateProduct(s.products, s.editing.value.id, d)
    ensures b.productWriteOk && s.editing.None? ==> r.products == s.products + [WithId(d, newId)]
    ensures b.productWriteOk ==> r.images == SaveImages(s.images, TargetId(s, newId), s.editing.Some?, s.fields, b)
    ensures b.productWriteOk && (b.imagesInsertOk || |ValidImages(s.fields)| == 0) ==>
      r.fields == [""] && r.editing.None? && !r.showForm
    // the refetched list is the table as written; a failed refetch keeps the old list
    ensures b.productWriteOk && (b.imagesInsertOk || |ValidImages(s.fields)| == 0) && b.listOk ==>
      r.listed == r.products
    ensures b.productWriteOk && (b.imagesInsertOk || |ValidImages(s.fields)| == 0) && !b.listOk ==>
      r.listed == s.listed
    ensures b.productWriteOk && !b.imagesInsertOk && |ValidImages(s.fields)| > 0 ==>
      r.fields == s.fields && r.editing == s.editing && r.listed == s.listed
  {
    if !b.productWriteOk then s.(loading := false)
    else
      var id := TargetId(s, newId);
      var products := if s.editing.Some? then UpdateProduct(s.products, id, d) else s.products + [WithId(d, newId)];
      var images := SaveImages(s.images, id, s.editing.Some?, s.fields, b);
      var written := s.(products := products, images := images);
      if |ValidImages(s.fields)| > 0 && !b.imagesInsertOk then written.(loading := false)
      else ResetForm(written).(listed := if b.listOk then products else s.listed, loading := false)
  }

  /** `handleEdit`: the form shows the product (the numbers as text, formatted by the caller,
      the discount only when it is set and non-zero); the image fields are the product's saved
      URLs, or one empty field when it has none. A failed image fetch (`imagesFetchOk` false)
      reads as no rows, so the fields are one empty field whatever the table holds. */
  function HandleEdit(s: Editor, p: Product, priceText: string, discountText: string, stockText: string,
                      imagesFetchOk: bool): (r: Editor)
    ensures r.editing == Some(p) && r.showForm && |r.fields| > 0
    ensures r.form.name == p.name && r.form.price == priceText && r.form.stock == stockText
    ensures r.form.discountPrice == (if p.discountPrice.Some? && p.discountPrice.value != 0 then discountText else "")
    ensures !imagesFetchOk ==> r.fields == [""]
    ensures var saved := ImagesOf(s.images, p.id);
            imagesFetchOk ==>
            && (|saved| == 0 ==> r.fields == [""])
            && (|saved| > 0 ==> |r.fields| == |saved| && forall k :: 0 <= k < |saved| ==> r.fields[k] == saved[k].imageUrl)
  {
    var saved := if imagesFetchOk then ImagesOf(s.images, p.id) else [];
    var discount := if p.discountPrice.Some? && p.discountPrice.value != 0 then discountText else "";
    var form := FormText(p.name, OrEmpty(p.description), priceText, discount, OrEmpty(p.imageUrl), OrEmpty(p.category), stockText);
    var fields := if |saved| > 0 then seq(|saved|, k requires 0 <= k < |saved| => saved[k].imageUrl) else [""];
    s.(editing := Some(p), form := form, fields := fields, showForm := true)
  }

  function OrEmpty(x: Option<string>): string
  {
    if x.Some? then x.value else ""
  }

  /** After a successful delete and insert, the product's rows are exactly the new records,
      in order. */
  lemma SavedRowsOfProduct(images: seq<ProductImage>, productId: Id, fields: seq<string>)
    ensures ImagesOf(SaveImages(images, productId, true, fields, Backend(true, true, true, true)), productId)
         == ImageRecords(productId, ValidImages(fields))
  {
    var base := DeleteImagesOf(images, productId);
    var recs := ImageRecords(productId, ValidImages(fields));
    ImagesOfNone(base, productId);
    ImagesOfOwn(recs, productId);
    if |recs| > 0 {
      ImagesOfConcat(base, recs, productId);
    }
  }

  /** Saving an edited product and opening it again gives back the non-blank fields in their
      order (or one empty field when none were left), and the saved rows are numbered 0..k-1
      in table order, so ordering by `display_order` returns them as saved. */
  lemma EditAfterSaveRoundTrip(s: Editor, d: ProductData, p: Product)
    requires s.editing.Some? && p.id == s.editing.value.id
    ensures var saved := HandleSubmit(s, d, "", Backend(true, true, true, true));
            var valid := ValidImages(s.fields);
            && (forall k :: 0 <= k < |ImagesOf(saved.images, p.id)| ==> ImagesOf(saved.images, p.id)[k].displayOrder == k)
            && HandleEdit(saved, p, "", "", "", true).fields == if |valid| > 0 then valid else [""]
  {
    var saved := HandleSubmit(s, d, "", Backend(true, true, true, true));
    assert saved.images == SaveImages(s.images, p.id, true, s.fields, Backend(true, true, true, true));
    SavedRowsOfProduct(s.images, p.id, s.fields);
  }

  /** Opening a product whose image fetch fails, then saving it with every write answered,
      leaves the product with no image rows at all, whatever rows it had: the single empty
      field is filtered out, so the delete runs and nothing is inserted. */
  lemma FailedImageFetchThenSaveDropsImages(s: Editor, p: Product, d: ProductData,
                                            priceText: string, discountText: string, stockText: string)
    ensures var e := HandleEdit(s, p, priceText, discountText, stockText, false);
            ImagesOf(HandleSubmit(e, d, "", Backend(true, true, true, true)).images, p.id) == []
  {
    var e := HandleEdit(s, p, priceText, discountText, stockText, false);
    assert ValidImages(e.fields) == [];
    SavedRowsOfProduct(e.images, p.id, e.fields);
  }

  /** The stock cell's colours. */
  datatype Badge = GreenBadge | YellowBadge | RedBadge

  /** Green above 10, yellow from 1 to 10, red otherwise. */
  function StockBadge(stock: int): (b: Badge)
    ensures b == GreenBadge <==> stock > 10
    ensures b == YellowBadge <==> 1 <= stock <= 10
    ensures b == RedBadge <==> stock <= 0
  {
    if stock > 10 then GreenBadge else if stock > 0 then YellowBadge else RedBadge
  }
}
