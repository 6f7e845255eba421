/** The home page's product data: every product joined with its secondary image (the first
    `display_order` 0 row of `product_images`), then cut into the featured and sale rows. */
module Home {
  import opened Tables

  /** The first row, in table order, of the product with `display_order` 0. */
  function FirstFrontImage(images: seq<ProductImage>, productId: Id): (r: Option<ProductImage>)
    ensures r.Some? ==> r.value in images && r.value.productId == productId && r.value.displayOrder == 0
    ensures r.None? <==> forall x :: x in images ==> !(x.productId == productId && x.displayOrder == 0)
  {
    if |images| == 0 then None
    else if images[0].productId == productId && images[0].displayOrder == 0 then Some(images[0])
    else
      assert forall x :: x in images ==> x == images[0] || x in images[1..];
      FirstFrontImage(images[1..], productId)
  }

  /** `secondaryImg?.image_url || null`: the URL of that row, null when there is none or its
      URL is empty. */
  function SecondaryImage(images: seq<ProductImage>, productId: Id): (r: Option<string>)
    ensures r.Some? ==> r.value != "" && exists x :: x in images && x.productId == productId && x.displayOrder == 0 && x.imageUrl == r.value
    ensures (forall x :: x in images ==> !(x.productId == productId && x.displayOrder == 0)) ==> r.None?
    // a found row with a non-empty URL is what the card gets
    ensures var first := FirstFrontImage(images, productId);
            first.Some? && first.value.imageUrl != "" ==> r == Some(first.value.imageUrl)
    ensures var first := FirstFrontImage(images, productId);
            first.Some? && first.value.imageUrl == "" ==> r.None?
    // when every order-0 row of the product has a URL and one exists, the card gets one
    ensures (exists x :: x in images && x.productId == productId && x.displayOrder == 0)
            && (forall x :: x in images && x.productId == productId && x.displayOrder == 0 ==> x.imageUrl != "")
            ==> r.Some?
  {
    var first := FirstFrontImage(images, productId);
    if first.Some? && first.value.imageUrl != "" then Some(first.value.imageUrl) else None
  }

  /** A product as handed to the cards. */
  datatype Listed = Listed(product: Product, secondaryImage: Option<string>)

  /** The join: the same products in the same order, each with its secondary image, or none
      for all when the image query returns no data. With no products no image query is made
      and the result is empty. */
  function WithSecondary(products: seq<Product>, images: seq<ProductImage>, imagesOk: bool): (r: seq<Listed>)
    ensures |r| == |products|
    ensures forall i :: 0 <= i < |products| ==> r[i].product == products[i]
    ensures forall i :: 0 <= i < |products| ==>
      r[i].secondaryImage == (if imagesOk then SecondaryImage(images, products[i].id) else None)
  {
    if |products| == 0 then []
    else seq(|products|, i requires 0 <= i < |products| =>
               Listed(products[i], if imagesOk then SecondaryImage(images, products[i].id) else None))
  }

  function Min(a: int, b: int): int
  {
    if a <= b then a else b
  }

  /** `slice(0, 3)`: the first three products (fewer when there are fewer). */
  function Featured<T>(xs: seq<T>): (r: seq<T>)
    ensures |r| == Min(3, |xs|) && r == xs[..|r|]
  {
    xs[..Min(3, |xs|)]
  }

  /** `slice(3, 6)`: positions 3 to 5 (fewer when there are fewer). */
  function Sale<T>(xs: seq<T>): (r: seq<T>)
    ensures |r| == Min(6, |xs|) - Min(3, |xs|)
    ensures forall k :: 0 <= k < |r| ==> r[k] == xs[k + 3]
  {
    xs[Min(3, |xs|)..Min(6, |xs|)]
  }

  /** The two rows hold at most three products each, take disjoint positions, and together
      are the first six products in order; the sale row is non-empty only once the featured
      row is full. */
  lemma SlicesPartitionFirstSix<T>(xs: seq<T>)
    ensures |Featured(xs)| <= 3 && |Sale(xs)| <= 3
    ensures Featured(xs) + Sale(xs) == xs[..Min(6, |xs|)]
    ensures |Sale(xs)| > 0 ==> |Featured(xs)| == 3
  {
    assert xs[..Min(6, |xs|)] == xs[..Min(3, |xs|)] + xs[Min(3, |xs|)..Min(6, |xs|)];
  }

  /** Which sections render: the sale section when its row is non-empty, the featured section
      when its row is. */
  datatype Sections = Sections(sale: bool, featured: bool)

  function VisibleSections<T>(xs: seq<T>): (r: Sections)
    ensures r.sale <==> |xs| > 3
    ensures r.featured <==> |xs| > 0
  {
    Sections(|Sale(xs)| > 0, |Featured(xs)| > 0)
  }

  /** The home page's rows: products in fetch order (none when the fetch fails), joined with
      their secondary images and sliced. */
  datatype Page = Page(featured: seq<Listed>, sale: seq<Listed>)

  function HomePage(products: seq<Product>, productsOk: bool, images: seq<ProductImage>, imagesOk: bool): (r: Page)
    ensures !productsOk ==> r == Page([], [])
    ensures productsOk ==> |r.featured| == Min(3, |products|)
    ensures productsOk ==> forall k :: 0 <= k < |r.featured| ==> r.featured[k].product == products[k]
    ensures productsOk ==> |r.sale| == Min(6, |products|) - Min(3, |products|)
    ensures productsOk ==> forall k :: 0 <= k < |r.sale| ==> r.sale[k].product == products[k + 3]
  {
    var list := if productsOk then products else [];
    var joined := WithSecondary(list, images, imagesOk);
    Page(Featured(joined), Sale(joined))
  }
}
