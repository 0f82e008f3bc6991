/** The "list your item" form (components/AddProductModal.tsx): its
    fields, the image upload, the submit guard, and the product it hands to
    the page. The clock reading and the numeric value of the price text are
    parameters. */
module Intake {
  import opened Types
  import Catalog

  /** The form's fields. `image` is `None` until an image is chosen. */
  datatype Form = Form(name: string, brand: string, price: string, category: string, image: Option<string>)

  /** What a submit asks of the page, in order. */
  datatype Effect = Add(product: Product) | Close

  /** The form as it opens: empty fields, no image, and the first of the
      category options selected. */
  function InitialForm(categories: seq<string>): (f: Form)
    requires |categories| > 0
    ensures f.name == "" && f.brand == "" && f.price == ""
    ensures f.category == categories[0]
    ensures f.image == None
    ensures !CanSubmit(f)
  {
    Form("", "", "", categories[0], None)
  }

  /** `handleImageUpload`: with a chosen file the image becomes that file's
      object URL; with no file nothing changes. */
  function UploadImage(f: Form, fileUrl: Option<string>): (r: Form)
    ensures fileUrl == None ==> r == f
    ensures fileUrl != None ==> r.image == fileUrl
    ensures r.name == f.name && r.brand == f.brand && r.price == f.price && r.category == f.category
  {
    match fileUrl
    case None => f
    case Some(url) => f.(image := Some(url))
  }

  /** A text field counts as filled when it is not the empty string. */
  predicate Filled(s: string) {
    s != ""
  }

  /** An image counts as present when it is set and not empty. */
  predicate HasImage(image: Option<string>) {
    image.Some? && image.value != ""
  }

  /** The guard at the top of `handleSubmit`, as written: it returns early
      when any of name, brand, price or image is falsy. */
  predicate SubmitReturnsEarly(f: Form) {
    !Filled(f.name) || !Filled(f.brand) || !Filled(f.price) || !HasImage(f.image)
  }

  predicate CanSubmit(f: Form) {
    !SubmitReturnsEarly(f)
  }

  /** The `disabled` expression of the submit button, as written. */
  function SubmitDisabled(f: Form): (disabled: bool)
    ensures disabled <==> !CanSubmit(f)
    ensures disabled <==> Submit(f, 0, 0) == []
  {
    f.name == "" || f.brand == "" || f.price == "" || f.image == None || f.image == Some("")
  }

  /** The button is disabled exactly when submitting would do nothing. */
  lemma DisabledIffGuardFails(f: Form)
    ensures SubmitDisabled(f) <==> !CanSubmit(f)
  {
  }

  /** The record built from a passing form. */
  function NewProduct(f: Form, now: int, parsedPrice: int): (p: Product)
    requires HasImage(f.image)
    ensures p.id == now && p.price == parsedPrice
    ensures p.name == f.name && p.brand == f.brand && p.category == f.category && p.image == f.image.value
    ensures IsNew(p) && p.isSale == None && p.originalPrice == None
  {
    Product(now, f.name, f.brand, parsedPrice, None, f.category, f.image.value, Some(true), None)
  }

  /** `handleSubmit`: nothing when the guard fails; otherwise the new
      product is handed over once and the form then closes. */
  function Submit(f: Form, now: int, parsedPrice: int): (effects: seq<Effect>)
    ensures !CanSubmit(f) ==> effects == []
    ensures CanSubmit(f) ==> |effects| == 2 && effects[0].Add? && effects[1] == Close
    ensures CanSubmit(f) ==> effects[0].product == NewProduct(f, now, parsedPrice)
  {
    if SubmitReturnsEarly(f) then []
    else [Add(NewProduct(f, now, parsedPrice)), Close]
  }

  /** The page's state as far as the form is concerned. */
  datatype Page = Page(products: seq<Product>, formOpen: bool)

  /** The page's reaction to the effects, in order: `Add` runs
      `handleAddProduct`, `Close` hides the form. */
  function Apply(page: Page, effects: seq<Effect>): Page
    decreases |effects|
  {
    if |effects| == 0 then page
    else
      var next := match effects[0]
        case Add(p) => page.(products := Catalog.AddProduct(page.products, p))
        case Close => page.(formOpen := false);
      Apply(next, effects[1..])
  }

  /** Submitting an incomplete form leaves the catalogue and the open form
      as they were; submitting a complete one puts exactly one new product
      in front of the catalogue, flagged new and priced at the parsed value,
      and closes the form. */
  lemma SubmitEffectOnPage(page: Page, f: Form, now: int, parsedPrice: int)
    ensures !CanSubmit(f) ==> Apply(page, Submit(f, now, parsedPrice)) == page
    ensures CanSubmit(f) ==>
      var after := Apply(page, Submit(f, now, parsedPrice));
      && |after.products| == |page.products| + 1
      && after.products[1..] == page.products
      && IsNew(after.products[0]) && after.products[0].price == parsedPrice
      && !after.formOpen
  {
    if CanSubmit(f) {
      var effects := Submit(f, now, parsedPrice);
      var p := NewProduct(f, now, parsedPrice);
      var mid := page.(products := Catalog.AddProduct(page.products, p));
      assert effects[1..] == [Close];
      assert Apply(page, effects) == Apply(mid, [Close]);
      assert Apply(mid, [Close]) == Apply(mid.(formOpen := false), []);
    }
  }
}
