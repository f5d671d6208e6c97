/** Record shapes of the catalogue and the cart (shared/schema.ts), after
    validation. Prices are whole currency units; timestamps are integers. */
module Schema {

  datatype Option<+T> = None | Some(value: T)

  /** A JSON field as a request may carry it: left out, sent as `null`, or sent with a value.
      `undefined`, `null` and a value compare differently under `===`. */
  datatype Field<+T> = Absent | Null | Present(value: T)

  /** A catalogue entry; the optional columns are `null` when absent. */
  datatype Product = Product(
    id: int,
    sku: string,
    name: string,
    description: Option<string>,
    category: string,
    subcategory: Option<string>,
    price: nat,
    originalPrice: Option<nat>,
    fabric: Option<string>,
    fit: Option<string>,
    colors: Option<seq<string>>,
    sizes: Option<seq<string>>,
    images: Option<seq<string>>,
    tags: Option<seq<string>>,
    inStock: bool,
    stockCount: int,
    createdAt: int)

  /** A product as the seed list gives it: no id and no creation time. */
  datatype InsertProduct = InsertProduct(
    sku: string,
    name: string,
    description: Option<string>,
    category: string,
    subcategory: Option<string>,
    price: nat,
    originalPrice: Option<nat>,
    fabric: Option<string>,
    fit: Option<string>,
    colors: Option<seq<string>>,
    sizes: Option<seq<string>>,
    images: Option<seq<string>>,
    tags: Option<seq<string>>,
    inStock: Option<bool>,
    stockCount: Option<int>)

  /** A stored cart line. `productId` is a weak reference to a product. */
  datatype CartItem = CartItem(
    id: int,
    productId: Option<int>,
    quantity: int,
    selectedColor: Option<string>,
    selectedSize: Option<string>,
    sessionId: string,
    createdAt: int)

  /** A validated add-to-cart payload: everything but id and creation time. */
  datatype InsertCartItem = InsertCartItem(
    productId: Field<int>,
    quantity: Option<int>,
    selectedColor: Field<string>,
    selectedSize: Field<string>,
    sessionId: string)

  /** A validated partial update: no id, creation time or session; every field optional. */
  datatype UpdateCartItem = UpdateCartItem(
    productId: Field<int>,
    quantity: Option<int>,
    selectedColor: Field<string>,
    selectedSize: Field<string>)

  /** A cart line joined to the product it refers to (`CartItem & { product }`). */
  datatype CartLine = CartLine(item: CartItem, product: Product)
}
