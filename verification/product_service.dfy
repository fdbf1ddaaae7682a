/** The product catalogue. The repository is a sequence of stored products
    in storage order; the identifier the database assigns on save is a
    parameter. */
module ProductService {
  import opened Decimals

  /** A stored product. */
  datatype Product = Product(id: string, name: string, description: string, price: Decimal)

  datatype ProductRequest = ProductRequest(name: string, description: string, price: Decimal)

  datatype ProductResponse = ProductResponse(id: string, name: string, description: string, price: Decimal)

  /** `ProductRepository.save` of a product without identifier: the database
      assigns `assignedId` and appends the product. */
  function Save(store: seq<Product>, name: string, description: string, price: Decimal,
                assignedId: string): seq<Product>
  {
    store + [Product(assignedId, name, description, price)]
  }

  /** `ProductService.createProduct`: saves exactly one product built from
      the request. There is no validation, so every price, zero included,
      is accepted and stored as given. */
  function CreateProduct(store: seq<Product>, request: ProductRequest, assignedId: string): (after: seq<Product>)
    ensures |after| == |store| + 1
    ensures after[..|store|] == store
    ensures after[|store|].id == assignedId
    ensures after[|store|].name == request.name
    ensures after[|store|].description == request.description
    ensures after[|store|].price == request.price
  {
    Save(store, request.name, request.description, request.price, assignedId)
  }

  /** `mapToProductResponse`: a field-by-field copy. */
  function MapToProductResponse(product: Product): (response: ProductResponse)
    ensures response.id == product.id && response.name == product.name
    ensures response.description == product.description && response.price == product.price
  {
    ProductResponse(product.id, product.name, product.description, product.price)
  }

  /** No price validation: a request priced at zero is stored with price
      zero, like any other request. */
  lemma ZeroPriceIsStored(store: seq<Product>, name: string, description: string, assignedId: string)
    ensures var after := CreateProduct(store, ProductRequest(name, description, Zero), assignedId);
            |after| == |store| + 1 && after[|store|].price == Zero && after[|store|].price.unscaled == 0
  {
  }

  /** The mapping from a product to its response loses nothing: it is the
      identity on the four fields, so distinct products give distinct
      responses and each field can be read back unchanged. */
  lemma MapToProductResponseCopiesFields(p: Product, q: Product)
    ensures MapToProductResponse(p) == MapToProductResponse(q) <==> p == q
    ensures var r := MapToProductResponse(p);
            r.id == p.id && r.name == p.name && r.description == p.description && r.price == p.price
  {
  }

  /** `ProductService.getAllProducts`: one response per stored product, in
      storage order, each carrying that product's fields. The store itself is
      an input only and is left as it was. */
  function GetAllProducts(store: seq<Product>): (responses: seq<ProductResponse>)
    ensures |responses| == |store|
    ensures forall i :: 0 <= i < |store| ==>
              responses[i].id == store[i].id
              && responses[i].name == store[i].name
              && responses[i].description == store[i].description
              && responses[i].price == store[i].price
  {
    if store == [] then [] else [MapToProductResponse(store[0])] + GetAllProducts(store[1..])
  }

  /** Listing is computed product by product: the listing of a store made
      of two parts is the listing of the first part followed by that of the
      second. */
  lemma {:induction false} GetAllProductsConcat(a: seq<Product>, b: seq<Product>)
    ensures GetAllProducts(a + b) == GetAllProducts(a) + GetAllProducts(b)
  {
    if a == [] {
      assert a + b == b;
    } else {
      assert (a + b)[0] == a[0];
      assert (a + b)[1..] == a[1..] + b;
      GetAllProductsConcat(a[1..], b);
    }
  }

  /** Creating a product and then listing the catalogue gives the earlier
      listing followed by exactly the new product, whose name, description
      and price are the request's. */
  lemma CreateThenList(store: seq<Product>, request: ProductRequest, assignedId: string)
    ensures var listed := GetAllProducts(CreateProduct(store, request, assignedId));
            && |listed| == |store| + 1
            && listed[..|store|] == GetAllProducts(store)
            && listed[|store|] == ProductResponse(assignedId, request.name, request.description, request.price)
  {
    var created := Product(assignedId, request.name, request.description, request.price);
    assert CreateProduct(store, request, assignedId) == store + [created];
    GetAllProductsConcat(store, [created]);
  }
}
