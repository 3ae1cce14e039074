/**
 * The five handlers of the /api/v1/products route group. An IResult is an
 * ApiResult value; an exception that escapes a handler (handled by the host's
 * exception middleware, whose code is not part of this model) is Unhandled.
 */
module Endpoints {
  import opened Wrappers
  import opened Guids
  import opened Text
  import opened Entities
  import opened Dto
  import opened Validators
  import opened Repositories
  import opened Messaging
  import opened Services

  datatype Body =
    | Products(items: seq<ProductResponse>)
    | Item(product: ProductResponse)
    | Deleted(flag: bool)

  datatype ApiResult =
    | Ok(body: Body)
    | NotFound
    | BadRequest(message: string)
    | ValidationProblem(errors: map<string, seq<string>>)
    | Created(location: string, created: ProductResponse)
    | Problem(detail: string)
    | Unhandled(error: ServiceError)

  const RouteGroup := "/api/v1/products"
  const IdMismatch := "ProductID in the URL doesn't match with the ProductID in the Request body"
  const AddingFailed := "Error in adding product"
  const UpdatingFailed := "Error in updating product"
  const DeletingFailed := "Error in deleting product"

  /** $"/api/v1/products/{ProductID}" */
  function Location(id: Guid): (location: string)
    ensures |location| == |RouteGroup| + 1 + 36
    ensures location[..|RouteGroup| + 1] == RouteGroup + "/"
  {
    RouteGroup + "/" + GuidText(id)
  }

  /** The location names the created product, and only it. */
  lemma LocationNamesProduct(id: Guid)
    ensures GuidFromText(Location(id)[|RouteGroup| + 1..]) == Some(id)
  {
    assert Location(id)[|RouteGroup| + 1..] == GuidText(id);
    GuidTextRoundTrip(id);
  }

  lemma LocationsDistinct(a: Guid, b: Guid)
    requires a != b
    ensures Location(a) != Location(b)
  {
    if Location(a) == Location(b) {
      LocationNamesProduct(a);
      LocationNamesProduct(b);
    }
  }

  /** The messages of the failures reported for the named property, in order. */
  function {:induction false} MessagesNamed(errors: seq<ValidationFailure>, name: string): (ms: seq<string>)
    ensures |ms| <= |errors|
    ensures forall m :: m in ms <==> exists e :: e in errors && PropertyName(e.property) == name && e.errorMessage == m
  {
    if errors == [] then []
    else
      var rest := MessagesNamed(errors[1..], name);
      assert forall e :: e in errors <==> e == errors[0] || e in errors[1..];
      (if PropertyName(errors[0].property) == name then [errors[0].errorMessage] else []) + rest
  }

  /** One failure contributes its message exactly when it is about the named property. */
  lemma MessagesNamedSingle(e: ValidationFailure, name: string)
    ensures MessagesNamed([e], name) == if PropertyName(e.property) == name then [e.errorMessage] else []
  {
    assert [e][1..] == [];
  }

  /**
   * Select(err => err.ErrorMessage) over a group keeps one message per failure,
   * in the order of Errors: collecting distributes over concatenation.
   */
  lemma {:induction false} MessagesNamedAppend(a: seq<ValidationFailure>, b: seq<ValidationFailure>, name: string)
    ensures MessagesNamed(a + b, name) == MessagesNamed(a, name) + MessagesNamed(b, name)
  {
    if a == [] {
      assert a + b == b;
    } else {
      var ab := a + b;
      assert ab[0] == a[0] && ab[1..] == a[1..] + b;
      var head := if PropertyName(a[0].property) == name then [a[0].errorMessage] else [];
      assert MessagesNamed(ab, name) == head + MessagesNamed(a[1..] + b, name);
      assert MessagesNamed(a, name) == head + MessagesNamed(a[1..], name);
      MessagesNamedAppend(a[1..], b, name);
      AppendAssociates(head, MessagesNamed(a[1..], name), MessagesNamed(b, name));
    }
  }

  lemma AppendAssociates(x: seq<string>, y: seq<string>, z: seq<string>)
    ensures x + (y + z) == (x + y) + z
  {
  }

  /**
   * Errors.GroupBy(e => e.PropertyName).ToDictionary(g => g.Key, g => messages):
   * one entry per failing property, holding its messages one per failure
   * and in the order of Errors.
   */
  function GroupErrors(errors: seq<ValidationFailure>): (groups: map<string, seq<string>>)
    ensures forall e :: e in errors ==> PropertyName(e.property) in groups
    ensures forall e :: e in errors ==> e.errorMessage in groups[PropertyName(e.property)]
    ensures forall k :: k in groups ==> groups[k] != []
    ensures forall k, m :: k in groups && m in groups[k] ==>
              exists e :: e in errors && PropertyName(e.property) == k && e.errorMessage == m
    ensures errors == [] <==> groups == map[]
    ensures groups.Keys == set e | e in errors :: PropertyName(e.property)
    ensures forall k :: k in groups ==> groups[k] == MessagesNamed(errors, k)
  {
    var names := set e | e in errors :: PropertyName(e.property);
    var groups := map k | k in names :: MessagesNamed(errors, k);
    assert errors != [] ==> PropertyName(errors[0].property) in groups;
    groups
  }

  /** The search condition of GetAllProducts. */
  function SearchMatches(searchString: string): (matches: Product -> bool)
    ensures forall p: Product :: Contains(p.productName, searchString) ==> matches(p)
    ensures forall p: Product :: Contains(CategoryName(p.category), searchString) ==> matches(p)
    ensures forall p: Product :: matches(p) <==>
      ContainsIgnoreCase(p.productName, searchString) || ContainsIgnoreCase(CategoryName(p.category), searchString)
  {
    (p: Product) =>
      ContainsIgnoreCase(p.productName, searchString) || ContainsIgnoreCase(CategoryName(p.category), searchString)
  }

  /** The search ignores case: a folded search string selects the same products. */
  lemma SearchIgnoresCase(searchString: string, p: Product)
    ensures SearchMatches(Fold(searchString))(p) == SearchMatches(searchString)(p)
  {
    IgnoreCaseIgnoresFolding(p.productName, searchString);
    IgnoreCaseIgnoresFolding(CategoryName(p.category), searchString);
  }

  /** GET /api/v1/products?searchString=... */
  method GetAllProducts(service: ProductService, searchString: Option<string>) returns (r: ApiResult)
    ensures IsNullOrWhiteSpace(searchString) ==> r == Ok(Products(ToResponses(service.repository.products)))
    ensures !IsNullOrWhiteSpace(searchString) ==>
      r == Ok(Products(ToResponses(Filter(service.repository.products, SearchMatches(searchString.value)))))
    ensures !IsNullOrWhiteSpace(searchString) ==>
      (forall i :: 0 <= i < |r.body.items| ==>
         exists p :: p in service.repository.products && r.body.items[i] == ToResponse(p)
           && (ContainsIgnoreCase(p.productName, searchString.value)
               || ContainsIgnoreCase(CategoryName(p.category), searchString.value)))
    ensures !IsNullOrWhiteSpace(searchString) ==>
      (forall p :: p in service.repository.products
         && (ContainsIgnoreCase(p.productName, searchString.value)
             || ContainsIgnoreCase(CategoryName(p.category), searchString.value))
         ==> ToResponse(p) in r.body.items)
  {
    var products: seq<ProductResponse>;
    if !IsNullOrWhiteSpace(searchString) {
      var matches := SearchMatches(searchString.value);
      products := service.GetProductsByCondition(matches);
      ghost var matching := Filter(service.repository.products, matches);
      forall p | p in matching ensures ToResponse(p) in products {
        var k :| 0 <= k < |matching| && matching[k] == p;
        assert products[k] == ToResponse(p);
      }
    } else {
      products := service.GetProducts();
    }
    r := Ok(Products(products));
  }

  /** GET /api/v1/products/{id} */
  method GetProduct(service: ProductService, id: Guid) returns (r: ApiResult)
    ensures r == NotFound <==> !HasId(service.repository.products, id)
    ensures r != NotFound ==>
      exists i :: 0 <= i < |service.repository.products| && service.repository.products[i].productID == id
        && r == Ok(Item(ToResponse(service.repository.products[i])))
  {
    var product := service.GetProductByCondition(IdIs(id));
    if product.None? {
      r := NotFound;
      assert forall i :: 0 <= i < |service.repository.products| ==> service.repository.products[i] in service.repository.products;
    } else {
      r := Ok(Item(product.value));
      ghost var i := FirstIndex(service.repository.products, IdIs(id)).value;
      assert service.repository.products[i].productID == id;
    }
  }

  /** POST /api/v1/products; newId is the key the store generates. */
  method CreateProduct(service: ProductService, request: ProductAddRequest, newId: Guid) returns (r: ApiResult)
    requires service.Valid()
    requires newId != EmptyGuid && !HasId(service.repository.products, newId)
    modifies service.repository
    ensures service.Valid()
    ensures ValidateAdd(request) != [] ==>
      r == ValidationProblem(GroupErrors(ValidateAdd(request)))
      && service.repository.products == old(service.repository.products)
    ensures ValidateAdd(request) == [] ==>
      var product := ProductFromAdd(request, newId);
      r == Created(Location(newId), ToResponse(product))
      && service.repository.products == old(service.repository.products) + [product]
  {
    var errors := ValidateAdd(request);
    if errors != [] {
      return ValidationProblem(GroupErrors(errors));
    }
    var insertProduct := service.AddProduct(Some(request), newId);
    match insertProduct
    case Success(Some(response)) =>
      r := Created(Location(response.productID), response);
    case Success(None) =>
      r := Problem(AddingFailed);
    case Failure(e) =>
      r := Unhandled(e);
  }

  /** PUT /api/v1/products/{id} */
  method UpdateProduct(service: ProductService, id: Guid, request: ProductUpdateRequest) returns (r: ApiResult)
    requires service.Valid()
    modifies service.repository, service.publisher
    ensures service.Valid()
    ensures id != request.productID || ValidateUpdate(request) != [] || !HasId(old(service.repository.products), id) ==>
      service.repository.products == old(service.repository.products)
      && service.publisher.published == old(service.publisher.published)
    ensures id != request.productID ==> r == BadRequest(IdMismatch)
    ensures id == request.productID && ValidateUpdate(request) != [] ==>
      r == ValidationProblem(GroupErrors(ValidateUpdate(request)))
    ensures id == request.productID && ValidateUpdate(request) == [] && !HasId(old(service.repository.products), id) ==>
      r == Unhandled(Argument(InvalidProductId))
    ensures id == request.productID && ValidateUpdate(request) == [] && HasId(old(service.repository.products), id) ==>
      var updated := ProductFromUpdate(request);
      && r == Ok(Item(ToResponse(updated)))
      && service.repository.products == ReplaceById(old(service.repository.products), updated)
      && service.publisher.published == old(service.publisher.published) + [Message(UpdateHeaders, UpdatedProduct(updated))]
  {
    if id != request.productID {
      return BadRequest(IdMismatch);
    }
    var errors := ValidateUpdate(request);
    if errors != [] {
      return ValidationProblem(GroupErrors(errors));
    }
    var updatedProduct := service.UpdateProduct(request);
    match updatedProduct
    case Success(Some(response)) =>
      r := Ok(Item(response));
    case Success(None) =>
      r := Problem(UpdatingFailed);
    case Failure(e) =>
      r := Unhandled(e);
  }

  /** DELETE /api/v1/products/{id}: a missing id is a Problem, not NotFound. */
  method DeleteProduct(service: ProductService, id: Guid) returns (r: ApiResult)
    requires service.Valid()
    modifies service.repository, service.publisher
    ensures service.Valid()
    ensures r == if HasId(old(service.repository.products), id) then Ok(Deleted(true)) else Problem(DeletingFailed)
    ensures service.repository.products == RemoveId(old(service.repository.products), id)
    ensures !HasId(old(service.repository.products), id) ==> service.publisher.published == old(service.publisher.published)
    ensures HasId(old(service.repository.products), id) ==>
      service.publisher.published
      == old(service.publisher.published)
         + [Message(DeleteHeaders, ProductDeleteMessage(id, FirstOrDefault(old(service.repository.products), IdIs(id)).value.productName))]
  {
    var isDeleted := service.DeleteProduct(id);
    if isDeleted {
      r := Ok(Deleted(isDeleted));
    } else {
      r := Problem(DeletingFailed);
    }
  }
}
