/**
 * The business layer's request and response records and the field-by-field
 * mappings between them and the entity.
 */
module Dto {
  import opened Wrappers
  import opened Guids
  import opened Entities

  /** A null ProductName is None; Category is the raw enumeration value. */
  datatype ProductAddRequest = ProductAddRequest(
    productName: Option<string>,
    category: int32,
    unitPrice: real,
    quantityInStock: int32)

  datatype ProductUpdateRequest = ProductUpdateRequest(
    productID: Guid,
    productName: Option<string>,
    category: int32,
    unitPrice: real,
    quantityInStock: int32)

  datatype ProductResponse = ProductResponse(
    productID: Guid,
    productName: string,
    category: CategoryOptions,
    unitPrice: real,
    quantityInStock: int32)

  /** The request's fields that the add and update requests share. */
  function SharedFields(u: ProductUpdateRequest): ProductAddRequest {
    ProductAddRequest(u.productName, u.category, u.unitPrice, u.quantityInStock)
  }

  predicate Mappable(name: Option<string>, category: int32) {
    name.Some? && CategoryFromCode(category).Some?
  }

  /** The add request whose fields are the product's, by name (AutoMapper's reverse map). */
  function AddRequestOf(p: Product): ProductAddRequest {
    ProductAddRequest(Some(p.productName), CodeOf(p.category), p.unitPrice, p.quantityInStock)
  }

  /** The update request whose fields are the product's, by name. */
  function UpdateRequestOf(p: Product): ProductUpdateRequest {
    ProductUpdateRequest(p.productID, Some(p.productName), CodeOf(p.category), p.unitPrice, p.quantityInStock)
  }

  /** The entity a response was copied from, by name. */
  function ProductOf(r: ProductResponse): Product {
    Product(r.productID, r.productName, r.category, r.unitPrice, r.quantityInStock)
  }

  /**
   * Map<Product>(ProductAddRequest) with the key the store generates: every
   * request field keeps its value, so mapping back gives the request.
   */
  function ProductFromAdd(r: ProductAddRequest, id: Guid): (p: Product)
    requires Mappable(r.productName, r.category)
    ensures p.productID == id && AddRequestOf(p) == r
  {
    Product(id, r.productName.value, CategoryFromCode(r.category).value, r.unitPrice, r.quantityInStock)
  }

  /** Map<Product>(ProductUpdateRequest): every field, the key included, keeps its value. */
  function ProductFromUpdate(u: ProductUpdateRequest): (p: Product)
    requires Mappable(u.productName, u.category)
    ensures UpdateRequestOf(p) == u
  {
    Product(u.productID, u.productName.value, CategoryFromCode(u.category).value, u.unitPrice, u.quantityInStock)
  }

  /** Map<ProductResponse>(Product): no field is lost, so the entity can be rebuilt. */
  function ToResponse(p: Product): (r: ProductResponse)
    ensures ProductOf(r) == p
  {
    ProductResponse(p.productID, p.productName, p.category, p.unitPrice, p.quantityInStock)
  }

  /** The other direction: a product's own fields map back to that product. */
  lemma MappingRoundTrip(p: Product)
    ensures Mappable(AddRequestOf(p).productName, AddRequestOf(p).category)
    ensures ProductFromAdd(AddRequestOf(p), p.productID) == p
    ensures ProductFromUpdate(UpdateRequestOf(p)) == p
  {
    CategoryCodeRoundTrip(p.category);
  }

  /** The update map is the add map of the shared fields with the request's own key. */
  lemma UpdateMapsLikeAdd(u: ProductUpdateRequest)
    requires Mappable(u.productName, u.category)
    ensures ProductFromUpdate(u) == ProductFromAdd(SharedFields(u), u.productID)
  {
  }

  /** Map<IEnumerable<ProductResponse>>(products).ToList(): one response per product, in order. */
  function {:induction false} ToResponses(ps: seq<Product>): (rs: seq<ProductResponse>)
    ensures |rs| == |ps|
    ensures forall i :: 0 <= i < |ps| ==> rs[i] == ToResponse(ps[i])
  {
    if ps == [] then [] else [ToResponse(ps[0])] + ToResponses(ps[1..])
  }
}
