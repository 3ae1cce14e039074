/**
 * ProductService: validates requests, calls the repository, maps entities to
 * responses and publishes exactly one change event after the repository
 * confirms an update or a delete. Exceptions the source throws are Failure
 * results; a null response is None.
 */
module Services {
  import opened Wrappers
  import opened Guids
  import opened Text
  import opened Entities
  import opened Dto
  import opened Validators
  import opened Repositories
  import opened Messaging

  /** ArgumentNullException(paramName) and ArgumentException(message). */
  datatype ServiceError = ArgumentNull(paramName: string) | Argument(message: string)

  const InvalidProductId := "Invalid product id"

  /**
   * string.Join(", ", errors.Select(e => e.ErrorMessage)): the exception
   * message carries every failure's message; a single failure is its message alone.
   */
  function JoinedMessages(errors: seq<ValidationFailure>): (r: string)
    ensures forall i :: 0 <= i < |errors| ==> Contains(r, errors[i].errorMessage)
    ensures |errors| == 1 ==> r == errors[0].errorMessage
    ensures errors == [] ==> r == ""
  {
    var messages := Messages(errors);
    JoinContainsAll(messages, ", ");
    Join(messages, ", ")
  }

  class ProductService {
    const repository: ProductRepository
    const publisher: RabbitMQPublisher

    ghost predicate Valid()
      reads this, repository
    {
      repository.Valid()
    }

    constructor (repository: ProductRepository, publisher: RabbitMQPublisher)
      ensures this.repository == repository && this.publisher == publisher
    {
      this.repository := repository;
      this.publisher := publisher;
    }

    /** newId is the key the store generates for the inserted row. */
    method AddProduct(request: Option<ProductAddRequest>, newId: Guid) returns (r: Result<Option<ProductResponse>, ServiceError>)
      requires Valid()
      requires newId != EmptyGuid && !HasId(repository.products, newId)
      modifies repository
      ensures Valid()
      ensures publisher.published == old(publisher.published)
      ensures request.None? ==>
        r == Failure(ArgumentNull("productAddRequest")) && repository.products == old(repository.products)
      ensures request.Some? && ValidateAdd(request.value) != [] ==>
        && r == Failure(Argument(JoinedMessages(ValidateAdd(request.value))))
        && repository.products == old(repository.products)
      ensures request.Some? && ValidateAdd(request.value) == [] ==>
        && repository.products == old(repository.products) + [ProductFromAdd(request.value, newId)]
        && r.Success? && r.value.Some?
        && r.value.value.productID == newId
        && Some(r.value.value.productName) == request.value.productName
        && CategoryFromCode(request.value.category) == Some(r.value.value.category)
        && r.value.value.unitPrice == request.value.unitPrice
        && r.value.value.quantityInStock == request.value.quantityInStock
    {
      if request.None? {
        return Failure(ArgumentNull("productAddRequest"));
      }
      var errors := ValidateAdd(request.value);
      if errors != [] {
        return Failure(Argument(JoinedMessages(errors)));
      }
      var product := ProductFromAdd(request.value, newId);
      var addedProduct := repository.AddProduct(product);
      r := Success(Some(ToResponse(addedProduct)));
    }

    method DeleteProduct(productID: Guid) returns (deleted: bool)
      requires Valid()
      modifies repository, publisher
      ensures Valid()
      ensures deleted <==> HasId(old(repository.products), productID)
      ensures repository.products == RemoveId(old(repository.products), productID)
      ensures !deleted ==> publisher.published == old(publisher.published)
      ensures deleted ==>
        var p := FirstOrDefault(old(repository.products), IdIs(productID)).value;
        && p.productID == productID
        && publisher.published
           == old(publisher.published) + [Message(DeleteHeaders, ProductDeleteMessage(p.productID, p.productName))]
    {
      var existing := repository.GetProductByCondition(IdIs(productID));
      if existing.None? {
        RemoveAbsent(repository.products, productID);
        return false;
      }
      deleted := repository.DeleteProduct(existing.value.productID);
      if deleted {
        var message := ProductDeleteMessage(existing.value.productID, existing.value.productName);
        publisher.Publisher(DeleteHeaders, message);
      }
    }

    method GetProductByCondition(condition: Product -> bool) returns (r: Option<ProductResponse>)
      ensures r.None? <==> forall p :: p in repository.products ==> !condition(p)
      ensures r.Some? ==> exists p :: p in repository.products && condition(p) && r.value == ToResponse(p)
      ensures r.Some? ==> r.value == ToResponse(FirstOrDefault(repository.products, condition).value)
    {
      var product := repository.GetProductByCondition(condition);
      if product.Some? {
        r := Some(ToResponse(product.value));
      } else {
        r := None;
      }
    }

    method GetProducts() returns (responses: seq<ProductResponse>)
      ensures responses == ToResponses(repository.products)
      ensures |responses| == |repository.products|
      ensures forall i :: 0 <= i < |responses| ==> responses[i] == ToResponse(repository.products[i])
    {
      var products := repository.GetProducts();
      responses := ToResponses(products);
    }

    method GetProductsByCondition(condition: Product -> bool) returns (responses: seq<ProductResponse>)
      ensures responses == ToResponses(Filter(repository.products, condition))
      ensures forall i :: 0 <= i < |responses| ==> exists p :: p in repository.products && condition(p) && responses[i] == ToResponse(p)
    {
      var products := repository.GetProductsByCondition(condition);
      responses := ToResponses(products);
      assert forall i :: 0 <= i < |responses| ==> products[i] in products;
    }

    /** The existence check comes before validation. */
    method UpdateProduct(request: ProductUpdateRequest) returns (r: Result<Option<ProductResponse>, ServiceError>)
      requires Valid()
      modifies repository, publisher
      ensures Valid()
      ensures !HasId(old(repository.products), request.productID) ==>
        && r == Failure(Argument(InvalidProductId))
        && repository.products == old(repository.products)
        && publisher.published == old(publisher.published)
      ensures HasId(old(repository.products), request.productID) && ValidateUpdate(request) != [] ==>
        && r == Failure(Argument(JoinedMessages(ValidateUpdate(request))))
        && repository.products == old(repository.products)
        && publisher.published == old(publisher.published)
      ensures HasId(old(repository.products), request.productID) && ValidateUpdate(request) == [] ==>
        var updated := ProductFromUpdate(request);
        && repository.products == ReplaceById(old(repository.products), updated)
        && publisher.published == old(publisher.published) + [Message(UpdateHeaders, UpdatedProduct(updated))]
        && r == Success(Some(ToResponse(updated)))
    {
      var existing := repository.GetProductByCondition(IdIs(request.productID));
      if existing.None? {
        return Failure(Argument(InvalidProductId));
      }
      var errors := ValidateUpdate(request);
      if errors != [] {
        return Failure(Argument(JoinedMessages(errors)));
      }
      var product := ProductFromUpdate(request);
      var updateProduct := repository.UpdateProduct(product);
      if updateProduct.Some? {
        publisher.Publisher(UpdateHeaders, UpdatedProduct(updateProduct.value));
        r := Success(Some(ToResponse(updateProduct.value)));
      } else {
        r := Success(None);
      }
    }
  }
}
