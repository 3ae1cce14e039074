/**
 * Clients of the service contracts: the product life cycle of add, update and
 * a repeated delete, proved from the specifications of the operations alone.
 */
module Scenarios {
  import opened Wrappers
  import opened Guids
  import opened Text
  import opened Entities
  import opened Dto
  import opened Validators
  import opened Repositories
  import opened Messaging
  import opened Services

  /**
   * A second delete of the same id finds nothing and publishes nothing: the
   * table loses exactly that row and the log gains exactly one delete event.
   */
  method DeleteTwice(service: ProductService, id: Guid) returns (first: bool, second: bool)
    requires service.Valid() && HasId(service.repository.products, id)
    modifies service.repository, service.publisher
    ensures first && !second
    ensures service.repository.products == RemoveId(old(service.repository.products), id)
    ensures !HasId(service.repository.products, id)
    ensures service.publisher.published
      == old(service.publisher.published)
         + [Message(DeleteHeaders, ProductDeleteMessage(id, FirstOrDefault(old(service.repository.products), IdIs(id)).value.productName))]
  {
    first := service.DeleteProduct(id);
    RemoveIdContents(old(service.repository.products), id);
    RemoveAbsent(service.repository.products, id);
    second := service.DeleteProduct(id);
  }

  /**
   * Add a lamp, overwrite it wholesale with a new price, then delete it twice:
   * the responses carry the id and the values sent, and the published events
   * are exactly one update with the new values followed by one delete of the lamp.
   */
  method LampLifeCycle(newId: Guid) returns (created: ProductResponse, updated: ProductResponse, first: bool, second: bool, ghost events: seq<Message>)
    requires newId != EmptyGuid
    ensures created.productID == newId && created.quantityInStock == 10 && created.unitPrice == 19.99
    ensures updated.productID == newId && updated.quantityInStock == 10 && updated.unitPrice == 24.99
    ensures created.productName == updated.productName == "Lamp"
    ensures created.category == updated.category == Furniture
    ensures first && !second
    ensures events == [Message(UpdateHeaders, UpdatedProduct(Product(newId, "Lamp", Furniture, 24.99, 10))),
                       Message(DeleteHeaders, ProductDeleteMessage(newId, "Lamp"))]
  {
    var repository := new ProductRepository();
    var publisher := new RabbitMQPublisher();
    var service := new ProductService(repository, publisher);

    var lamp := ProductAddRequest(Some("Lamp"), CodeOf(Furniture), 19.99, 10);
    var change := ProductUpdateRequest(newId, Some("Lamp"), CodeOf(Furniture), 24.99, 10);
    LampRequestsValid(lamp, change);
    var added := service.AddProduct(Some(lamp), newId);
    created := added.value.value;

    assert HasId(repository.products, newId) by {
      assert repository.products[0].productID == newId;
    }
    var result := service.UpdateProduct(change);
    updated := result.value.value;
    var lamp2 := Product(newId, "Lamp", Furniture, 24.99, 10);
    assert ProductFromUpdate(change) == lamp2;
    assert publisher.published == [Message(UpdateHeaders, UpdatedProduct(lamp2))];
    assert repository.products == [lamp2];

    assert repository.products[0].productID == newId;
    assert FirstIndex(repository.products, IdIs(newId)) == Some(0);
    first, second := DeleteTwice(service, newId);
    events := publisher.published;
  }

  /** Both lamp requests pass their validators. */
  lemma LampRequestsValid(lamp: ProductAddRequest, change: ProductUpdateRequest)
    requires lamp == ProductAddRequest(Some("Lamp"), CodeOf(Furniture), 19.99, 10)
    requires change.productID != EmptyGuid && SharedFields(change) == ProductAddRequest(Some("Lamp"), CodeOf(Furniture), 24.99, 10)
    ensures ValidateAdd(lamp) == [] && ValidateUpdate(change) == []
  {
    assert !IsWhiteSpace(lamp.productName.value[0]);
  }
}
