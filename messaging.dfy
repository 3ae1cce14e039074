/**
 * The change-event publisher (IRabbitMQPublisher.Publisher). Connecting to the
 * broker, declaring the headers exchange, serialising the payload and
 * BasicPublish are not modelled: a publication is the message appended to a
 * ghost log, so that what was published can be stated about it.
 */
module Messaging {
  import opened Guids
  import opened Entities

  /** A header value: the source puts strings and ints in a Dictionary<string, object>. */
  datatype HeaderValue = Text(text: string) | Number(number: int)

  type Headers = map<string, HeaderValue>

  /** The message bodies the service publishes: ProductDeleteMessage and a Product. */
  datatype Payload =
    | ProductDeleteMessage(productID: Guid, productName: string)
    | UpdatedProduct(product: Product)

  datatype Message = Message(headers: Headers, payload: Payload)

  const DeleteHeaders: Headers := map["event" := Text("product.delete"), "RowCount" := Number(1)]
  const UpdateHeaders: Headers := map["event" := Text("product.update"), "RowCount" := Number(1)]

  /**
   * Both events carry the same two headers, RowCount 1 and an event name, and
   * the event name tells a consumer which of the two it received.
   */
  lemma EventHeaders()
    ensures DeleteHeaders.Keys == UpdateHeaders.Keys == {"event", "RowCount"}
    ensures DeleteHeaders["RowCount"] == UpdateHeaders["RowCount"] == Number(1)
    ensures DeleteHeaders["event"] == Text("product.delete")
    ensures UpdateHeaders["event"] == Text("product.update")
    ensures DeleteHeaders != UpdateHeaders
  {
    assert DeleteHeaders["event"] != UpdateHeaders["event"] by {
      assert "product.delete"[8] != "product.update"[8];
    }
  }

  class RabbitMQPublisher {
    /** Every message published so far, oldest first. */
    ghost var published: seq<Message>

    constructor ()
      ensures published == []
    {
      published := [];
    }

    method Publisher(headers: Headers, message: Payload)
      modifies this
      ensures published == old(published) + [Message(headers, message)]
    {
      published := published + [Message(headers, message)];
    }
  }
}
