# Product microservice core in Dafny

A model of the product catalogue service: a minimal CRUD microservice whose
HTTP endpoints validate a request, read or write one row of the Products table,
map it to a response, and publish one change event to a headers exchange after
an update or a delete. The model has one module per layer:

- `Entities` (`entities.dfy`): the `Product` entity, the `CategoryOptions` enumeration and C#'s 32-bit `int`.
- `Dto` (`dto.dfy`): the add and update requests, the response, and the field-by-field mappings between them and the entity.
- `Validators` (`validators.dfy`): the two FluentValidation rule sets. A validator is a function from a request to its list of failures.
- `Repositories` (`repositories.dfy`): `ProductRepository`, a class whose `products` field is the table in store order. It keeps the invariant that keys are unique and never `Guid.Empty`. `FirstOrDefault` and `Where` are the recursive functions `FirstIndex`/`FirstOrDefault` and `Filter`.
- `Messaging` (`messaging.dfy`): the publisher. `Publisher(headers, message)` appends the message to a ghost log, `published`.
- `Services` (`services.dfy`): `ProductService`. A thrown exception becomes a `Failure` result and a null return becomes `None`.
- `Endpoints` (`endpoints.dfy`): the five handlers. Each returns an `ApiResult` (`Ok`, `NotFound`, `BadRequest`, `ValidationProblem`, `Created`, `Problem`). An exception that escapes a handler is `Unhandled`.
- `Scenarios` (`scenarios.dfy`): client methods that prove the add, update and double-delete life cycle from the operations' contracts.
- Helper modules: `Wrappers` (Option, Result), `Guids` (an id as a 128-bit number, its "D" text and the inverse parse), and `Text` (IsNullOrWhiteSpace, Contains with OrdinalIgnoreCase, Join).

Every operation that changes state states its whole new state. For the store that is the new table as a function of the old one. For the publisher it is the new event log as the old log plus at most one message, with its exact headers. A method also says what it leaves unchanged.

Three behaviours of the code worth knowing, which the model keeps:

- An update of a missing id throws `ArgumentException("Invalid product id")`. The endpoint does not catch it, so the result is `Unhandled`, not a not-found result.
- The header key is `RowCount`, not `rowCount`.
- An update overwrites all four non-key fields. Nothing is merged.

## Model

| member | source | states |
|---|---|---|
| `Guids.GuidTextRoundTrip` | APILayer/Endpoints/ProductAPIEndpoints.cs:69 | reading back the "D" text of any id gives that id |
| `Guids.GuidTextInjective` | APILayer/Endpoints/ProductAPIEndpoints.cs:69 | two ids with the same text are the same id |
| `Guids.HexRoundTrip` | APILayer/Endpoints/ProductAPIEndpoints.cs:69 | the hexadecimal digits of a number denote that number |
| `Entities.CategoryFromCode` | BusinessLogicLayer/Validators/ProductAddRequestValidator.cs:14 | an enum value decodes exactly when it is one of the four declared members (0..3), and the member decoded has that value |
| `Entities.CategoryCodeRoundTrip` | BusinessLogicLayer/Validators/ProductUpdateRequestValidator.cs:16 | every declared category decodes from its own value |
| `Text.IsNullOrWhiteSpace` | APILayer/Endpoints/ProductAPIEndpoints.cs:28 | a search string is null or white space exactly when it is null or trimming its leading white space leaves nothing |
| `Text.ContainsFolded` | APILayer/Endpoints/ProductAPIEndpoints.cs:31-32 | an exact substring occurrence is also an occurrence of the case-folded texts |
| `Text.ContainsIgnoreCase` | APILayer/Endpoints/ProductAPIEndpoints.cs:31-32 | true exactly when the needle matches the text at some position comparing characters upper-cased one by one (so a text with no such position gives false); an exact occurrence is always found, and the empty needle occurs in every text |
| `Text.IgnoreCaseIgnoresFolding` | APILayer/Endpoints/ProductAPIEndpoints.cs:31-32 | case does not matter: folding the hay or the needle first gives the same answer |
| `Text.Join` | BusinessLogicLayer/Services/ProductService.cs:42 | joining no parts gives the empty text; joining one part gives that part; a non-empty join starts with the first part |
| `Text.JoinAppend` | BusinessLogicLayer/Services/ProductService.cs:42 | joining two non-empty lists is joining each with one separator between them, so every part appears in order with exactly one separator between consecutive parts |
| `Text.JoinLength` | BusinessLogicLayer/Services/ProductService.cs:42 | the length of a join is the total length of the parts plus one separator per gap |
| `Text.JoinContainsParts` | BusinessLogicLayer/Services/ProductService.cs:42 | every part occurs in the join |
| `Dto.ProductFromAdd` | BusinessLogicLayer/Services/ProductService.cs:47 | the mapped entity has the store's key and keeps every request field: mapping it back gives the request (the category as its enum value) |
| `Dto.ProductFromUpdate` | BusinessLogicLayer/Services/ProductService.cs:132 | the mapped entity keeps every request field, the key included: mapping it back gives the request |
| `Dto.ToResponse` | BusinessLogicLayer/Services/ProductService.cs:53 | the response loses no field: the entity it came from can be rebuilt from it |
| `Dto.MappingRoundTrip` | BusinessLogicLayer/Services/ProductService.cs:132 | the other direction: mapping a product's own fields back through the add or update map gives that product |
| `Dto.UpdateMapsLikeAdd` | BusinessLogicLayer/Services/ProductService.cs:132 | the update map is the add map of the shared fields with the request's own key |
| `Dto.ToResponses` | BusinessLogicLayer/Services/ProductService.cs:99-100 | one response per entity, same length and order, each the field copy of its entity |
| `Validators.SharedRules` | BusinessLogicLayer/Validators/ProductAddRequestValidator.cs:11-18 | no failures exactly when all rules hold; each failing check (NotEmpty, Length 1..50, IsInEnum, price >= 0, quantity in 0..int.MaxValue) adds its own failure and every rule runs; no failure is about ProductID; the failures come in the order the checks are declared (`InRuleOrder`), which with the membership and the count fixes the list |
| `Validators.ValidateAdd` | BusinessLogicLayer/Validators/ProductAddRequestValidator.cs:9-19 | valid exactly when every rule holds; a null, empty or whitespace name fails NotEmpty; a name longer than 50 fails Length and 1..50 passes it; an undeclared category, a negative price or a negative quantity each add their message; the failure count is the number of failing checks; the failures come in declaration order, so an empty name gives the NotEmpty failure before the Length one |
| `Validators.ValidateUpdate` | BusinessLogicLayer/Validators/ProductUpdateRequestValidator.cs:9-21 | the same as `ValidateAdd` with its own wording, plus a failure for `Guid.Empty` as ProductID; valid exactly when the id is non-empty and the shared rules hold; the ProductID failure comes first and the rest follow in declaration order |
| `Validators.UpdateIsAddPlusId` | BusinessLogicLayer/Validators/ProductUpdateRequestValidator.cs:9-21 | update validity is add validity on the shared fields plus a non-empty id; the failing properties are ProductID (if empty) followed by the add validator's |
| `Validators.SharedRulesWording` | BusinessLogicLayer/Validators/ProductUpdateRequestValidator.cs:13-16 | which properties fail does not depend on the message wording |
| `Repositories.FirstIndex` | DataAccessLayer/Repositories/ProductRepository.cs:44 | the position of the first row satisfying the condition; none exactly when no row does |
| `Repositories.FirstOrDefault` | DataAccessLayer/Repositories/ProductRepository.cs:42-45 | a stored row satisfying the condition, or None exactly when no stored row does |
| `Repositories.Filter` | DataAccessLayer/Repositories/ProductRepository.cs:47-50 | a row is in the result exactly when it is stored and satisfies the condition |
| `Repositories.RemoveId` | DataAccessLayer/Repositories/ProductRepository.cs:34 | the table after the removal holds exactly the rows of the old table with another key, and is no longer |
| `Repositories.ReplaceById` | DataAccessLayer/Repositories/ProductRepository.cs:58-66 | every row keeps its key and position; the argument is in the new table when its key was stored; rows with other keys are exactly the old ones; unique non-empty keys stay so |
| `Repositories.FilterAppend` | DataAccessLayer/Repositories/ProductRepository.cs:49 | filtering distributes over concatenation, so results come in store order |
| `Repositories.FilterAll` | DataAccessLayer/Repositories/ProductRepository.cs:49 | filtering rows that all pass returns them unchanged |
| `Repositories.FilterNone` | DataAccessLayer/Repositories/ProductRepository.cs:49 | filtering rows that all fail returns nothing |
| `Repositories.RemoveAtIndex` | DataAccessLayer/Repositories/ProductRepository.cs:32-36 | with unique keys, removing a present key removes exactly its one row and keeps the others in order |
| `Repositories.RemoveAbsent` | DataAccessLayer/Repositories/ProductRepository.cs:38-39 | removing an absent key leaves the table as it was |
| `Repositories.RemoveIdContents` | DataAccessLayer/Repositories/ProductRepository.cs:32-36 | after removal the key is gone and exactly the rows with other keys remain |
| `Repositories.ProductRepository.AddProduct` | DataAccessLayer/Repositories/ProductRepository.cs:16-21 | appends exactly the given product, returns it, and keeps the keys unique |
| `Repositories.ProductRepository.GetProducts` | DataAccessLayer/Repositories/ProductRepository.cs:23-26 | returns every stored row and nothing else |
| `Repositories.ProductRepository.DeleteProduct` | DataAccessLayer/Repositories/ProductRepository.cs:28-40 | true exactly when the key was present; the new table is the old one without that key (one row fewer); an absent key gives false and an unchanged table |
| `Repositories.ProductRepository.GetProductByCondition` | DataAccessLayer/Repositories/ProductRepository.cs:42-45 | returns a stored row satisfying the condition, the first in store order, or None exactly when none does |
| `Repositories.ProductRepository.GetProductsByCondition` | DataAccessLayer/Repositories/ProductRepository.cs:47-50 | returns exactly the stored rows satisfying the condition, in store order |
| `Repositories.ProductRepository.UpdateProduct` | DataAccessLayer/Repositories/ProductRepository.cs:52-72 | None and an unchanged table exactly when the key is absent; otherwise the row with that key gets the argument's name, category, price and quantity, keeps its key, is returned, and no other row changes |
| `Messaging.EventHeaders` | BusinessLogicLayer/Services/ProductService.cs:72-76 | the delete headers (and the update headers at lines 146-150) are exactly {event, RowCount}, with RowCount 1 and the event names product.delete and product.update, so the two events are told apart |
| `Messaging.RabbitMQPublisher.Publisher` | BusinessLogicLayer/RabbitMQ/IRabbitMQPublisher.cs:5 | appends exactly one (headers, message) to the published log |
| `Services.JoinedMessages` | BusinessLogicLayer/Services/ProductService.cs:42 | the exception message contains every failure's message; a single failure gives its message alone; no failures give the empty text |
| `Services.ProductService.AddProduct` | BusinessLogicLayer/Services/ProductService.cs:29-58 | a null request is an ArgumentNull failure; an invalid one is an Argument failure carrying all validator messages joined by ", "; in both cases nothing is stored; a valid one stores the mapped product and returns a response with the new id and the request's field values; nothing is published |
| `Services.ProductService.DeleteProduct` | BusinessLogicLayer/Services/ProductService.cs:60-81 | true exactly when the id was stored; the row is removed; nothing is published on false; on true exactly one message with headers {event: product.delete, RowCount: 1} holding the deleted product's id and name |
| `Services.ProductService.GetProductByCondition` | BusinessLogicLayer/Services/ProductService.cs:83-93 | None exactly when no product satisfies the condition; otherwise the response of the first satisfying product |
| `Services.ProductService.GetProducts` | BusinessLogicLayer/Services/ProductService.cs:95-102 | one response per stored product, same length and order |
| `Services.ProductService.GetProductsByCondition` | BusinessLogicLayer/Services/ProductService.cs:104-109 | the responses of exactly the satisfying products, one to one and in store order |
| `Services.ProductService.UpdateProduct` | BusinessLogicLayer/Services/ProductService.cs:111-159 | a missing id fails with "Invalid product id" before validation; an invalid request on an existing id fails with the joined messages; in both cases the store and the log are unchanged; otherwise the row is overwritten, exactly one message with headers {event: product.update, RowCount: 1} and the updated product is published, and the result is the mapped updated product |
| `Endpoints.Location` | APILayer/Endpoints/ProductAPIEndpoints.cs:69 | the location is "/api/v1/products/" followed by the 36-character id text |
| `Endpoints.LocationNamesProduct` | APILayer/Endpoints/ProductAPIEndpoints.cs:69 | the id read back from a Created location is the created product's id |
| `Endpoints.LocationsDistinct` | APILayer/Endpoints/ProductAPIEndpoints.cs:69 | different products get different locations |
| `Endpoints.MessagesNamed` | APILayer/Endpoints/ProductAPIEndpoints.cs:59-62 | contains a message exactly when some failure for that property name carries it, with no more messages than failures |
| `Endpoints.MessagesNamedSingle` | APILayer/Endpoints/ProductAPIEndpoints.cs:61-62 | one failure contributes its message exactly when it is about the named property |
| `Endpoints.MessagesNamedAppend` | APILayer/Endpoints/ProductAPIEndpoints.cs:61-62 | collecting a group's messages distributes over concatenation, so with the one-failure case each group holds one message per failure, in the order of the errors |
| `Endpoints.GroupErrors` | APILayer/Endpoints/ProductAPIEndpoints.cs:59-62 | one non-empty entry per failing property name, holding every message of that property and only those; empty exactly when there are no failures; the keys are exactly the failing property names and each entry is `MessagesNamed` of the errors for its key, one message per failure in order |
| `Endpoints.SearchMatches` | APILayer/Endpoints/ProductAPIEndpoints.cs:30-32 | a product is selected exactly when its name or its category's name contains the search text ignoring case; in particular an exact occurrence selects it |
| `Endpoints.SearchIgnoresCase` | APILayer/Endpoints/ProductAPIEndpoints.cs:30-32 | the search ignores case: a case-folded search text selects exactly the same products |
| `Endpoints.GetAllProducts` | APILayer/Endpoints/ProductAPIEndpoints.cs:24-40 | a null or whitespace search returns what GetProducts returns; any other search returns exactly the products whose name or category name contains it ignoring case, in store order |
| `Endpoints.GetProduct` | APILayer/Endpoints/ProductAPIEndpoints.cs:41-50 | NotFound exactly when no product has the id; otherwise Ok with that product's response |
| `Endpoints.CreateProduct` | APILayer/Endpoints/ProductAPIEndpoints.cs:52-72 | an invalid body gives ValidationProblem with the failures grouped by property and stores nothing; a valid one gives Created at /api/v1/products/{id} with the stored product |
| `Endpoints.UpdateProduct` | APILayer/Endpoints/ProductAPIEndpoints.cs:73-97 | a URL id different from the body's gives BadRequest before validation; an invalid body gives ValidationProblem; a missing id gives the unhandled "Invalid product id"; in these cases nothing changes; otherwise Ok with the updated product, the row overwritten and one update event published |
| `Endpoints.DeleteProduct` | APILayer/Endpoints/ProductAPIEndpoints.cs:99-106 | Ok(true) when the id was stored and Problem otherwise (so a missing id is a Problem, not NotFound); the row is removed; when deleted the log is the old log plus exactly one delete event holding the id and the stored name, with the delete headers; otherwise the log is unchanged |
| `Scenarios.DeleteTwice` | BusinessLogicLayer/Services/ProductService.cs:60-81 | deleting the same stored id twice gives true then false; the table is the old one without that row; the log is the old log plus exactly one delete event with the deleted product's id and name |
| `Scenarios.LampLifeCycle` | BusinessLogicLayer/Services/ProductService.cs:29-159 | add a lamp (price 19.99, quantity 10), overwrite it with price 24.99, delete it twice: the responses carry the id and the values sent (name Lamp, category Furniture, the price and quantity of each request), the deletes return true then false, and the published events are exactly the update with the new values followed by the delete of the lamp |

## Left out

- Row order: the table is a sequence, and its order stands for the database's enumeration order, which EF Core does not specify without an `OrderBy`. Appending a new row at the end in `Repositories.ProductRepository.AddProduct` is a modelling choice, so "store order" in the rows above is the model's order, not a promise of the database.
- Asynchrony, Entity Framework Core and the database are left out. The table is a sequence held by the repository object. `SaveChangesAsync` cannot fail, and its affected-row count is the number of rows removed. Persistence errors are not modelled.
- Key generation on insert is not visible in the source. The key is a parameter of `AddProduct` and `CreateProduct` that must be non-empty and unused.
- The broker connection, exchange declaration, JSON/UTF-8 serialisation and `BasicPublish` are network I/O over a foreign client library. The publisher is only the ghost log of what was published. Publish failures are not modelled.
- Program.cs is not part of this model. It holds dependency-injection registration, CORS, Swagger and hosting.
- Concurrent requests are not modelled. Every operation is sequential, so the race between the existence check and the write in update and delete cannot be expressed.
- `UnitPrice` is a `real`. IEEE doubles, NaN and the `double.MaxValue` upper bound of the price rule are not modelled.
- Whitespace (`IsNullOrWhiteSpace`, `NotEmpty`) and `OrdinalIgnoreCase` folding use the ASCII subset of .NET's Unicode tables. String lengths count Unicode scalar values, not UTF-16 code units.
- The request DTO definitions are not part of this model. Their shapes are assumed: a nullable name, a raw `CategoryOptions` value, a price and a quantity. The enum members are assumed to be numbered 0..3 in the order the validator messages list them.
- The AutoMapper configuration is not part of this model. Mapping is a field-by-field copy. The entity's `Category` column holds the enumeration value, and its text (used by the search) is the member's name.
- The entity's nullable `UnitPrice`/`QuantityInStock` and a null `ProductName` are not modelled. Every row is written from a validated request. So the search's `!= null` tests always pass.
- An entity is a value, not a tracked object. The returned entity cannot alias the stored one.
- Failure bodies are not modelled. ASP.NET model binding of the route and body is not modelled either, so a body and an id are always present. A null update request in the service (a NullReferenceException) cannot be expressed.
- The null branch of `AddProduct` (`ProductService.cs:55-56`) is dropped: the repository's `AddProduct` always returns the product it was given, so the result is never null. The other null-response branches are modelled but can never happen in the sequential model. They are `ProductService.cs:157-158`, and the `Problem` results at `ProductAPIEndpoints.cs:70-71` and `95-96`.
- Error wording is copied verbatim, including the add validator's category message that omits Accessories. No property depends on the wording.
