# mscatalog product catalog, modelled in Dafny

This project models the core of a product catalog service. A product has an id,
a name, a description and a price, and lives in a keyed store. The model covers
five pieces:

- **Payload validation** (`product_create_dto.dfy`). The create/update payload
  may hold nulls. `Validate` reports every violated field, keyed by the field's
  name and carrying that field's own message:
  - name and description must be non-null and not blank;
  - price must be non-null and positive.
- **Response projection** (`product_response_dto.dfy`). The response copies the
  four fields of a product, so the projection can be undone.
- **The search query** (`product_repository.dfy`). This is
  `findByNameOrDescriptionAndPrice`: three optional clauses joined by AND.
  - A text clause: the query is a substring of the lower-cased name or of the
    lower-cased description.
  - A lower price bound and an upper price bound, both inclusive.
- **The store** (`product_store.dfy`). A class that holds a
  `map<int, Product>`, the insertion order of its keys, and the next id it will
  hand out. `Save` inserts a product that has no id under a fresh positive id.
  It overwrites a product whose id is already stored. `Delete` removes a record.
- **The service** (`product_service.dfy`). A class over the store with these
  operations:
  - `Create`, `FindById` and `FindAll` (a loop that projects every record);
  - `Search`, `Update` and `Delete`, whose behaviour is stated as the service
    tests fix it.

  A missing id fails with `EntityNotFound("Produto com id {id} não encontrado")`.

`decimal.dfy` renders an id the way `%s` renders a `Long`. It also reads the
rendering back, which shows that the NotFound message identifies the id.
`wrappers.dfy` holds `Option`, which stands for a nullable value, and `Result`,
which stands for a value or a thrown exception.

Modelling decisions:
- Prices are `real`. The source only compares them.
- Ids are `int`, because a Java `Long` path id may be negative.
- `@NotBlank` is modelled as Java's `s.trim().length() > 0`: some character
  above U+0020 must be present (`NotBlankIff`). The bean-validation library is
  not part of this model.
- `Create` requires `Validate(payload) == map[]`. The controller is its only
  production caller, and its `@Valid` (controllers/ProductController.java:20)
  enforces this before the service is called.
- `Update` requires the same of its payload. This is an assumption: no update
  handler and no `update` body exist in the source, so nothing shows what an
  invalid update payload would do.
- In the source, `save` sets the id on the same `Product` object that is then
  projected. In the model, `Save` returns the saved product and the service
  projects that value.
- The query is lower-cased on the product side only. A query that contains an
  upper-case letter therefore never matches through the text clause
  (`UpperQueryFailsTextClause`).

## Model

| member | source | states |
|---|---|---|
| `Decimal.IntToString` | src/main/java/com/raphael/mscatalog/services/ProductService.java:31 | `%s` of a Long: non-empty; starts with '-' exactly for negative ids; digits otherwise |
| `Decimal.ParseIntToString` | src/main/java/com/raphael/mscatalog/services/ProductService.java:31 | reading the rendered id back gives the id |
| `Decimal.IntToStringInjective` | src/main/java/com/raphael/mscatalog/services/ProductService.java:31 | different ids never render the same way |
| `ProductCreateDto.NotBlankIff` | src/main/java/com/raphael/mscatalog/dto/ProductCreateDTO.java:17-21 | a string passes `@NotBlank` (trim, then non-empty) iff it holds a character above U+0020 |
| `ProductCreateDto.Validate` | src/main/java/com/raphael/mscatalog/dto/ProductCreateDTO.java:17-25 | the error map is keyed only by name/description/price; each field is reported iff its constraint fails, with its own message; a null price gets the "obrigatório" message and a non-positive one (zero included) the "maior que zero" message |
| `ProductCreateDto.ValidateEmptyIff` | src/main/java/com/raphael/mscatalog/dto/ProductCreateDTO.java:17-25 | no error is reported iff name and description are present and not blank and price is present and positive |
| `ProductCreateDto.InvalidNameAndZeroPrice` | src/test/java/com/raphael/mscatalog/controllers/ProductControllerTest.java:85-98 | ("", "Gabinete Gamer com 6 fans", 0) yields exactly the name and price errors, with their messages |
| `ProductCreateDto.ValidMonitor` | src/test/java/com/raphael/mscatalog/controllers/ProductControllerTest.java:53-57 | ("Monitor", "Monitor IPS de 27 Polegadas", 960) yields no error |
| `Products.FromPayload` | src/main/java/com/raphael/mscatalog/services/ProductService.java:23 | `new Product(createDTO)` has no id, copies the three fields, and satisfies the persisted-product constraints |
| `ProductResponseDto.Project` | src/main/java/com/raphael/mscatalog/dto/ProductResponseDTO.java:14-19 | the response's id, name, description and price are the product's |
| `ProductResponseDto.ProjectRoundTrip` | src/main/java/com/raphael/mscatalog/dto/ProductResponseDTO.java:14-19 | the product can be recovered from its response, so the projection loses nothing |
| `ProductResponseDto.ToProductRoundTrip` | src/main/java/com/raphael/mscatalog/dto/ProductResponseDTO.java:14-19 | every response is the projection of the product it describes |
| `ProductResponseDto.UnsavedHasNoId` | src/test/java/com/raphael/mscatalog/controllers/ProductControllerTest.java:58-59 | projecting an unsaved product gives a response with a null id |
| `ProductResponseDto.ProjectAll` | src/test/java/com/raphael/mscatalog/services/ProductServiceTest.java:193-197 | one response per product, same count, same order |
| `ProductRepository.ContainsIff` | src/main/java/com/raphael/mscatalog/repositories/ProductRepository.java:14-15 | the `LIKE %q%` test holds iff `q` occurs in the text at some offset |
| `ProductRepository.FindByNameOrDescriptionAndPrice` | src/main/java/com/raphael/mscatalog/repositories/ProductRepository.java:13-18 | every returned product is stored and matches all three clauses; never more results than products |
| `ProductRepository.FindExactly` | src/main/java/com/raphael/mscatalog/repositories/ProductRepository.java:13-18 | a product is returned iff it is stored and satisfies the text clause AND the inclusive min bound AND the inclusive max bound, each null clause holding trivially |
| `ProductRepository.FindIsSubsequence` | src/main/java/com/raphael/mscatalog/repositories/ProductRepository.java:13-18 | the result is a subsequence of all stored products, so it is a sub-collection of findAll in the same order |
| `ProductRepository.AllNullFindsAll` | src/main/java/com/raphael/mscatalog/repositories/ProductRepository.java:14-17 | with query, minPrice and maxPrice all null, every stored product is returned, in order |
| `ProductRepository.UpperQueryNeverMatches` | src/main/java/com/raphael/mscatalog/repositories/ProductRepository.java:14-15 | only the stored text is lower-cased: a query with an upper-case letter is never found in lower(text) |
| `ProductRepository.UpperQueryFailsTextClause` | src/main/java/com/raphael/mscatalog/repositories/ProductRepository.java:14-15 | a non-null query holding an upper-case letter makes the text clause false for every product |
| `ProductRepository.MonitorSearchExample` | src/test/java/com/raphael/mscatalog/repositories/ProductRepositoryTest.java:105-118 | ("ips", 0, 999) over the monitor (960) and the Maxsun board (750) returns only the monitor |
| `ProductStore.Store.FindAll` | src/main/java/com/raphael/mscatalog/services/ProductService.java:40 | one row per stored record: the same count, and exactly the stored products |
| `ProductStore.Store.FindById` | src/main/java/com/raphael/mscatalog/services/ProductService.java:30 | some product iff the id is stored, and then the stored record |
| `ProductStore.Store.Save` | src/test/java/com/raphael/mscatalog/repositories/ProductRepositoryTest.java:35-38 | a product without id gets a fresh positive id, at least the old counter and below the new one, and is appended; a stored one is overwritten in place; no other record changes; the store invariant is kept |
| `ProductStore.Store.Delete` | src/test/java/com/raphael/mscatalog/repositories/ProductRepositoryTest.java:92-98 | exactly that record is removed and the order loses only its id |
| `ProductService.NotFoundMessage` | src/main/java/com/raphael/mscatalog/services/ProductService.java:31 | the message starts with "Produto com id " and ends with " não encontrado" |
| `ProductService.NotFoundMessageNamesId` | src/main/java/com/raphael/mscatalog/services/ProductService.java:31 | the text between prefix and suffix is the rendered id and parses back to it |
| `ProductService.NotFoundMessageInjective` | src/main/java/com/raphael/mscatalog/services/ProductService.java:31 | two missing ids never share a message |
| `ProductService.NotFoundMessageForOne` | src/test/java/com/raphael/mscatalog/services/ProductServiceTest.java:98-99 | the message for id 1 is exactly "Produto com id 1 não encontrado" |
| `ProductService.CatalogService.Create` | src/main/java/com/raphael/mscatalog/services/ProductService.java:22-26 | the response carries the payload's name, description and price and a fresh positive id; the store gains exactly that record, appended to the order, and nothing else changes |
| `ProductService.CatalogService.FindById` | src/main/java/com/raphael/mscatalog/services/ProductService.java:29-34 | a present id gives the projection of its record; an absent id gives NotFound with the exact message; the store is not modified |
| `ProductService.CatalogService.FindAll` | src/main/java/com/raphael/mscatalog/services/ProductService.java:37-44 | one projection per stored record, in the store's order, with the same count (so an empty store gives an empty list); the store is not modified |
| `ProductService.CatalogService.Search` | src/test/java/com/raphael/mscatalog/services/ProductServiceTest.java:188-211 | the result is exactly the projection of the repository query's result, so the store's order and multiplicity carry over; every response is a stored product that matches the query; every matching stored product is in the result; with all arguments null the result is findAll |
| `ProductService.CatalogService.Update` | src/test/java/com/raphael/mscatalog/services/ProductServiceTest.java:131-161 | a present id gets the payload's fields under the same id, and the response shows them; an absent id gives NotFound and changes nothing |
| `ProductService.CatalogService.Delete` | src/test/java/com/raphael/mscatalog/services/ProductServiceTest.java:165-184 | a present id removes exactly that record; an absent id gives NotFound and changes nothing |
| `ProductService.CreateThenFind` | src/test/java/com/raphael/mscatalog/repositories/ProductRepositoryTest.java:43-50 | a created product is found under its new id, with the same response |
| `ProductService.UpdateThenFind` | src/test/java/com/raphael/mscatalog/repositories/ProductRepositoryTest.java:72-85 | after an update, a lookup of the id returns the updated fields under the same id |
| `ProductService.DeleteThenCreate` | src/test/java/com/raphael/mscatalog/repositories/ProductRepositoryTest.java:35-38 | an id that was stored and then deleted is not given to a later create |
| `ProductService.DeleteTwice` | src/test/java/com/raphael/mscatalog/repositories/ProductRepositoryTest.java:92-98 | after a delete, a lookup and a second delete both fail with NotFound (delete is not idempotent) |

## Left out

- HTTP routing, status codes, the exception-to-status handler and the `@Valid` wiring of `ProductController`. Validation is modelled as an explicit function instead.
- Transactions, JPA/SQL execution and concurrency. The store is a sequential in-memory map.
- How the database picks ids. The model's store uses a counter, and the service contracts expose it: each new id is larger than every stored id, and no id is handed out twice. The source does not show this of its id generator. Its tests ask only that a saved id be positive.
- `LIKE` wildcards (`%`, `_`) inside the query. The query is a plain substring.
- Locale and Unicode behaviour of `lower`. Only ASCII letters are lower-cased.
- `Double` prices, NaN and rounding. Prices are reals.
- The 64-bit range of `Long` ids.
- A null id passed to `findById`, `update` or `delete`. Ids are never null in the model.
- The `Product` entity class (entities/Product.java) is not part of this model. It is taken to hold exactly the four fields, and `new Product(createDTO)` is taken to copy the three payload fields with a null id.
- `ProductService.CatalogService.Create`: does not model an invalid payload reaching the service directly. In the source, such a payload is passed to `save` and the store's exception propagates out of `create`. The model requires a payload with no validation errors, as the controller guarantees.
- `ProductService.CatalogService.Update`: the source file has no body for `update`. Its contract follows the service tests and the repository update test. Whether the source calls `save` or relies on the managed entity is not modelled. A validated payload is assumed, because neither an update handler nor an `update` body shows what happens to an invalid one.
- `ProductService.CatalogService.Delete`: the source file has no body for `delete`. Its contract follows the service tests and the repository delete test.
- `ProductService.CatalogService.Search`: the source file has no body for `search`. It is modelled as the projection of the repository query's result, as the service tests stub it.
- Result order: the model keeps one order, insertion order, shared by `findAll` and the search query. SQL without `ORDER BY` promises neither query an order, nor that the two agree. The order parts of `ProductRepository.FindIsSubsequence`, `ProductService.CatalogService.FindAll` and `ProductService.CatalogService.Search` hold of the model's store only.
- Mockito stubbing and `verify` call counts. Only the effect on the store is modelled.
