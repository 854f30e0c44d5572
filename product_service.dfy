/**
 * The catalog service: create, look up, list, search, update and delete
 * products over the store.  A missing id is reported as a NotFound error whose
 * message names the id.
 */
module ProductService {
  import opened Wrappers
  import opened Decimal
  import opened Products
  import opened ProductCreateDto
  import opened ProductResponseDto
  import opened ProductStore
  import ProductRepository

  /** `EntityNotFoundException` and its message. */
  datatype NotFound = EntityNotFound(message: string)

  const MessagePrefix: string := "Produto com id "
  const MessageSuffix: string := " não encontrado"

  /** `String.format("Produto com id %s não encontrado", id)`. */
  function NotFoundMessage(id: int): (m: string)
    ensures |m| > |MessagePrefix| + |MessageSuffix|
    ensures m[..|MessagePrefix|] == MessagePrefix
    ensures m[|m| - |MessageSuffix|..] == MessageSuffix
  {
    MessagePrefix + IntToString(id) + MessageSuffix
  }

  /** The rendered id between the fixed prefix and suffix of a message. */
  function MessageId(m: string): (rendered: string)
    requires |m| >= |MessagePrefix| + |MessageSuffix|
  {
    m[|MessagePrefix|..|m| - |MessageSuffix|]
  }

  /** The message carries the id: reading it back gives the id that was missing. */
  lemma NotFoundMessageNamesId(id: int)
    ensures MessageId(NotFoundMessage(id)) == IntToString(id)
    ensures ParseInt(MessageId(NotFoundMessage(id))) == id
  {
    var m := NotFoundMessage(id);
    assert m == MessagePrefix + IntToString(id) + MessageSuffix;
    assert MessageId(m) == IntToString(id);
    ParseIntToString(id);
  }

  /** Different ids give different messages. */
  lemma NotFoundMessageInjective(a: int, b: int)
    requires NotFoundMessage(a) == NotFoundMessage(b)
    ensures a == b
  {
    NotFoundMessageNamesId(a);
    NotFoundMessageNamesId(b);
  }

  /** The message for id 1, as the service tests expect it. */
  lemma NotFoundMessageForOne()
    ensures NotFoundMessage(1) == "Produto com id 1 não encontrado"
  {
  }

  class CatalogService {
    const repository: Store

    ghost predicate Valid()
      reads this, repository
    {
      repository.Valid()
    }

    constructor (repository: Store)
      requires repository.Valid()
      ensures Valid()
      ensures this.repository == repository
    {
      this.repository := repository;
    }

    /** `create`: save a product built from the payload and return its projection. */
    method Create(payload: ProductCreate) returns (r: ProductResponse)
      requires Valid()
      requires Validate(payload) == map[]
      modifies repository
      ensures Valid()
      ensures r.name == payload.name.value && r.description == payload.description.value
      ensures r.price == payload.price.value
      ensures r.id.Some? && r.id.value > 0 && r.id.value !in old(repository.records)
      ensures repository.records == old(repository.records)[r.id.value := ToProduct(r)]
      ensures repository.order == old(repository.order) + [r.id.value]
      ensures old(repository.nextId) <= r.id.value < repository.nextId
    {
      ValidateEmptyIff(payload);
      var product := FromPayload(payload);
      var saved := repository.Save(product);
      r := Project(saved);
    }

    /** `findById`: the projection of the stored record, or NotFound. */
    method FindById(id: int) returns (r: Result<ProductResponse, NotFound>)
      requires Valid()
      ensures r.Ok? <==> id in repository.records
      ensures r.Ok? ==> r.value == Project(repository.records[id])
      ensures r.Err? ==> r.error == EntityNotFound(NotFoundMessage(id))
    {
      var found := repository.FindById(id);
      match found
      case None =>
        r := Err(EntityNotFound(NotFoundMessage(id)));
      case Some(product) =>
        r := Ok(Project(product));
    }

    /** `findAll`: one projection per stored record, in the store's order. */
    method FindAll() returns (r: seq<ProductResponse>)
      requires Valid()
      ensures |r| == |repository.records|
      ensures |r| == |repository.FindAll()|
      ensures forall i :: 0 <= i < |r| ==> r[i] == Project(repository.FindAll()[i])
    {
      var products := repository.FindAll();
      r := [];
      for i := 0 to |products|
        invariant |r| == i
        invariant forall j :: 0 <= j < i ==> r[j] == Project(products[j])
      {
        r := r + [Project(products[i])];
      }
    }

    /** `search`: the projections of the records the repository query returns. */
    method Search(query: Option<string>, minPrice: Option<real>, maxPrice: Option<real>)
      returns (r: seq<ProductResponse>)
      requires Valid()
      ensures |r| <= |repository.records|
      ensures forall x :: x in r ==>
        ToProduct(x) in repository.records.Values && ProductRepository.Matches(ToProduct(x), query, minPrice, maxPrice)
      ensures forall p :: p in repository.records.Values && ProductRepository.Matches(p, query, minPrice, maxPrice) ==>
        Project(p) in r
      ensures r == ProjectAll(repository.FindByNameOrDescriptionAndPrice(query, minPrice, maxPrice))
      ensures query.None? && minPrice.None? && maxPrice.None? ==> r == ProjectAll(repository.FindAll())
    {
      var found := repository.FindByNameOrDescriptionAndPrice(query, minPrice, maxPrice);
      r := ProjectAll(found);
      forall p | p in repository.records.Values && ProductRepository.Matches(p, query, minPrice, maxPrice)
        ensures Project(p) in r
      {
        ProductRepository.FindExactly(repository.FindAll(), query, minPrice, maxPrice, p);
        var i :| 0 <= i < |found| && found[i] == p;
        assert r[i] == Project(p);
      }
      ProductRepository.AllNullFindsAll(repository.FindAll());
    }

    /** `update`: overwrite the three fields of a stored record, keeping its id. */
    method Update(id: int, payload: ProductCreate) returns (r: Result<ProductResponse, NotFound>)
      requires Valid()
      requires Validate(payload) == map[]
      modifies repository
      ensures Valid()
      ensures r.Ok? <==> id in old(repository.records)
      ensures r.Ok? ==> r.value == ProductResponse(Some(id), payload.name.value, payload.description.value,
                                                   payload.price.value)
      ensures r.Ok? ==> repository.records == old(repository.records)[id := ToProduct(r.value)]
      ensures r.Err? ==> r.error == EntityNotFound(NotFoundMessage(id))
                         && repository.records == old(repository.records)
      ensures repository.order == old(repository.order)
      ensures repository.nextId == old(repository.nextId)
    {
      ValidateEmptyIff(payload);
      var found := repository.FindById(id);
      match found
      case None =>
        r := Err(EntityNotFound(NotFoundMessage(id)));
      case Some(product) =>
        var changed := product.(name := payload.name.value, description := payload.description.value,
                                price := payload.price.value);
        var saved := repository.Save(changed);
        r := Ok(Project(saved));
    }

    /** `delete`: remove a stored record, or fail with NotFound. */
    method Delete(id: int) returns (r: Result<(), NotFound>)
      requires Valid()
      modifies repository
      ensures Valid()
      ensures r.Ok? <==> id in old(repository.records)
      ensures r.Ok? ==> repository.records == old(repository.records) - {id}
                        && repository.order == Without(old(repository.order), id)
      ensures r.Err? ==> r.error == EntityNotFound(NotFoundMessage(id))
                         && repository.records == old(repository.records)
                         && repository.order == old(repository.order)
      ensures repository.nextId == old(repository.nextId)
    {
      var found := repository.FindById(id);
      match found
      case None =>
        r := Err(EntityNotFound(NotFoundMessage(id)));
      case Some(product) =>
        repository.Delete(id);
        r := Ok(());
    }
  }

  /** A created product is found again under the id it was given. */
  method CreateThenFind(service: CatalogService, payload: ProductCreate)
    returns (created: ProductResponse, found: Result<ProductResponse, NotFound>)
    requires service.Valid()
    requires Validate(payload) == map[]
    modifies service.repository
    ensures service.Valid()
    ensures created.id.Some? && found == Ok(created)
  {
    created := service.Create(payload);
    found := service.FindById(created.id.value);
  }

  /** After an update, a lookup sees the new fields under the same id. */
  method UpdateThenFind(service: CatalogService, id: int, payload: ProductCreate)
    returns (updated: Result<ProductResponse, NotFound>, found: Result<ProductResponse, NotFound>)
    requires service.Valid()
    requires Validate(payload) == map[]
    modifies service.repository
    ensures service.Valid()
    ensures updated.Ok? ==> found == updated && found.value.id == Some(id)
    ensures updated.Err? ==> found == updated
  {
    updated := service.Update(id, payload);
    found := service.FindById(id);
  }

  /** Delete is not idempotent: after a delete, both a lookup and a second delete fail with NotFound. */
  method DeleteTwice(service: CatalogService, id: int)
    returns (first: Result<(), NotFound>, found: Result<ProductResponse, NotFound>, second: Result<(), NotFound>)
    requires service.Valid()
    modifies service.repository
    ensures service.Valid()
    ensures first.Ok? <==> id in old(service.repository.records)
    ensures found == Err(EntityNotFound(NotFoundMessage(id)))
    ensures second == Err(EntityNotFound(NotFoundMessage(id)))
  {
    first := service.Delete(id);
    found := service.FindById(id);
    second := service.Delete(id);
  }

  /** A deleted id is not handed out again by a later create. */
  method DeleteThenCreate(service: CatalogService, id: int, payload: ProductCreate)
    returns (deleted: Result<(), NotFound>, created: ProductResponse)
    requires service.Valid()
    requires Validate(payload) == map[]
    modifies service.repository
    ensures service.Valid()
    ensures deleted.Ok? <==> id in old(service.repository.records)
    ensures created.id.Some?
    ensures id in old(service.repository.records) ==> created.id.value != id
  {
    deleted := service.Delete(id);
    created := service.Create(payload);
  }
}
