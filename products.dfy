/**
 * The `Product` entity: an identifier assigned by the store (null before the
 * first save) and the three payload fields.  Prices are compared only, so
 * they are modelled as reals.
 */
module Products {
  import opened Wrappers
  import opened ProductCreateDto

  datatype Product = Product(id: Option<int>, name: string, description: string, price: real)

  /** The constraints every persisted product satisfies. */
  predicate Persistable(p: Product) {
    NotBlank(p.name) && NotBlank(p.description) && p.price > 0.0
  }

  /** `new Product(createDTO)`: copies the three fields, with no id yet. */
  function FromPayload(d: ProductCreate): (p: Product)
    requires IsValid(d)
    ensures p.id.None?
    ensures Persistable(p)
    ensures p.name == d.name.value && p.description == d.description.value && p.price == d.price.value
  {
    Product(None, d.name.value, d.description.value, d.price.value)
  }
}
