/**
 * The response shape: the four fields of a product, copied one by one.  The
 * projection loses nothing, so `ToProduct` undoes it.
 */
module ProductResponseDto {
  import opened Wrappers
  import opened Products

  datatype ProductResponse = ProductResponse(id: Option<int>, name: string, description: string, price: real)

  /** `new ProductResponseDTO(product)`. */
  function Project(p: Product): (r: ProductResponse)
    ensures r.id == p.id
    ensures r.name == p.name
    ensures r.description == p.description
    ensures r.price == p.price
  {
    ProductResponse(p.id, p.name, p.description, p.price)
  }

  /** The product a response was projected from. */
  function ToProduct(r: ProductResponse): (p: Product) {
    Product(r.id, r.name, r.description, r.price)
  }

  lemma ProjectRoundTrip(p: Product)
    ensures ToProduct(Project(p)) == p
  {
  }

  lemma ToProductRoundTrip(r: ProductResponse)
    ensures Project(ToProduct(r)) == r
  {
  }

  /** An unsaved product projects to a response without an id. */
  lemma UnsavedHasNoId(p: Product)
    requires p.id.None?
    ensures Project(p).id.None?
  {
  }

  /** One response per product, in the same order. */
  function ProjectAll(ps: seq<Product>): (rs: seq<ProductResponse>)
    ensures |rs| == |ps|
    ensures forall i :: 0 <= i < |ps| ==> rs[i] == Project(ps[i])
  {
    seq(|ps|, i requires 0 <= i < |ps| => Project(ps[i]))
  }
}
