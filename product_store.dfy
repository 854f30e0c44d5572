/**
 * The keyed store behind the repository: persisted products by id, the order
 * in which they were inserted, and the next identifier the store will hand out.
 * The store assigns a fresh positive id on the first save of a product; each
 * new id is at least `nextId`, which only grows and lies above every stored id,
 * so an id is never handed out twice.
 */
module ProductStore {
  import opened Wrappers
  import opened Products
  import ProductRepository

  /** Ids with no repetition. */
  predicate Distinct(ids: seq<int>) {
    forall i, j :: 0 <= i < j < |ids| ==> ids[i] != ids[j]
  }

  /** The records listed under `ids`, in that order. */
  function Rows(ids: seq<int>, records: map<int, Product>): (rows: seq<Product>)
    requires forall i :: 0 <= i < |ids| ==> ids[i] in records
    ensures |rows| == |ids|
    ensures forall i :: 0 <= i < |ids| ==> rows[i] == records[ids[i]]
  {
    seq(|ids|, i requires 0 <= i < |ids| => records[ids[i]])
  }

  /** `ids` without `id`, the others in their order. */
  function Without(ids: seq<int>, id: int): (r: seq<int>)
    ensures forall k :: k in r <==> k in ids && k != id
    ensures Distinct(ids) ==> Distinct(r)
    ensures id !in ids ==> r == ids
    ensures ProductRepository.IsSubsequence(r, ids)
  {
    if ids == [] then []
    else if ids[0] == id then Without(ids[1..], id)
    else
      var rest := Without(ids[1..], id);
      assert Distinct(ids) ==> ids[0] !in ids[1..];
      [ids[0]] + rest
  }

  class Store {
    var records: map<int, Product>
    var order: seq<int>
    var nextId: int

    /** Every stored id is listed once, carries its own key, and lies below `nextId`. */
    ghost predicate Valid()
      reads this
    {
      && 0 < nextId
      && Distinct(order)
      && (forall i :: 0 <= i < |order| ==> order[i] in records)
      && (forall k :: k in records ==> k in order)
      && (forall k :: k in records ==> 0 < k < nextId && records[k].id == Some(k) && Persistable(records[k]))
    }

    /** `findAll`: every record, in insertion order. */
    function FindAll(): (ps: seq<Product>)
      reads this
      requires Valid()
      ensures |ps| == |records|
      ensures forall p :: p in ps <==> p in records.Values
    {
      var ps := Rows(order, records);
      DistinctCount(order, records);
      ps
    }

    /** `findById`. */
    function FindById(id: int): (r: Option<Product>)
      reads this
      ensures r.Some? <==> id in records
      ensures r.Some? ==> r.value == records[id]
    {
      if id in records then Some(records[id]) else None
    }

    /** The repository query run over the stored records. */
    function FindByNameOrDescriptionAndPrice(query: Option<string>, minPrice: Option<real>,
                                            maxPrice: Option<real>): (found: seq<Product>)
      reads this
      requires Valid()
    {
      ProductRepository.FindByNameOrDescriptionAndPrice(FindAll(), query, minPrice, maxPrice)
    }

    constructor ()
      ensures Valid()
      ensures records == map[] && order == []
    {
      records := map[];
      order := [];
      nextId := 1;
    }

    /**
     * `save`: a product without an id is inserted under a fresh positive id
     * and appended to the order; a product with a stored id overwrites that
     * record in place.
     */
    method Save(p: Product) returns (saved: Product)
      requires Valid()
      requires Persistable(p)
      requires p.id.Some? ==> p.id.value in records
      modifies this
      ensures Valid()
      ensures saved.id.Some? && saved.name == p.name && saved.description == p.description && saved.price == p.price
      ensures p.id.Some? ==> saved == p && order == old(order)
      ensures p.id.None? ==> saved.id.value > 0 && saved.id.value !in old(records)
                             && order == old(order) + [saved.id.value]
      ensures records == old(records)[saved.id.value := saved]
      ensures p.id.None? ==> old(nextId) <= saved.id.value < nextId
      ensures p.id.Some? ==> nextId == old(nextId)
    {
      if p.id.Some? {
        saved := p;
      } else {
        saved := p.(id := Some(nextId));
        order := order + [nextId];
        nextId := nextId + 1;
      }
      records := records[saved.id.value := saved];
    }

    /** `delete`: the record under `id` is removed. */
    method Delete(id: int)
      requires Valid()
      requires id in records
      modifies this
      ensures Valid()
      ensures records == old(records) - {id}
      ensures order == Without(old(order), id)
      ensures nextId == old(nextId)
    {
      records := records - {id};
      order := Without(order, id);
      forall i | 0 <= i < |order| ensures order[i] in records {
        assert order[i] in order;
      }
    }
  }

  /** A list of distinct keys that are exactly a map's keys is as long as the map. */
  lemma DistinctCount(ids: seq<int>, records: map<int, Product>)
    requires Distinct(ids)
    requires forall i :: 0 <= i < |ids| ==> ids[i] in records
    requires forall k :: k in records ==> k in ids
    ensures |ids| == |records|
    ensures forall p :: p in Rows(ids, records) <==> p in records.Values
  {
    SetOfDistinct(ids);
    forall k | k in ids ensures k in records {
      var i :| 0 <= i < |ids| && ids[i] == k;
    }
    var keys := set k | k in ids;
    assert keys <= records.Keys;
    forall k | k in records ensures k in keys {
      assert k in ids;
    }
    assert keys == records.Keys;
    var rows := Rows(ids, records);
    forall p | p in records.Values ensures p in rows {
      var k :| k in records && records[k] == p;
      var i :| 0 <= i < |ids| && ids[i] == k;
      assert rows[i] == p;
    }
  }

  lemma {:induction false} SetOfDistinct(ids: seq<int>)
    requires Distinct(ids)
    ensures |set k | k in ids| == |ids|
  {
    if ids != [] {
      var rest := ids[1..];
      SetOfDistinct(rest);
      assert (set k | k in ids) == (set k | k in rest) + {ids[0]};
      assert ids[0] !in rest;
    }
  }
}
