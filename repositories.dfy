/**
 * ProductRepository over an in-memory table: the Products set of the
 * database context, as a sequence in store order with distinct, non-empty keys.
 * The LINQ queries it runs (FirstOrDefault, Where) are the functions
 * FirstIndex and Filter.
 */
module Repositories {
  import opened Wrappers
  import opened Guids
  import opened Entities

  predicate HasId(s: seq<Product>, id: Guid) {
    exists i :: 0 <= i < |s| && s[i].productID == id
  }

  /** The primary key: present on every row (generated on insert) and unique. */
  ghost predicate ValidTable(s: seq<Product>) {
    && (forall i :: 0 <= i < |s| ==> s[i].productID != EmptyGuid)
    && (forall i, j :: 0 <= i < j < |s| ==> s[i].productID != s[j].productID)
  }

  /** temp => temp.ProductID == id */
  function IdIs(id: Guid): Product -> bool {
    (p: Product) => p.productID == id
  }

  function IdIsNot(id: Guid): Product -> bool {
    (p: Product) => p.productID != id
  }

  /** The position of the first row satisfying the condition. */
  function {:induction false} FirstIndex(s: seq<Product>, condition: Product -> bool): (r: Option<nat>)
    ensures r.None? <==> forall i :: 0 <= i < |s| ==> !condition(s[i])
    ensures r.Some? ==> r.value < |s| && condition(s[r.value])
    ensures r.Some? ==> forall j :: 0 <= j < r.value ==> !condition(s[j])
  {
    if s == [] then None
    else if condition(s[0]) then Some(0)
    else match FirstIndex(s[1..], condition)
      case None =>
        assert forall i :: 1 <= i < |s| ==> s[i] == s[1..][i - 1];
        None
      case Some(k) =>
        assert forall j :: 1 <= j < k + 1 ==> s[j] == s[1..][j - 1];
        Some(k + 1)
  }

  /** Products.FirstOrDefault(condition). */
  function FirstOrDefault(s: seq<Product>, condition: Product -> bool): (r: Option<Product>)
    ensures r.None? <==> forall p :: p in s ==> !condition(p)
    ensures r.Some? ==> r.value in s && condition(r.value)
  {
    match FirstIndex(s, condition)
    case None => None
    case Some(i) => Some(s[i])
  }

  /** Products.Where(condition).ToList(): the satisfying rows, in store order. */
  function {:induction false} Filter(s: seq<Product>, condition: Product -> bool): (r: seq<Product>)
    ensures |r| <= |s|
    ensures forall p :: p in r <==> p in s && condition(p)
  {
    if s == [] then []
    else
      var rest := Filter(s[1..], condition);
      assert forall p :: p in s <==> p == s[0] || p in s[1..];
      (if condition(s[0]) then [s[0]] else []) + rest
  }

  /** The table after removing the row with the given key, if any. */
  function RemoveId(s: seq<Product>, id: Guid): (r: seq<Product>)
    ensures |r| <= |s|
    ensures forall p :: p in r <==> p in s && p.productID != id
  {
    Filter(s, IdIsNot(id))
  }

  /** The table with the row whose key is p's key replaced by p. */
  function ReplaceById(s: seq<Product>, p: Product): (r: seq<Product>)
    ensures |r| == |s|
    ensures forall i :: 0 <= i < |s| ==> r[i].productID == s[i].productID
    ensures ValidTable(s) ==> ValidTable(r)
    ensures HasId(s, p.productID) ==> p in r
    ensures forall q :: q in r && q.productID != p.productID ==> q in s
    ensures forall q :: q in s && q.productID != p.productID ==> q in r
  {
    seq(|s|, i requires 0 <= i < |s| => if s[i].productID == p.productID then p else s[i])
  }

  /** Where distributes over concatenation, so it keeps store order. */
  lemma {:induction false} FilterAppend(a: seq<Product>, b: seq<Product>, condition: Product -> bool)
    ensures Filter(a + b, condition) == Filter(a, condition) + Filter(b, condition)
  {
    if a != [] {
      assert (a + b)[0] == a[0];
      assert (a + b)[1..] == a[1..] + b;
      FilterAppend(a[1..], b, condition);
    } else {
      assert a + b == b;
    }
  }

  lemma {:induction false} FilterAll(s: seq<Product>, condition: Product -> bool)
    requires forall i :: 0 <= i < |s| ==> condition(s[i])
    ensures Filter(s, condition) == s
  {
    if s != [] {
      FilterAll(s[1..], condition);
    }
  }

  lemma {:induction false} FilterNone(s: seq<Product>, condition: Product -> bool)
    requires forall i :: 0 <= i < |s| ==> !condition(s[i])
    ensures Filter(s, condition) == []
  {
    if s != [] {
      FilterNone(s[1..], condition);
    }
  }

  /** With unique keys, removing a present key removes exactly its one row. */
  lemma RemoveAtIndex(s: seq<Product>, i: nat)
    requires ValidTable(s) && i < |s|
    ensures RemoveId(s, s[i].productID) == s[..i] + s[i + 1..]
  {
    var keep := IdIsNot(s[i].productID);
    var before, after := s[..i], s[i + 1..];
    assert s == before + [s[i]] + after;
    forall k | 0 <= k < |before| ensures keep(before[k]) {
      assert before[k] == s[k];
    }
    forall k | 0 <= k < |after| ensures keep(after[k]) {
      assert after[k] == s[i + 1 + k];
    }
    FilterDropsOne(before, s[i], after, keep);
  }

  /** Filtering out one failing row between rows that all pass. */
  lemma {:induction false} FilterDropsOne(before: seq<Product>, x: Product, after: seq<Product>, condition: Product -> bool)
    requires forall k :: 0 <= k < |before| ==> condition(before[k])
    requires forall k :: 0 <= k < |after| ==> condition(after[k])
    requires !condition(x)
    ensures Filter(before + [x] + after, condition) == before + after
  {
    var s := before + [x] + after;
    if before == [] {
      assert s[0] == x && s[1..] == after;
      assert Filter(s, condition) == Filter(after, condition);
      FilterAll(after, condition);
    } else {
      var rest := before[1..];
      assert s[0] == before[0] && condition(s[0]);
      assert s[1..] == rest + [x] + after;
      assert forall k :: 0 <= k < |rest| ==> rest[k] == before[k + 1];
      FilterDropsOne(rest, x, after, condition);
      assert Filter(s, condition) == [before[0]] + Filter(s[1..], condition);
      ConsAppend(before, after);
    }
  }

  lemma ConsAppend(a: seq<Product>, b: seq<Product>)
    requires a != []
    ensures a + b == [a[0]] + (a[1..] + b)
  {
    assert a == [a[0]] + a[1..];
  }

  lemma RemoveAbsent(s: seq<Product>, id: Guid)
    requires !HasId(s, id)
    ensures RemoveId(s, id) == s
  {
    FilterAll(s, IdIsNot(id));
  }

  /** After a removal the key is gone and every other row remains. */
  lemma RemoveIdContents(s: seq<Product>, id: Guid)
    ensures !HasId(RemoveId(s, id), id)
    ensures forall p :: p in RemoveId(s, id) <==> p in s && p.productID != id
  {
    var r := RemoveId(s, id);
    forall i | 0 <= i < |r| ensures r[i].productID != id {
      assert r[i] in r;
    }
  }

  class ProductRepository {
    var products: seq<Product>

    ghost predicate Valid()
      reads this
    {
      ValidTable(products)
    }

    constructor ()
      ensures Valid() && products == []
    {
      products := [];
    }

    /** The key is the one the store generates: non-empty and unused. */
    method AddProduct(product: Product) returns (added: Product)
      requires Valid()
      requires product.productID != EmptyGuid && !HasId(products, product.productID)
      modifies this
      ensures Valid()
      ensures products == old(products) + [product]
      ensures added == product
    {
      products := products + [product];
      added := product;
    }

    method GetProducts() returns (all: seq<Product>)
      ensures all == products
    {
      all := products;
    }

    method DeleteProduct(productID: Guid) returns (deleted: bool)
      requires Valid()
      modifies this
      ensures Valid()
      ensures deleted <==> HasId(old(products), productID)
      ensures products == RemoveId(old(products), productID)
      ensures deleted ==> |products| == |old(products)| - 1
    {
      var existing := FirstIndex(products, IdIs(productID));
      if existing.Some? {
        var i := existing.value;
        RemoveAtIndex(products, i);
        var before := |products|;
        products := products[..i] + products[i + 1..];
        var affectedRowsCount := before - |products|;
        deleted := affectedRowsCount > 0;
      } else {
        RemoveAbsent(products, productID);
        deleted := false;
      }
    }

    method GetProductByCondition(condition: Product -> bool) returns (r: Option<Product>)
      ensures r.None? <==> forall p :: p in products ==> !condition(p)
      ensures r.Some? ==> r.value in products && condition(r.value)
      ensures r == FirstOrDefault(products, condition)
    {
      r := FirstOrDefault(products, condition);
    }

    method GetProductsByCondition(condition: Product -> bool) returns (r: seq<Product>)
      ensures forall p :: p in r <==> p in products && condition(p)
      ensures r == Filter(products, condition)
    {
      r := Filter(products, condition);
    }

    /**
     * Overwrites the name, category, price and quantity of the row with the
     * argument's key; the returned entity is the stored row.
     */
    method UpdateProduct(product: Product) returns (r: Option<Product>)
      requires Valid()
      modifies this
      ensures Valid()
      ensures r.None? <==> !HasId(old(products), product.productID)
      ensures r.None? ==> products == old(products)
      ensures r.Some? ==> r.value == product && products == ReplaceById(old(products), product)
      ensures r.Some? ==> exists i :: 0 <= i < |products| && products[i] == r.value
    {
      var found := FirstIndex(products, IdIs(product.productID));
      if found.Some? {
        var i := found.value;
        var existing := products[i];
        existing := existing.(productName := product.productName);
        existing := existing.(category := product.category);
        existing := existing.(unitPrice := product.unitPrice);
        existing := existing.(quantityInStock := product.quantityInStock);
        products := products[i := existing];
        assert products == ReplaceById(old(products), product);
        assert products[i] == existing;
        r := Some(existing);
      } else {
        r := None;
      }
    }
  }
}
