/** The rows of the relational store that the two handlers touch, and the
    three writes they issue against it (store insert, order update, product
    bulk update), held in memory. */
module Db {

  import opened Js

  type UserId = string
  type OrderId = string
  type ProductId = string
  /** Store ids are handed out by the table itself, in increasing order. */
  type StoreId = nat

  datatype Store = Store(id: StoreId, name: string, userId: UserId)

  datatype OrderItem = OrderItem(productId: ProductId)

  /** Only the columns the handlers read or write, and the owning store,
      which they keep. */
  datatype Order = Order(
    storeId: StoreId,
    isPaid: bool,
    phone: string,
    address: string,
    items: seq<OrderItem>)

  datatype Product = Product(
    storeId: StoreId,
    isArchived: bool)

  /** `items.map((item) => item.productId)`. */
  function ProductIds(items: seq<OrderItem>): (ids: seq<ProductId>)
    ensures |ids| == |items|
    ensures forall i :: 0 <= i < |items| ==> ids[i] == items[i].productId
  {
    seq(|items|, i requires 0 <= i < |items| => items[i].productId)
  }

  /** The product table after `updateMany({ where: { id: { in: ids } },
      data: { isArchived: true } })`. */
  function Archived(products: map<ProductId, Product>, ids: seq<ProductId>): map<ProductId, Product>
  {
    map p | p in products :: if p in ids then products[p].(isArchived := true) else products[p]
  }

  /** Archiving more ids one at a time: the step the bulk update's loop takes. */
  lemma ArchivedStep(products: map<ProductId, Product>, ids: seq<ProductId>, x: ProductId)
    ensures Archived(products, ids + [x]) ==
            var a := Archived(products, ids);
            if x in a then a[x := a[x].(isArchived := true)] else a
  {
    var a := Archived(products, ids);
    var b := if x in a then a[x := a[x].(isArchived := true)] else a;
    assert forall p :: p in ids + [x] <==> p in ids || p == x;
    assert Archived(products, ids + [x]).Keys == b.Keys;
  }

  class Database {
    var stores: map<StoreId, Store>
    var nextStoreId: StoreId
    var orders: map<OrderId, Order>
    var products: map<ProductId, Product>

    /** Every store row is filed under its own id, and that id is below the
        next one the table hands out. */
    ghost predicate Valid()
      reads this
    {
      forall id :: id in stores ==> id < nextStoreId && stores[id].id == id
    }

    /** `store.create({ data: { name, userId } })`: one new row under a fresh id. */
    method CreateStore(name: string, userId: UserId) returns (s: Store)
      requires Valid()
      modifies this`stores, this`nextStoreId
      ensures Valid()
      ensures s.name == name && s.userId == userId
      ensures s.id !in old(stores)
      ensures stores == old(stores)[s.id := s]
    {
      s := Store(nextStoreId, name, userId);
      stores := stores[s.id := s];
      nextStoreId := nextStoreId + 1;
    }

    /** `order.update({ where: { id }, data: { isPaid: true, address, phone },
        include: { orderItems: true } })`.  An id that names no row makes the
        update throw: `None`, and nothing is written. */
    method UpdateOrderPaid(id: OrderId, address: string, phone: string) returns (updated: Option<Order>)
      modifies this`orders
      ensures id !in old(orders) ==> updated == None && orders == old(orders)
      ensures id in old(orders) ==>
                updated == Some(old(orders)[id].(isPaid := true, address := address, phone := phone)) &&
                orders == old(orders)[id := updated.value]
    {
      if id !in orders {
        return None;
      }
      var order := orders[id].(isPaid := true, address := address, phone := phone);
      orders := orders[id := order];
      updated := Some(order);
    }

    /** `product.updateMany({ where: { id: { in: ids } }, data: { isArchived: true } })`,
        one id at a time.  Ids that name no product are ignored. */
    method ArchiveProducts(ids: seq<ProductId>)
      modifies this`products
      ensures products == Archived(old(products), ids)
    {
      var i := 0;
      while i < |ids|
        invariant 0 <= i <= |ids|
        invariant products == Archived(old(products), ids[..i])
      {
        ArchivedStep(old(products), ids[..i], ids[i]);
        assert ids[..i + 1] == ids[..i] + [ids[i]];
        if ids[i] in products {
          products := products[ids[i] := products[ids[i]].(isArchived := true)];
        }
        i := i + 1;
      }
      assert ids[..i] == ids;
    }
  }
}
