/** The payment webhook (`POST /api/webhook`): on a verified
    `checkout.session.completed` event it marks the order paid, records the
    shipping address and phone taken from the checkout session, and archives
    every product the order bought. */
module Webhook {

  import opened Js
  import opened Db

  const CheckoutSessionCompleted := "checkout.session.completed"

  /** What `addressComponents.join(', ')` puts between components. */
  const Separator := ", "

  /** The session's `customer_details.address`; every field may be `null`,
      or missing altogether. */
  datatype Address = Address(
    line1: JsOpt<string>,
    line2: JsOpt<string>,
    city: JsOpt<string>,
    state: JsOpt<string>,
    postalCode: JsOpt<string>,
    country: JsOpt<string>)

  datatype CustomerDetails = CustomerDetails(address: JsOpt<Address>, phone: JsOpt<string>)

  /** The part of the checkout session the handler reads. */
  datatype Session = Session(customerDetails: JsOpt<CustomerDetails>, metadata: JsOpt<map<string, string>>)

  /** A webhook event whose signature the payment provider's library accepted. */
  datatype Event = Event(kind: string, session: Session)

  /** Status and tables after one delivery of the webhook. */
  datatype Outcome = Outcome(status: nat, orders: map<OrderId, Order>, products: map<ProductId, Product>)

  // ---------------------------------------------------------------------
  // Address derivation
  // ---------------------------------------------------------------------

  /** `session?.customer_details?.address`. */
  function AddressOf(s: Session): JsOpt<Address>
  {
    match s.customerDetails
    case Val(cd) => cd.address
    case _ => Undef
  }

  /** `address?.line1`, `address?.line2`, ..., `address?.country` for
      k = 0, ..., 5: `undefined` when the address is `null` or `undefined`. */
  function Component(a: JsOpt<Address>, k: nat): JsOpt<string>
    requires k < 6
  {
    match a
    case Val(addr) =>
      if k == 0 then addr.line1
      else if k == 1 then addr.line2
      else if k == 2 then addr.city
      else if k == 3 then addr.state
      else if k == 4 then addr.postalCode
      else addr.country
    case _ => Undef
  }

  /** The array literal of the six components, in source order. */
  function AddressComponents(s: Session): (cs: seq<JsOpt<string>>)
    ensures |cs| == 6
    ensures AddressOf(s).Val? ==>
              var a := AddressOf(s).v;
              cs == [a.line1, a.line2, a.city, a.state, a.postalCode, a.country]
    ensures !AddressOf(s).Val? ==> forall i :: 0 <= i < 6 ==> cs[i] == Undef
  {
    var a := AddressOf(s);
    [Component(a, 0), Component(a, 1), Component(a, 2), Component(a, 3), Component(a, 4), Component(a, 5)]
  }

  /** `cs.filter((c) => c !== null)`: drops exactly the `null` components,
      keeping `undefined` ones and empty strings. */
  function WithoutNull(cs: seq<JsOpt<string>>): (r: seq<JsOpt<string>>)
    ensures multiset(r) == multiset(cs)[Null := 0]
  {
    if cs == [] then []
    else
      assert cs == [cs[0]] + cs[1..];
      if cs[0].Null? then WithoutNull(cs[1..])
      else [cs[0]] + WithoutNull(cs[1..])
  }

  /** How `Array.prototype.join` renders one element: `null` and `undefined`
      become the empty string. */
  function Render(c: JsOpt<string>): string
  {
    match c
    case Val(s) => s
    case _ => ""
  }

  /** `cs.join(sep)`. */
  function Join(cs: seq<JsOpt<string>>, sep: string): string
  {
    if |cs| == 0 then ""
    else if |cs| == 1 then Render(cs[0])
    else Render(cs[0]) + sep + Join(cs[1..], sep)
  }

  /** The address string the order records. */
  function AddressString(s: Session): string
  {
    Join(WithoutNull(AddressComponents(s)), Separator)
  }

  /** The rendered text of each component, in order. */
  function Rendered(cs: seq<JsOpt<string>>): (r: seq<string>)
    ensures |r| == |cs|
    ensures forall i :: 0 <= i < |cs| ==> r[i] == Render(cs[i])
  {
    seq(|cs|, i requires 0 <= i < |cs| => Render(cs[i]))
  }

  /** `s.split(', ')`: the reading back of a joined address. */
  function SplitOnSeparator(s: string): (parts: seq<string>)
    ensures |parts| >= 1
    decreases |s|
  {
    if |s| < 2 then [s]
    else if s[..2] == Separator then [""] + SplitOnSeparator(s[2..])
    else
      var rest := SplitOnSeparator(s[1..]);
      [[s[0]] + rest[0]] + rest[1..]
  }

  /** One step of the join, on a suffix. */
  lemma JoinUnfold(cs: seq<JsOpt<string>>, k: nat, sep: string)
    requires k + 1 < |cs|
    ensures Join(cs[k..], sep) == Render(cs[k]) + sep + Join(cs[k + 1..], sep)
  {
    assert cs[k..][1..] == cs[k + 1..];
  }

  /** A join of six elements, spelled out. */
  lemma JoinSix(cs: seq<JsOpt<string>>, sep: string)
    requires |cs| == 6
    ensures Join(cs, sep) ==
            Render(cs[0]) + sep + (Render(cs[1]) + sep + (Render(cs[2]) + sep +
            (Render(cs[3]) + sep + (Render(cs[4]) + sep + Render(cs[5])))))
  {
    assert Join(cs[5..], sep) == Render(cs[5]);
    JoinUnfold(cs, 4, sep);
    JoinUnfold(cs, 3, sep);
    JoinUnfold(cs, 2, sep);
    JoinUnfold(cs, 1, sep);
    JoinUnfold(cs, 0, sep);
    assert cs[0..] == cs;
  }

  /** A join of five elements, spelled out. */
  lemma JoinFive(cs: seq<JsOpt<string>>, sep: string)
    requires |cs| == 5
    ensures Join(cs, sep) ==
            Render(cs[0]) + sep + (Render(cs[1]) + sep + (Render(cs[2]) + sep +
            (Render(cs[3]) + sep + Render(cs[4]))))
  {
    assert Join(cs[4..], sep) == Render(cs[4]);
    JoinUnfold(cs, 3, sep);
    JoinUnfold(cs, 2, sep);
    JoinUnfold(cs, 1, sep);
    JoinUnfold(cs, 0, sep);
    assert cs[0..] == cs;
  }

  /** Filtering distributes over concatenation, so the kept components stay
      in their original order. */
  lemma {:induction false} WithoutNullAppend(a: seq<JsOpt<string>>, b: seq<JsOpt<string>>)
    ensures WithoutNull(a + b) == WithoutNull(a) + WithoutNull(b)
  {
    if a == [] {
      assert a + b == b;
    } else {
      assert (a + b)[1..] == a[1..] + b;
      WithoutNullAppend(a[1..], b);
    }
  }

  /** Without `null` components the filter keeps the whole list. */
  lemma {:induction false} WithoutNullKeepsAll(cs: seq<JsOpt<string>>)
    requires forall i :: 0 <= i < |cs| ==> !cs[i].Null?
    ensures WithoutNull(cs) == cs
  {
    if cs != [] {
      WithoutNullKeepsAll(cs[1..]);
    }
  }

  /** Text without a comma splits into itself alone. */
  lemma {:induction false} SplitSingle(p: string)
    requires ',' !in p
    ensures SplitOnSeparator(p) == [p]
    decreases |p|
  {
    if |p| >= 2 {
      assert p[0] in p;
      SplitSingle(p[1..]);
      assert [p[0]] + p[1..] == p;
    }
  }

  /** Splitting stops at the first separator when the text before it has no comma. */
  lemma {:induction false} SplitPrefix(p: string, rest: string)
    requires ',' !in p
    ensures SplitOnSeparator(p + Separator + rest) == [p] + SplitOnSeparator(rest)
    decreases |p|
  {
    var s := p + Separator + rest;
    if p == [] {
      assert s[..2] == Separator;
      assert s[2..] == rest;
    } else {
      assert p[0] in p;
      assert s[..2] != Separator by { assert s[0] == p[0]; }
      assert s[1..] == p[1..] + Separator + rest;
      SplitPrefix(p[1..], rest);
      assert [p[0]] + p[1..] == p;
    }
  }

  /** Splitting a join gives back every rendered element, provided none
      contains a comma. */
  lemma {:induction false} SplitJoin(cs: seq<JsOpt<string>>)
    requires |cs| >= 1
    requires forall i :: 0 <= i < |cs| ==> ',' !in Render(cs[i])
    ensures SplitOnSeparator(Join(cs, Separator)) == Rendered(cs)
    decreases |cs|
  {
    if |cs| == 1 {
      SplitSingle(Render(cs[0]));
    } else {
      SplitPrefix(Render(cs[0]), Join(cs[1..], Separator));
      SplitJoin(cs[1..]);
      assert Rendered(cs) == [Render(cs[0])] + Rendered(cs[1..]);
    }
  }

  /** The address string is the kept components in their fixed order,
      separated by ", ": splitting it recovers exactly the non-`null`
      components, in order, whenever at least one is kept and no component
      contains a comma. */
  lemma AddressRoundTrip(s: Session)
    requires WithoutNull(AddressComponents(s)) != []
    requires forall i :: 0 <= i < 6 ==> ',' !in Render(AddressComponents(s)[i])
    ensures SplitOnSeparator(AddressString(s)) == Rendered(WithoutNull(AddressComponents(s)))
  {
    var cs := AddressComponents(s);
    var kept := WithoutNull(cs);
    forall i | 0 <= i < |kept|
      ensures ',' !in Render(kept[i])
    {
      assert kept[i] in multiset(kept);
      assert kept[i] in cs;
    }
    SplitJoin(kept);
  }

  /** Six components none of which is `null`: all six are joined. */
  lemma JoinSixKept(cs: seq<JsOpt<string>>)
    requires |cs| == 6 && forall i :: 0 <= i < 6 ==> !cs[i].Null?
    ensures Join(WithoutNull(cs), Separator) ==
            Render(cs[0]) + ", " + (Render(cs[1]) + ", " + (Render(cs[2]) + ", " +
            (Render(cs[3]) + ", " + (Render(cs[4]) + ", " + Render(cs[5])))))
  {
    WithoutNullKeepsAll(cs);
    JoinSix(cs, Separator);
  }

  /** Six components of which only the second is `null`: the other five are joined. */
  lemma JoinSecondDropped(cs: seq<JsOpt<string>>)
    requires |cs| == 6 && cs[1].Null?
    requires !cs[0].Null? && forall i :: 2 <= i < 6 ==> !cs[i].Null?
    ensures Join(WithoutNull(cs), Separator) ==
            Render(cs[0]) + ", " + (Render(cs[2]) + ", " + (Render(cs[3]) + ", " +
            (Render(cs[4]) + ", " + Render(cs[5]))))
  {
    assert cs[1..][1..] == cs[2..];
    WithoutNullKeepsAll(cs[2..]);
    assert WithoutNull(cs[1..]) == cs[2..];
    var kept := WithoutNull(cs);
    assert kept == [cs[0]] + cs[2..];
    JoinFive(kept, Separator);
  }

  /** With all six components present, the address is the six strings in
      order, separated by ", " (empty strings included). */
  lemma AllComponentsPresent(s: Session, line1: string, line2: string, city: string,
                             state: string, postalCode: string, country: string)
    requires AddressOf(s) == Val(Address(Val(line1), Val(line2), Val(city), Val(state),
                                         Val(postalCode), Val(country)))
    ensures AddressString(s) ==
            line1 + ", " + (line2 + ", " + (city + ", " + (state + ", " + (postalCode + ", " + country))))
  {
    JoinSixKept(AddressComponents(s));
  }

  /** With no address object, every component is `undefined`, none is
      filtered, and each joins as the empty string: six empty fields and
      five separators. */
  lemma AbsentAddressFields(s: Session)
    requires !AddressOf(s).Val?
    ensures AddressString(s) == "" + ", " + ("" + ", " + ("" + ", " + ("" + ", " + ("" + ", " + ""))))
  {
    JoinSixKept(AddressComponents(s));
  }

  /** Six empty fields joined by ", ". */
  lemma SixEmptyFields()
    ensures "" + ", " + ("" + ", " + ("" + ", " + ("" + ", " + ("" + ", " + "")))) == ", , , , , "
  {
  }

  /** With no address object the recorded address is ", , , , , ". */
  lemma AbsentAddress(s: Session)
    requires !AddressOf(s).Val?
    ensures AddressString(s) == ", , , , , "
  {
    AbsentAddressFields(s);
    SixEmptyFields();
  }

  /** A `null` line2 is skipped without leaving an empty field behind. */
  lemma NullLineTwoSkipped(s: Session, line1: string, city: string, state: string,
                           postalCode: string, country: string)
    requires AddressOf(s) == Val(Address(Val(line1), Null, Val(city), Val(state),
                                         Val(postalCode), Val(country)))
    ensures AddressString(s) == line1 + ", " + (city + ", " + (state + ", " + (postalCode + ", " + country)))
  {
    JoinSecondDropped(AddressComponents(s));
  }

  /** A concrete address whose line2 is `null`: line2 disappears and the
      other five components keep their order. */
  lemma NullComponentExample(s: Session)
    requires AddressOf(s) == Val(Address(Val("12 Main St"), Null, Val("Springfield"), Val("IL"),
                                         Val("62704"), Val("US")))
    ensures AddressString(s) == "12 Main St" + ", " + ("Springfield" + ", " + ("IL" + ", " + ("62704" + ", " + "US")))
  {
    NullLineTwoSkipped(s, "12 Main St", "Springfield", "IL", "62704", "US");
  }

  /** An empty-string line2 is kept, giving two adjacent separators. */
  lemma EmptyComponentExample(s: Session)
    requires AddressOf(s) == Val(Address(Val("12 Main St"), Val(""), Val("Springfield"), Val("IL"),
                                         Val("62704"), Val("US")))
    ensures AddressString(s) ==
            "12 Main St" + ", " + ("" + ", " + ("Springfield" + ", " + ("IL" + ", " + ("62704" + ", " + "US"))))
  {
    AllComponentsPresent(s, "12 Main St", "", "Springfield", "IL", "62704", "US");
  }

  // ---------------------------------------------------------------------
  // Fulfilment
  // ---------------------------------------------------------------------

  /** `session?.customer_details?.phone || ''`. */
  function PhoneOf(s: Session): (phone: string)
    ensures phone != "" <==> s.customerDetails.Val? && s.customerDetails.v.phone.Val? &&
                             s.customerDetails.v.phone.v != ""
    ensures phone != "" ==> phone == s.customerDetails.v.phone.v
  {
    match s.customerDetails
    case Val(cd) => OrEmpty(cd.phone)
    case _ => ""
  }

  /** `session?.metadata?.orderId`, `None` when it is `undefined`. */
  function OrderIdOf(s: Session): (id: Option<OrderId>)
    ensures id.Some? <==> s.metadata.Val? && "orderId" in s.metadata.v
    ensures id.Some? ==> id.value == s.metadata.v["orderId"]
  {
    match s.metadata
    case Val(m) => if "orderId" in m then Some(m["orderId"]) else None
    case _ => None
  }

  /** What a completed checkout does to the tables once the order id, the
      address string and the phone are known.  An id naming no order makes
      the order update throw before anything is written: 500. */
  function Fulfil(orders: map<OrderId, Order>, products: map<ProductId, Product>,
                  id: OrderId, address: string, phone: string): (r: Outcome)
    ensures r.status == (if id in orders then 200 else 500)
    ensures r.orders.Keys == orders.Keys && r.products.Keys == products.Keys
    ensures id !in orders ==> r.orders == orders && r.products == products
  {
    if id !in orders then Outcome(500, orders, products)
    else
      var order := orders[id].(isPaid := true, address := address, phone := phone);
      Outcome(200, orders[id := order], Archived(products, ProductIds(order.items)))
  }

  /** On success exactly the named order becomes paid with the given address
      and phone; its items and store are kept and every other order is unchanged. */
  lemma FulfilPaysOrder(orders: map<OrderId, Order>, products: map<ProductId, Product>,
                        id: OrderId, address: string, phone: string)
    requires id in orders
    ensures var r := Fulfil(orders, products, id, address, phone);
            && r.orders[id].isPaid
            && r.orders[id].address == address
            && r.orders[id].phone == phone
            && r.orders[id].items == orders[id].items
            && r.orders[id].storeId == orders[id].storeId
            && forall o :: o in orders && o != id ==> r.orders[o] == orders[o]
  {
  }

  /** On success exactly the products referenced by the order's items become
      archived; every other field and every other product is kept.  Duplicate
      references change nothing. */
  lemma FulfilArchivesItsProducts(orders: map<OrderId, Order>, products: map<ProductId, Product>,
                                  id: OrderId, address: string, phone: string)
    requires id in orders
    ensures var r := Fulfil(orders, products, id, address, phone);
            forall p :: p in products ==>
              && r.products[p].isArchived == (products[p].isArchived || p in ProductIds(orders[id].items))
              && r.products[p] == products[p].(isArchived := r.products[p].isArchived)
              && (p !in ProductIds(orders[id].items) ==> r.products[p] == products[p])
  {
  }

  /** An order without items archives nothing. */
  lemma EmptyOrderArchivesNothing(orders: map<OrderId, Order>, products: map<ProductId, Product>,
                                  id: OrderId, address: string, phone: string)
    requires id in orders && orders[id].items == []
    ensures Fulfil(orders, products, id, address, phone).products == products
  {
    assert ProductIds(orders[id].items) == [];
  }

  /** Archiving the same ids again changes nothing. */
  lemma ArchivedTwice(products: map<ProductId, Product>, ids: seq<ProductId>)
    ensures Archived(Archived(products, ids), ids) == Archived(products, ids)
  {
  }

  /** Fulfilling the same order with the same data twice gives the tables
      of one fulfilment. */
  lemma FulfilTwice(orders: map<OrderId, Order>, products: map<ProductId, Product>,
                    id: OrderId, address: string, phone: string)
    ensures var once := Fulfil(orders, products, id, address, phone);
            var twice := Fulfil(once.orders, once.products, id, address, phone);
            twice.orders == once.orders && twice.products == once.products
  {
    if id in orders {
      var order := orders[id].(isPaid := true, address := address, phone := phone);
      var once := Fulfil(orders, products, id, address, phone);
      assert once.orders[id] == order;
      assert order.(isPaid := true, address := address, phone := phone) == order;
      ArchivedTwice(products, ProductIds(order.items));
    }
  }

  /** One delivery of the webhook, given the verified event (`None` when
      signature verification threw). */
  function HandleEvent(orders: map<OrderId, Order>, products: map<ProductId, Product>,
                       verified: Option<Event>): (r: Outcome)
    ensures r.status in {200, 400, 500}
    ensures r.orders.Keys == orders.Keys && r.products.Keys == products.Keys
    ensures verified.None? ==> r == Outcome(400, orders, products)
    ensures verified.Some? && verified.value.kind != CheckoutSessionCompleted ==>
              r == Outcome(200, orders, products)
    ensures r.status == 500 <==>
              verified.Some? && verified.value.kind == CheckoutSessionCompleted &&
              (OrderIdOf(verified.value.session).None? ||
               OrderIdOf(verified.value.session).value !in orders)
    ensures r.status != 200 ==> r.orders == orders && r.products == products
  {
    match verified
    case None => Outcome(400, orders, products)
    case Some(ev) =>
      if ev.kind != CheckoutSessionCompleted then Outcome(200, orders, products)
      else
        match OrderIdOf(ev.session)
        case None => Outcome(500, orders, products)
        case Some(id) => Fulfil(orders, products, id, AddressString(ev.session), PhoneOf(ev.session))
  }

  /** A completed event naming an existing order pays that order with the
      address and phone derived from the session and archives its products. */
  lemma CompletedEventFulfils(orders: map<OrderId, Order>, products: map<ProductId, Product>,
                              ev: Event, id: OrderId)
    requires ev.kind == CheckoutSessionCompleted
    requires OrderIdOf(ev.session) == Some(id) && id in orders
    ensures HandleEvent(orders, products, Some(ev)) ==
            Fulfil(orders, products, id, AddressString(ev.session), PhoneOf(ev.session))
    ensures HandleEvent(orders, products, Some(ev)).status == 200
  {
  }

  /** Redelivering an event leaves the tables as one delivery did: flags are
      only ever set, and the paid order's fields are set to the same values. */
  lemma RedeliveryIsIdempotent(orders: map<OrderId, Order>, products: map<ProductId, Product>,
                               verified: Option<Event>)
    ensures var once := HandleEvent(orders, products, verified);
            var twice := HandleEvent(once.orders, once.products, verified);
            twice.orders == once.orders && twice.products == once.products
  {
    if verified.Some? && verified.value.kind == CheckoutSessionCompleted &&
       OrderIdOf(verified.value.session).Some? {
      var s := verified.value.session;
      FulfilTwice(orders, products, OrderIdOf(s).value, AddressString(s), PhoneOf(s));
    }
  }

  /** No delivery ever unpays an order or unarchives a product. */
  lemma FlagsOnlyRise(orders: map<OrderId, Order>, products: map<ProductId, Product>,
                      verified: Option<Event>)
    ensures var r := HandleEvent(orders, products, verified);
            && (forall o :: o in orders && orders[o].isPaid ==> r.orders[o].isPaid)
            && (forall p :: p in products && products[p].isArchived ==> r.products[p].isArchived)
  {
    var r := HandleEvent(orders, products, verified);
    if r.status == 200 && verified.Some? && verified.value.kind == CheckoutSessionCompleted {
      var s := verified.value.session;
      FulfilArchivesItsProducts(orders, products, OrderIdOf(s).value, AddressString(s), PhoneOf(s));
    }
  }

  /** The fulfilment writes: the order update, then the bulk product update
      over the product ids of the updated order's items. */
  method FulfilOrder(db: Database, id: OrderId, address: string, phone: string) returns (status: nat)
    modifies db`orders, db`products
    ensures Outcome(status, db.orders, db.products) == Fulfil(old(db.orders), old(db.products), id, address, phone)
  {
    var order := db.UpdateOrderPaid(id, address, phone);
    if order.None? {
      return 500;
    }
    db.ArchiveProducts(ProductIds(order.value.items));
    return 200;
  }

  /** The route handler.  `verified` is what `stripe.webhooks.constructEvent`
      produced: `None` when it threw on a bad signature or body. */
  method Handle(db: Database, verified: Option<Event>) returns (status: nat)
    modifies db`orders, db`products
    ensures Outcome(status, db.orders, db.products) == HandleEvent(old(db.orders), old(db.products), verified)
  {
    if verified.None? {
      return 400;
    }
    var ev := verified.value;
    var address := AddressString(ev.session);
    if ev.kind != CheckoutSessionCompleted {
      return 200;
    }
    var id := OrderIdOf(ev.session);
    if id.None? {
      return 500;
    }
    status := FulfilOrder(db, id.value, address, PhoneOf(ev.session));
  }
}
