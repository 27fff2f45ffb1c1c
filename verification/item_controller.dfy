/**
 * ItemController: the catalog listing with its filters and margin, lookup
 * by id, creation with the active-by-default rule, partial update, and
 * archiving (deactivation; items are never deleted).
 */
module ItemController {
  import opened Common
  import opened Records
  import opened Database
  import opened Text

  /** getAllItems's optional filters: search text, category, and the low-stock switch. */
  datatype ItemQuery = ItemQuery(search: Option<string>, categoryId: Option<nat>, lowStock: bool)

  /** An item as the listing and the lookup return it: the row plus its margin. */
  datatype ItemView = ItemView(item: Item, margin: real)

  /** The margin accessor: selling price minus cost. */
  function View(item: Item): (v: ItemView)
    ensures v.item == item && v.margin + item.cost == item.price
  {
    ItemView(item, item.price - item.cost)
  }

  /** The search matches the item's name, its barcode, or its supplier's company name. */
  predicate MatchesSearch(item: Item, suppliers: map<nat, Supplier>, search: string) {
    || Contains(item.name, search)
    || (item.barcode.Some? && Contains(item.barcode.value, search))
    || (item.supplierId in suppliers && Contains(suppliers[item.supplierId].companyName, search))
  }

  /** stock <= min_stock, where a missing min_stock never compares true. */
  predicate LowStock(item: Item) {
    item.minStock.Some? && item.stock <= item.minStock.value
  }

  /** Whether the item is in the listing: active, and passing every filter the query sets. */
  predicate Listed(item: Item, suppliers: map<nat, Supplier>, q: ItemQuery) {
    && item.isActive
    && (q.search.Some? && q.search.value != "" ==> MatchesSearch(item, suppliers, q.search.value))
    && (q.categoryId.Some? ==> item.categoryId == q.categoryId.value)
    && (q.lowStock ==> LowStock(item))
  }

  /**
   * getAllItems: the listed items, each with its margin; an empty result
   * is reported as not found.
   */
  function ListItems(items: map<nat, Item>, suppliers: map<nat, Supplier>, q: ItemQuery)
    : (r: Result<map<nat, ItemView>>)
    ensures r.Failure? ==> r.error == NotFound
    ensures r.Failure? <==> forall k :: k in items ==> !Listed(items[k], suppliers, q)
    ensures r.Success? ==>
      && (forall k :: k in r.value <==> k in items && Listed(items[k], suppliers, q))
      && (forall k :: k in r.value ==> r.value[k].item == items[k] && r.value[k].margin == items[k].price - items[k].cost)
  {
    if exists k :: k in items && Listed(items[k], suppliers, q) then
      Success(map k | k in items && Listed(items[k], suppliers, q) :: View(items[k]))
    else
      Failure(NotFound)
  }

  /** The listing shows only active items, and with the low-stock switch only items at or under their minimum. */
  lemma ListedItemsAreActive(items: map<nat, Item>, suppliers: map<nat, Supplier>, q: ItemQuery, k: nat)
    requires ListItems(items, suppliers, q).Success? && k in ListItems(items, suppliers, q).value
    ensures items[k].isActive
    ensures q.lowStock ==> items[k].minStock.Some? && items[k].stock <= items[k].minStock.value
    ensures q.categoryId.Some? ==> items[k].categoryId == q.categoryId.value
  {
  }

  /** q2 asks for everything q1 asks for, and maybe more. */
  predicate Narrower(q2: ItemQuery, q1: ItemQuery) {
    && (q1.search.Some? && q1.search.value != "" ==> q2.search == q1.search)
    && (q1.categoryId.Some? ==> q2.categoryId == q1.categoryId)
    && (q1.lowStock ==> q2.lowStock)
  }

  /** Adding filters never adds an item to the listing. */
  lemma FiltersOnlyNarrow(items: map<nat, Item>, suppliers: map<nat, Supplier>, q1: ItemQuery, q2: ItemQuery)
    requires Narrower(q2, q1)
    requires ListItems(items, suppliers, q2).Success?
    ensures ListItems(items, suppliers, q1).Success?
    ensures ListItems(items, suppliers, q2).value.Keys <= ListItems(items, suppliers, q1).value.Keys
  {
    var r2 := ListItems(items, suppliers, q2).value;
    var k :| k in r2;
    assert Listed(items[k], suppliers, q1);
  }

  /** Deactivating an item removes exactly that item from every listing. */
  lemma ArchivedItemIsNotListed(items: map<nat, Item>, suppliers: map<nat, Supplier>, q: ItemQuery, id: nat)
    requires id in items
    ensures var after := items[id := items[id].(isActive := false)];
      && (ListItems(after, suppliers, q).Success? ==>
            && ListItems(items, suppliers, q).Success?
            && ListItems(after, suppliers, q).value == ListItems(items, suppliers, q).value - {id})
  {
    var after := items[id := items[id].(isActive := false)];
    if ListItems(after, suppliers, q).Success? {
      var a := ListItems(after, suppliers, q).value;
      var k :| k in a;
      assert k != id && after[k] == items[k];
      var b := ListItems(items, suppliers, q).value;
      assert a.Keys == b.Keys - {id};
      assert forall k :: k in a ==> a[k] == b[k];
    }
  }

  /** getItemById: any item (active or not) with its margin, or not found. */
  function GetItemById(items: map<nat, Item>, id: nat): (r: Result<ItemView>)
    ensures r.Success? <==> id in items
    ensures r.Failure? ==> r.error == NotFound
    ensures r.Success? ==> r.value.item == items[id] && r.value.margin == items[id].price - items[id].cost
  {
    if id in items then Success(View(items[id])) else Failure(NotFound)
  }

  /** createItem's validated request; `isActive` None is a request without is_active. */
  datatype NewItem = NewItem(
    name: string,
    barcode: Option<string>,
    categoryId: nat,
    supplierId: nat,
    cost: real,
    price: real,
    stock: int,
    minStock: Option<int>,
    isActive: Option<bool>)

  /** The numeric rules: cost, price and stock at least 0, and min_stock too when present. */
  predicate ValidNewItem(n: NewItem) {
    n.cost >= 0.0 && n.price >= 0.0 && n.stock >= 0 && (n.minStock.Some? ==> n.minStock.value >= 0)
  }

  /** No stored item has this barcode (the unique rule). */
  predicate BarcodeFree(items: map<nat, Item>, barcode: Option<string>, except: Option<nat>) {
    barcode.Some? ==> forall k :: k in items && Some(k) != except ==> items[k].barcode != barcode
  }

  /**
   * createItem. A request failing the numeric rules is rejected and
   * nothing changes; otherwise the item is stored under the next id,
   * active unless the request says otherwise.
   */
  method CreateItem(db: Store, n: NewItem) returns (r: Result<nat>)
    requires db.Valid()
    requires n.supplierId in db.suppliers
    requires BarcodeFree(db.items, n.barcode, None)
    modifies db`items, db`nextItemId
    ensures db.Valid()
    ensures r.Failure? ==> r == Failure(Invalid) && unchanged(db)
    ensures r.Success? <==> ValidNewItem(n)
    ensures r.Success? ==>
      && r.value == old(db.nextItemId) && r.value !in old(db.items)
      && db.items == old(db.items)[r.value := Item(n.name, n.barcode, n.categoryId, n.supplierId, n.cost, n.price,
                                                   n.stock, n.minStock, n.isActive.GetOr(true))]
      && db.nextItemId == r.value + 1
  {
    if !ValidNewItem(n) {
      return Failure(Invalid);
    }
    var id := db.nextItemId;
    db.items := db.items[id := Item(n.name, n.barcode, n.categoryId, n.supplierId, n.cost, n.price, n.stock,
                                    n.minStock, n.isActive.GetOr(true))];
    db.nextItemId := id + 1;
    return Success(id);
  }

  /** updateItem's validated request: None is a field the request left out. */
  datatype ItemChanges = ItemChanges(
    name: Option<string>,
    barcode: Option<string>,
    categoryId: Option<nat>,
    supplierId: Option<nat>,
    cost: Option<real>,
    price: Option<real>,
    stock: Option<int>,
    minStock: Option<int>,
    isActive: Option<bool>)

  predicate ValidChanges(c: ItemChanges) {
    && (c.cost.Some? ==> c.cost.value >= 0.0)
    && (c.price.Some? ==> c.price.value >= 0.0)
    && (c.stock.Some? ==> c.stock.value >= 0)
    && (c.minStock.Some? ==> c.minStock.value >= 0)
  }

  /**
   * Every field the request gives replaces the stored one; the rest stay.
   * A request that passes the numeric rules keeps cost and price at 0 or
   * more.
   */
  function Apply(item: Item, c: ItemChanges): (r: Item)
    ensures PricedItem(item) && ValidChanges(c) ==> PricedItem(r)
    ensures ValidChanges(c) && item.stock >= 0 ==> r.stock >= 0
  {
    Item(c.name.GetOr(item.name),
         if c.barcode.Some? then c.barcode else item.barcode,
         c.categoryId.GetOr(item.categoryId),
         c.supplierId.GetOr(item.supplierId),
         c.cost.GetOr(item.cost),
         c.price.GetOr(item.price),
         c.stock.GetOr(item.stock),
         if c.minStock.Some? then c.minStock else item.minStock,
         c.isActive.GetOr(item.isActive))
  }

  /**
   * updateItem. A missing item is not found and a request failing the
   * numeric rules is rejected, both changing nothing; otherwise only that
   * item changes, as Apply says.
   */
  method UpdateItem(db: Store, id: nat, c: ItemChanges) returns (r: Result<()>)
    requires db.Valid()
    requires c.supplierId.Some? ==> c.supplierId.value in db.suppliers
    requires BarcodeFree(db.items, c.barcode, Some(id))
    modifies db`items
    ensures db.Valid()
    ensures r.Failure? ==> unchanged(db)
    ensures id !in old(db.items) ==> r == Failure(NotFound)
    ensures id in old(db.items) && !ValidChanges(c) ==> r == Failure(Invalid)
    ensures r.Success? <==> id in old(db.items) && ValidChanges(c)
    ensures r.Success? ==> db.items == old(db.items)[id := Apply(old(db.items)[id], c)]
  {
    if id !in db.items {
      return Failure(NotFound);
    }
    if !ValidChanges(c) {
      return Failure(Invalid);
    }
    db.items := db.items[id := Apply(db.items[id], c)];
    return Success(());
  }

  /**
   * archiveItem: a missing item is not found; otherwise the item is
   * deactivated and nothing else about it changes (archiving an inactive
   * item succeeds again).
   */
  method ArchiveItem(db: Store, id: nat) returns (r: Result<()>)
    requires db.Valid()
    modifies db`items
    ensures db.Valid()
    ensures r.Failure? ==> r == Failure(NotFound) && unchanged(db)
    ensures r.Success? <==> id in old(db.items)
    ensures r.Success? ==> db.items == old(db.items)[id := old(db.items)[id].(isActive := false)]
  {
    if id !in db.items {
      return Failure(NotFound);
    }
    db.items := db.items[id := db.items[id].(isActive := false)];
    return Success(());
  }
}
