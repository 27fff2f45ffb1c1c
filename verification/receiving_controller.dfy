/**
 * ReceivingController: createReceiving and completeReceiving over the
 * store. createReceiving writes a 'Pending' purchase order and its lines
 * without touching stock; completeReceiving adds every line's quantity to
 * its item's stock once and marks the order 'Completed'.
 */
module ReceivingController {
  import opened Common
  import opened Records
  import opened Database
  import opened ReceivingSettlement

  /** The item of the line belongs to another supplier than the order's. */
  predicate Foreign(items: map<nat, Item>, supplierId: nat, l: OrderLine)
    requires l.itemId in items
  {
    items[l.itemId].supplierId != supplierId
  }

  /** createReceiving's extra check: every line's item belongs to the order's supplier. */
  predicate AllFromSupplier(items: map<nat, Item>, supplierId: nat, lines: seq<OrderLine>)
    requires InCatalog(items, lines)
  {
    forall i :: 0 <= i < |lines| ==> !Foreign(items, supplierId, lines[i])
  }

  /**
   * The supplier loop: reads each line's item in order and stops at the
   * first one of another supplier, naming that item.
   */
  method CheckSuppliers(db: Store, supplierId: nat, lines: seq<OrderLine>) returns (r: Option<nat>)
    requires InCatalog(db.items, lines)
    ensures r.None? <==> AllFromSupplier(db.items, supplierId, lines)
    ensures r.Some? ==>
      exists j :: 0 <= j < |lines| && r.value == lines[j].itemId &&
        Foreign(db.items, supplierId, lines[j]) &&
        forall k :: 0 <= k < j ==> !Foreign(db.items, supplierId, lines[k])
  {
    var i := 0;
    while i < |lines|
      invariant 0 <= i <= |lines|
      invariant forall k :: 0 <= k < i ==> !Foreign(db.items, supplierId, lines[k])
    {
      if db.items[lines[i].itemId].supplierId != supplierId {
        return Some(lines[i].itemId);
      }
      i := i + 1;
    }
    return None;
  }

  /**
   * createReceiving. Validation (at least one line, quantities of at least
   * 1, percentages within [0, 100]) fails first; then the first line whose
   * item belongs to another supplier is rejected; otherwise a 'Pending'
   * header is written, one line per requested line at the item's current
   * cost, and the header gets the summed total, discount total and amount
   * due. Stock is not touched.
   */
  method CreateReceiving(db: Store, supplierId: nat, expectedDeliveryDate: Option<string>,
                         orderNotes: Option<string>, lines: seq<OrderLine>)
    returns (r: Result<nat>)
    requires db.Valid()
    requires supplierId in db.suppliers
    requires InCatalog(db.items, lines)
    modifies db`receivings, db`receivingLines, db`nextReceivingId, db`nextReceivingLineId
    ensures db.Valid()
    ensures r.Failure? ==> unchanged(db)
    ensures !ValidOrder(lines) ==> r == Failure(Invalid)
    ensures ValidOrder(lines) && !AllFromSupplier(old(db.items), supplierId, lines) ==>
      r.Failure? && r.error.SupplierMismatch? &&
      exists j :: 0 <= j < |lines| && r.error.itemId == lines[j].itemId && Foreign(db.items, supplierId, lines[j]) &&
        forall k :: 0 <= k < j ==> !Foreign(db.items, supplierId, lines[k])
    ensures r.Success? <==> ValidOrder(lines) && AllFromSupplier(db.items, supplierId, lines)
    ensures r.Success? ==>
      var total := OrderTotal(db.items, lines);
      var discountTotal := DiscountTotal(db.items, lines);
      && r.value == old(db.nextReceivingId) && r.value !in old(db.receivings)
      && db.receivings == old(db.receivings)[r.value := Receiving(supplierId, expectedDeliveryDate, orderNotes,
                                                                   total, discountTotal, total - discountTotal, Pending)]
      && db.receivingLines == Placed(old(db.receivingLines), old(db.nextReceivingLineId), r.value, db.items, lines)
      && db.nextReceivingLineId == old(db.nextReceivingLineId) + |lines|
      && db.nextReceivingId == r.value + 1
    ensures r.Success? ==>
      var o := db.receivings[r.value];
      0.0 <= o.discountTotal <= o.total && 0.0 <= o.amountDue <= o.total
  {
    if !ValidOrder(lines) {
      return Failure(Invalid);
    }
    var foreign := CheckSuppliers(db, supplierId, lines);
    if foreign.Some? {
      return Failure(SupplierMismatch(foreign.value));
    }
    var id := RecordOrder(db, Receiving(supplierId, expectedDeliveryDate, orderNotes, 0.0, 0.0, 0.0, Pending), lines);
    return Success(id);
  }

  /**
   * createReceiving after its checks: the 'Pending' header is written with
   * zero amounts, then the lines, then the header gets the summed amounts.
   */
  method RecordOrder(db: Store, header: Receiving, lines: seq<OrderLine>) returns (id: nat)
    requires db.Valid()
    requires InCatalog(db.items, lines) && ValidOrder(lines)
    requires header.total == 0.0 && header.discountTotal == 0.0 && header.amountDue == 0.0
    modifies db`receivings, db`receivingLines, db`nextReceivingId, db`nextReceivingLineId
    ensures db.Valid()
    ensures id == old(db.nextReceivingId) && id !in old(db.receivings)
    ensures var total := OrderTotal(db.items, lines);
      var discountTotal := DiscountTotal(db.items, lines);
      db.receivings == old(db.receivings)[id := header.(total := total, discountTotal := discountTotal,
                                                        amountDue := total - discountTotal)]
    ensures db.receivingLines == Placed(old(db.receivingLines), old(db.nextReceivingLineId), id, db.items, lines)
    ensures db.nextReceivingLineId == old(db.nextReceivingLineId) + |lines|
    ensures db.nextReceivingId == id + 1
  {
    id := db.nextReceivingId;
    db.receivings := db.receivings[id := header];
    db.nextReceivingId := id + 1;
    var total, discountTotal := WriteOrderLines(db, id, lines);
    OrderBounds(db.items, lines);
    db.receivings := db.receivings[id := header.(total := total, discountTotal := discountTotal,
                                                 amountDue := total - discountTotal)];
  }

  /**
   * createReceiving's line loop: each line is stored at the next line id
   * with the item's current cost, and the base and discount amounts are
   * summed for the header.
   */
  method WriteOrderLines(db: Store, rid: nat, lines: seq<OrderLine>) returns (total: real, discountTotal: real)
    requires db.Valid()
    requires InCatalog(db.items, lines)
    modifies db`receivingLines, db`nextReceivingLineId
    ensures db.Valid()
    ensures total == OrderTotal(db.items, lines) && discountTotal == DiscountTotal(db.items, lines)
    ensures db.receivingLines == Placed(old(db.receivingLines), old(db.nextReceivingLineId), rid, db.items, lines)
    ensures db.nextReceivingLineId == old(db.nextReceivingLineId) + |lines|
  {
    total, discountTotal := 0.0, 0.0;
    var i := 0;
    while i < |lines|
      invariant 0 <= i <= |lines|
      invariant total == OrderTotal(db.items, lines[..i]) && discountTotal == DiscountTotal(db.items, lines[..i])
      invariant db.receivingLines == Placed(old(db.receivingLines), old(db.nextReceivingLineId), rid, db.items, lines[..i])
      invariant db.nextReceivingLineId == old(db.nextReceivingLineId) + i
      invariant db.Valid()
    {
      var l := lines[i];
      var item := db.items[l.itemId];
      assert lines[..i + 1][..i] == lines[..i];
      var lineTotal := Base(item.cost, l.qty);
      var discount := PercentOf(lineTotal, l.discount);
      ghost var before := db.receivingLines;
      db.receivingLines := db.receivingLines[db.nextReceivingLineId := NewLine(rid, item, l)];
      db.nextReceivingLineId := db.nextReceivingLineId + 1;
      total := total + lineTotal;
      discountTotal := discountTotal + discount;
      i := i + 1;
      assert Below(db.receivingLines.Keys, db.nextReceivingLineId) by {
        forall k | k in db.receivingLines ensures k < db.nextReceivingLineId {
          if k in before {
            assert k < old(db.nextReceivingLineId) + i - 1;
          }
        }
      }
    }
    assert lines[..i] == lines;
  }

  /** The order's lines, counted up to the line counter, add this to item x's stock. */
  function Delivered(db: Store, rid: nat, x: nat): int
    reads db
  {
    ReceivedQty(db.receivingLines, rid, x, db.nextReceivingLineId)
  }

  /**
   * completeReceiving. A missing order is not found and a 'Completed' one
   * is rejected, both changing nothing; otherwise every line of the order
   * adds its quantity to its item's stock and the order becomes
   * 'Completed', so a second call is rejected and adds nothing.
   */
  method CompleteReceiving(db: Store, id: nat) returns (r: Result<()>)
    requires db.Valid()
    modifies db`items, db`receivings
    ensures db.Valid()
    ensures r.Failure? ==> unchanged(db)
    ensures id !in old(db.receivings) ==> r == Failure(NotFound)
    ensures id in old(db.receivings) && old(db.receivings)[id].status == ReceivingStatus.Completed ==>
      r == Failure(AlreadyCompleted)
    ensures r.Success? <==> id in old(db.receivings) && old(db.receivings)[id].status == Pending
    ensures r.Success? ==>
      && db.items == Received(old(db.items), db.receivingLines, id, db.nextReceivingLineId)
      && db.receivings == old(db.receivings)[id := old(db.receivings)[id].(status := ReceivingStatus.Completed)]
  {
    if id !in db.receivings {
      return Failure(NotFound);
    }
    if db.receivings[id].status == ReceivingStatus.Completed {
      return Failure(AlreadyCompleted);
    }
    AddStock(db, id);
    db.receivings := db.receivings[id := db.receivings[id].(status := ReceivingStatus.Completed)];
    return Success(());
  }

  /** completeReceiving's loop: each line of order `id`, in id order, increments its item's stock. */
  method AddStock(db: Store, id: nat)
    requires db.Valid()
    modifies db`items
    ensures db.Valid()
    ensures db.items == Received(old(db.items), db.receivingLines, id, db.nextReceivingLineId)
  {
    var k := 0;
    while k < db.nextReceivingLineId
      invariant 0 <= k <= db.nextReceivingLineId
      invariant db.items == Received(old(db.items), db.receivingLines, id, k)
    {
      if k in db.receivingLines && db.receivingLines[k].receivingId == id {
        var line := db.receivingLines[k];
        var item := db.items[line.itemId];
        db.items := db.items[line.itemId := item.(stock := item.stock + line.qty)];
      }
      k := k + 1;
    }
    ReceivingKeepsPrices(old(db.items), db.receivingLines, id, db.nextReceivingLineId);
  }

  /** With valid lines and items priced at 0 or more, the header's discount total lies between 0 and its total. */
  lemma OrderBounds(items: map<nat, Item>, lines: seq<OrderLine>)
    requires InCatalog(items, lines) && ValidOrder(lines) && Priced(items)
    ensures 0.0 <= DiscountTotal(items, lines) <= OrderTotal(items, lines)
  {
    forall i | 0 <= i < |lines|
      ensures items[lines[i].itemId].cost >= 0.0
    {
      assert PricedItem(items[lines[i].itemId]);
    }
    HeaderBounds(items, lines);
  }

  /** Receiving goods only adds stock: every item keeps its cost and price. */
  lemma ReceivingKeepsPrices(items: map<nat, Item>, lines: map<nat, ReceivingLine>, rid: nat, n: nat)
    requires LinesReferToItems(lines, items.Keys) && Priced(items)
    ensures Priced(Received(items, lines, rid, n))
  {
    forall x | x in Received(items, lines, rid, n)
      ensures PricedItem(Received(items, lines, rid, n)[x])
    {
      ReceivedAt(items, lines, rid, n, x);
    }
  }

  /**
   * What completion does to one item: its stock goes up by what the
   * order's lines deliver, and nothing else about it changes.
   */
  lemma CompletionCreditsEachItem(db: Store, id: nat, before: map<nat, Item>, x: nat)
    requires db.Valid()
    requires before.Keys == db.items.Keys
    requires db.items == Received(before, db.receivingLines, id, db.nextReceivingLineId)
    requires x in before
    ensures db.items[x] == before[x].(stock := before[x].stock + Delivered(db, id, x))
  {
    assert LinesReferToItems(db.receivingLines, db.items.Keys);
    ReceivedAt(before, db.receivingLines, id, db.nextReceivingLineId, x);
  }
}
