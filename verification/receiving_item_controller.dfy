/**
 * ReceivingItemController: updating and deleting one stored purchase-order
 * line. The line total is recomputed from the new-or-stored cost and
 * quantity; the amount subtracted is the new percentage of that base when
 * one is given, and otherwise the value of the stored discount column
 * itself (which createReceiving fills with a percentage). The order's
 * header totals are never recomputed.
 */
module ReceivingItemController {
  import opened Common
  import opened Records
  import opened Database
  import opened ReceivingSettlement

  /** The validated request fields; None is a field the request left out. */
  datatype LineChanges = LineChanges(cost: Option<real>, qty: Option<int>, discount: Option<real>)

  /** cost >= 0, qty >= 1 and a discount within [0, 100], each when present. */
  predicate ValidChanges(c: LineChanges) {
    && (c.cost.Some? ==> c.cost.value >= 0.0)
    && (c.qty.Some? ==> c.qty.value >= 1)
    && (c.discount.Some? ==> 0.0 <= c.discount.value <= 100.0)
  }

  /** The line's new base: (new cost, else stored cost) times (new quantity, else stored quantity). */
  function RevisedBase(line: ReceivingLine, c: LineChanges): real {
    Base(c.cost.GetOr(line.cost), c.qty.GetOr(line.qty))
  }

  /** The amount taken off the base: the new percentage of it, or else the stored discount value as it is. */
  function Subtracted(line: ReceivingLine, c: LineChanges): real {
    if c.discount.Some? then PercentOf(RevisedBase(line, c), c.discount) else line.discount
  }

  /** The stored line after the update: the given fields replaced and the total recomputed. */
  function Revised(line: ReceivingLine, c: LineChanges): ReceivingLine {
    line.(cost := c.cost.GetOr(line.cost), qty := c.qty.GetOr(line.qty), discount := c.discount.GetOr(line.discount),
          total := RevisedBase(line, c) - Subtracted(line, c))
  }

  /**
   * With a new percentage the recomputed line is what createReceiving
   * would have stored for the same cost, quantity and percentage, so its
   * total lies between 0 and the base.
   */
  lemma RevisedWithPercent(line: ReceivingLine, c: LineChanges, item: Item)
    requires ValidChanges(c) && c.discount.Some?
    requires item.cost == c.cost.GetOr(line.cost) && item.cost >= 0.0
    requires c.qty.GetOr(line.qty) >= 1
    ensures Revised(line, c) ==
      NewLine(line.receivingId, item, OrderLine(line.itemId, c.qty.GetOr(line.qty), c.discount))
    ensures 0.0 <= Revised(line, c).total <= RevisedBase(line, c)
  {
    NewLineBounds(line.receivingId, item, OrderLine(line.itemId, c.qty.GetOr(line.qty), c.discount));
  }

  /**
   * Sending back the percentage a line was created with, and nothing else,
   * leaves the line exactly as createReceiving stored it.
   */
  lemma ResubmittedPercentKeepsLine(rid: nat, item: Item, l: OrderLine)
    requires l.discount.Some?
    ensures Revised(NewLine(rid, item, l), LineChanges(None, None, l.discount)) == NewLine(rid, item, l)
  {
  }

  /**
   * Without a new percentage the stored percentage is subtracted as an
   * amount: a line created at cost 10, quantity 2 and 50 % totals 10, and
   * an update that changes nothing recomputes it as 20 - 50.
   */
  lemma StoredPercentSubtractedAsAmount(rid: nat, item: Item, itemId: nat)
    requires item.cost == 10.0
    ensures var line := NewLine(rid, item, OrderLine(itemId, 2, Some(50.0)));
      && line.total == 10.0
      && Revised(line, LineChanges(None, None, None)).total == -30.0
  {
    var line := NewLine(rid, item, OrderLine(itemId, 2, Some(50.0)));
    assert Base(10.0, 2) == 20.0;
    assert PercentOf(20.0, Some(50.0)) == 10.0;
    assert line.discount == 50.0;
  }

  /**
   * updateReceivingItem. A missing line is not found (nothing changes); a
   * request failing validation is rejected (nothing changes); otherwise
   * only that line changes, as Revised says, and no header is recomputed.
   */
  method UpdateReceivingItem(db: Store, id: nat, c: LineChanges) returns (r: Result<()>)
    requires db.Valid()
    modifies db`receivingLines
    ensures db.Valid()
    ensures r.Failure? ==> unchanged(db)
    ensures id !in old(db.receivingLines) ==> r == Failure(NotFound)
    ensures id in old(db.receivingLines) && !ValidChanges(c) ==> r == Failure(Invalid)
    ensures r.Success? <==> id in old(db.receivingLines) && ValidChanges(c)
    ensures r.Success? ==> db.receivingLines == old(db.receivingLines)[id := Revised(old(db.receivingLines)[id], c)]
    ensures db.receivings == old(db.receivings)
  {
    if id !in db.receivingLines {
      return Failure(NotFound);
    }
    if !ValidChanges(c) {
      return Failure(Invalid);
    }
    var line := db.receivingLines[id];
    var lineTotal := Base(c.cost.GetOr(line.cost), c.qty.GetOr(line.qty));
    var discount := if c.discount.Some? then PercentOf(lineTotal, c.discount) else line.discount;
    db.receivingLines := db.receivingLines[id := line.(cost := c.cost.GetOr(line.cost), qty := c.qty.GetOr(line.qty),
                                                       discount := c.discount.GetOr(line.discount),
                                                       total := lineTotal - discount)];
    return Success(());
  }

  /** deleteReceivingItem: removes exactly that line, or is not found and changes nothing. */
  method DeleteReceivingItem(db: Store, id: nat) returns (r: Result<()>)
    requires db.Valid()
    modifies db`receivingLines
    ensures db.Valid()
    ensures r.Failure? ==> r == Failure(NotFound) && id !in old(db.receivingLines) && unchanged(db)
    ensures r.Success? <==> id in old(db.receivingLines)
    ensures r.Success? ==> db.receivingLines == old(db.receivingLines) - {id}
    ensures db.receivings == old(db.receivings)
  {
    if id !in db.receivingLines {
      return Failure(NotFound);
    }
    db.receivingLines := db.receivingLines - {id};
    return Success(());
  }
}
