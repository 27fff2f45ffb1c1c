/**
 * The arithmetic of purchase receivings: a line's base amount (cost times
 * quantity), its percentage discount, the header totals createReceiving
 * accumulates, where the new lines land in the receiving-lines table, and
 * the stock that completeReceiving adds.
 */
module ReceivingSettlement {
  import opened Common
  import opened Records

  /** One requested purchase-order line: item, quantity and optional discount percentage. */
  datatype OrderLine = OrderLine(itemId: nat, qty: int, discount: Option<real>)

  predicate InCatalog(items: map<nat, Item>, lines: seq<OrderLine>) {
    forall i :: 0 <= i < |lines| ==> lines[i].itemId in items
  }

  /** The numeric rules on one line: quantity at least 1, a given percentage within [0, 100]. */
  predicate ValidLine(l: OrderLine) {
    l.qty >= 1 && (l.discount.Some? ==> 0.0 <= l.discount.value <= 100.0)
  }

  /** The request's lines: at least one, each valid. */
  predicate ValidOrder(lines: seq<OrderLine>) {
    |lines| >= 1 && forall i :: 0 <= i < |lines| ==> ValidLine(lines[i])
  }

  /** A line's amount before discount. */
  function Base(cost: real, qty: int): real {
    cost * qty as real
  }

  /** The discount amount: the percentage of the base when one is given, otherwise 0. */
  function PercentOf(base: real, pct: Option<real>): real {
    if pct.Some? then base * (pct.value / 100.0) else 0.0
  }

  /** A percentage in [0, 100] of a non-negative base is between 0 and the base. */
  lemma PercentBounds(base: real, pct: Option<real>)
    requires base >= 0.0
    requires pct.Some? ==> 0.0 <= pct.value <= 100.0
    ensures 0.0 <= PercentOf(base, pct) <= base
  {
    if pct.Some? {
      var f := pct.value / 100.0;
      assert 0.0 <= f <= 1.0;
      assert base * f >= 0.0;
      assert base * (1.0 - f) >= 0.0;
      assert base * f == base - base * (1.0 - f);
    }
  }

  /**
   * The stored line for a requested one: the item's current cost, the
   * requested quantity, the percentage (0 when absent) in the discount
   * column, and the discounted amount as total.
   */
  function NewLine(rid: nat, item: Item, l: OrderLine): ReceivingLine {
    var base := Base(item.cost, l.qty);
    ReceivingLine(rid, l.itemId, item.cost, l.qty, l.discount.GetOr(0.0), base - PercentOf(base, l.discount))
  }

  /** A valid line of a non-negative cost totals between 0 and cost times quantity; without a percentage, exactly that. */
  lemma NewLineBounds(rid: nat, item: Item, l: OrderLine)
    requires ValidLine(l) && item.cost >= 0.0
    ensures var r := NewLine(rid, item, l);
      && 0.0 <= r.total <= item.cost * l.qty as real
      && (l.discount.None? ==> r.total == item.cost * l.qty as real && r.discount == 0.0)
  {
    assert Base(item.cost, l.qty) >= 0.0;
    PercentBounds(Base(item.cost, l.qty), l.discount);
  }

  /** The header total: the sum of every line's base at current cost. */
  function OrderTotal(items: map<nat, Item>, lines: seq<OrderLine>): real
    requires InCatalog(items, lines)
  {
    if lines == [] then 0.0
    else
      var l := lines[|lines| - 1];
      OrderTotal(items, lines[..|lines| - 1]) + Base(items[l.itemId].cost, l.qty)
  }

  /** The header's discount total: the sum of every line's discount amount. */
  function DiscountTotal(items: map<nat, Item>, lines: seq<OrderLine>): real
    requires InCatalog(items, lines)
  {
    if lines == [] then 0.0
    else
      var l := lines[|lines| - 1];
      DiscountTotal(items, lines[..|lines| - 1]) + PercentOf(Base(items[l.itemId].cost, l.qty), l.discount)
  }

  /** The sum of the totals stored on the new lines. */
  function LinesTotal(items: map<nat, Item>, rid: nat, lines: seq<OrderLine>): real
    requires InCatalog(items, lines)
  {
    if lines == [] then 0.0
    else
      var l := lines[|lines| - 1];
      LinesTotal(items, rid, lines[..|lines| - 1]) + NewLine(rid, items[l.itemId], l).total
  }

  /** amount_due (total minus discount total) is the sum of the stored line totals. */
  lemma {:induction false} AmountDueIsSumOfLines(items: map<nat, Item>, rid: nat, lines: seq<OrderLine>)
    requires InCatalog(items, lines)
    ensures OrderTotal(items, lines) - DiscountTotal(items, lines) == LinesTotal(items, rid, lines)
  {
    if lines != [] {
      AmountDueIsSumOfLines(items, rid, lines[..|lines| - 1]);
    }
  }

  predicate CostsNonNegative(items: map<nat, Item>, lines: seq<OrderLine>)
    requires InCatalog(items, lines)
  {
    forall i :: 0 <= i < |lines| ==> items[lines[i].itemId].cost >= 0.0
  }

  /** With valid lines and non-negative costs, 0 <= discount total <= total, so 0 <= amount due <= total. */
  lemma {:induction false} HeaderBounds(items: map<nat, Item>, lines: seq<OrderLine>)
    requires InCatalog(items, lines)
    requires forall i :: 0 <= i < |lines| ==> ValidLine(lines[i])
    requires CostsNonNegative(items, lines)
    ensures 0.0 <= DiscountTotal(items, lines) <= OrderTotal(items, lines)
  {
    if lines != [] {
      var l := lines[|lines| - 1];
      HeaderBounds(items, lines[..|lines| - 1]);
      assert ValidLine(l) && items[l.itemId].cost >= 0.0;
      assert Base(items[l.itemId].cost, l.qty) >= 0.0;
      PercentBounds(Base(items[l.itemId].cost, l.qty), l.discount);
    }
  }

  /** The receiving-lines table after the new lines are inserted at ids next, next + 1, ... */
  function Placed(m: map<nat, ReceivingLine>, next: nat, rid: nat, items: map<nat, Item>, lines: seq<OrderLine>)
    : map<nat, ReceivingLine>
    requires InCatalog(items, lines)
  {
    if lines == [] then m
    else
      var n := |lines| - 1;
      Placed(m, next, rid, items, lines[..n])[next + n := NewLine(rid, items[lines[n].itemId], lines[n])]
  }

  /**
   * The i-th requested line is stored at id next + i; every other id keeps
   * its old line, and no other id is added.
   */
  lemma {:induction false} PlacedAt(m: map<nat, ReceivingLine>, next: nat, rid: nat, items: map<nat, Item>,
                                    lines: seq<OrderLine>, k: nat)
    requires InCatalog(items, lines)
    ensures var p := Placed(m, next, rid, items, lines);
      && (k in p <==> k in m || next <= k < next + |lines|)
      && (next <= k < next + |lines| ==> p[k] == NewLine(rid, items[lines[k - next].itemId], lines[k - next]))
      && (k in m && !(next <= k < next + |lines|) ==> p[k] == m[k])
  {
    if lines != [] {
      var n := |lines| - 1;
      PlacedAt(m, next, rid, items, lines[..n], k);
    }
  }

  /** How much of item x the lines of receiving rid with ids below n bring in. */
  function ReceivedQty(lines: map<nat, ReceivingLine>, rid: nat, x: nat, n: nat): int {
    if n == 0 then 0
    else
      var k := n - 1;
      ReceivedQty(lines, rid, x, k) + (if k in lines && lines[k].receivingId == rid && lines[k].itemId == x then lines[k].qty else 0)
  }

  /**
   * completeReceiving's stock update, line by line in id order: every line
   * of receiving rid with id below n adds its quantity to its item's stock.
   */
  function Received(items: map<nat, Item>, lines: map<nat, ReceivingLine>, rid: nat, n: nat): (m: map<nat, Item>)
    ensures m.Keys == items.Keys
  {
    if n == 0 then items
    else
      var k := n - 1;
      var m := Received(items, lines, rid, k);
      if k in lines && lines[k].receivingId == rid && lines[k].itemId in m then
        m[lines[k].itemId := m[lines[k].itemId].(stock := m[lines[k].itemId].stock + lines[k].qty)]
      else m
  }

  /**
   * Each item's stock rises by exactly the quantity the receiving's lines
   * name for it; everything else about the item is unchanged.
   */
  lemma {:induction false} ReceivedAt(items: map<nat, Item>, lines: map<nat, ReceivingLine>, rid: nat, n: nat, x: nat)
    requires forall k :: k in lines ==> lines[k].itemId in items
    requires x in items
    ensures Received(items, lines, rid, n)[x] == items[x].(stock := items[x].stock + ReceivedQty(lines, rid, x, n))
  {
    if n > 0 {
      ReceivedAt(items, lines, rid, n - 1, x);
    }
  }

  /** Lines of receiving rid all at non-negative quantity never lower a stock. */
  lemma {:induction false} ReceivedQtyNonNegative(lines: map<nat, ReceivingLine>, rid: nat, x: nat, n: nat)
    requires forall k :: k in lines && lines[k].receivingId == rid ==> lines[k].qty >= 0
    ensures ReceivedQty(lines, rid, x, n) >= 0
  {
    if n > 0 {
      ReceivedQtyNonNegative(lines, rid, x, n - 1);
    }
  }

  /** Lines of other receivings, or beyond the counter, bring nothing in. */
  lemma {:induction false} ReceivedQtyOfNoLines(lines: map<nat, ReceivingLine>, rid: nat, x: nat, n: nat)
    requires forall k :: k in lines && k < n ==> lines[k].receivingId != rid || lines[k].itemId != x
    ensures ReceivedQty(lines, rid, x, n) == 0
  {
    if n > 0 {
      ReceivedQtyOfNoLines(lines, rid, x, n - 1);
    }
  }
}
