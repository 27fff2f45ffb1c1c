/**
 * The database the controllers work on: one map per table from row id to
 * record, plus each table's auto-increment counter. Every controller
 * operation is a method taking the store; a transaction that throws is
 * modelled as the method leaving every table as it found it.
 */
module Database {
  import opened Common
  import opened Records

  /** Every id in use lies below the table's auto-increment counter. */
  ghost predicate Below(ids: set<nat>, next: nat) {
    forall k :: k in ids ==> k < next
  }

  /** Every receiving line refers to an existing item (items are archived, never deleted). */
  ghost predicate LinesReferToItems(lines: map<nat, ReceivingLine>, items: set<nat>) {
    forall k :: k in lines ==> lines[k].itemId in items
  }

  /** The create and update rules keep an item's cost and price at 0 or more. */
  predicate PricedItem(i: Item) {
    i.cost >= 0.0 && i.price >= 0.0
  }

  /** A gift card's stored balance, when it has one, is 0 or more. */
  predicate FundedCard(g: GiftCard) {
    g.balance.Some? ==> g.balance.value >= 0.0
  }

  /** A sale's discount lies between 0 and its total, and its net amount is what the discount leaves. */
  predicate SettledSale(s: Sale) {
    0.0 <= s.discount <= s.totalAmount && s.netAmount == s.totalAmount - s.discount
  }

  /** An order's discount total lies between 0 and its total, and the amount due is what it leaves. */
  predicate SettledOrder(r: Receiving) {
    0.0 <= r.discountTotal <= r.total && r.amountDue == r.total - r.discountTotal
  }

  ghost predicate Priced(items: map<nat, Item>) {
    forall k :: k in items ==> PricedItem(items[k])
  }

  ghost predicate Funded(giftCards: map<nat, GiftCard>) {
    forall k :: k in giftCards ==> FundedCard(giftCards[k])
  }

  ghost predicate SalesSettled(sales: map<nat, Sale>) {
    forall k :: k in sales ==> SettledSale(sales[k])
  }

  ghost predicate OrdersSettled(receivings: map<nat, Receiving>) {
    forall k :: k in receivings ==> SettledOrder(receivings[k])
  }

  /**
   * `orderBy('id', 'desc')->first()`: the highest id in use below `n`, or
   * None when there is none.
   */
  function LastId(ids: set<nat>, n: nat): (r: Option<nat>)
    ensures r.None? <==> forall k :: k in ids ==> k >= n
    ensures r.Some? ==> r.value in ids && r.value < n && forall k :: k in ids && k < n ==> k <= r.value
  {
    if n == 0 then None
    else if n - 1 in ids then Some(n - 1)
    else LastId(ids, n - 1)
  }

  class Store {
    var items: map<nat, Item>
    var suppliers: map<nat, Supplier>
    var giftCards: map<nat, GiftCard>
    var customers: map<nat, Customer>
    var users: map<nat, User>
    var sales: map<nat, Sale>
    var receivings: map<nat, Receiving>
    var receivingLines: map<nat, ReceivingLine>
    var nextItemId: nat
    var nextGiftCardId: nat
    var nextCustomerId: nat
    var nextUserId: nat
    var nextSaleId: nat
    var nextReceivingId: nat
    var nextReceivingLineId: nat

    ghost predicate Valid()
      reads this
    {
      && Below(items.Keys, nextItemId)
      && Below(giftCards.Keys, nextGiftCardId)
      && Below(customers.Keys, nextCustomerId)
      && Below(users.Keys, nextUserId)
      && Below(sales.Keys, nextSaleId)
      && Below(receivings.Keys, nextReceivingId)
      && Below(receivingLines.Keys, nextReceivingLineId)
      && LinesReferToItems(receivingLines, items.Keys)
      && Priced(items)
      && Funded(giftCards)
      && SalesSettled(sales)
      && OrdersSettled(receivings)
    }

    /** An empty database whose ids start at 1. */
    constructor ()
      ensures Valid()
      ensures items == map[] && suppliers == map[] && giftCards == map[] && customers == map[]
      ensures users == map[] && sales == map[] && receivings == map[] && receivingLines == map[]
      ensures nextItemId == 1 && nextGiftCardId == 1 && nextCustomerId == 1 && nextUserId == 1
      ensures nextSaleId == 1 && nextReceivingId == 1 && nextReceivingLineId == 1
    {
      items, suppliers, giftCards, customers := map[], map[], map[], map[];
      users, sales, receivings, receivingLines := map[], map[], map[], map[];
      nextItemId, nextGiftCardId, nextCustomerId, nextUserId := 1, 1, 1, 1;
      nextSaleId, nextReceivingId, nextReceivingLineId := 1, 1, 1;
    }
  }
}
