/**
 * SalesController: createSale, holdSale and completeHeldSale over the
 * store. Each endpoint runs in one database transaction, so every failure
 * leaves the store exactly as it was.
 */
module SalesController {
  import opened Common
  import opened Records
  import opened Database
  import opened SaleSettlement

  /**
   * `!empty($validated['gift_card_id'])`: an id of 0 counts as no gift card
   * in createSale.
   */
  function CardToApply(giftCardId: Option<nat>): (c: Option<nat>)
    ensures c.Some? <==> giftCardId.Some? && giftCardId.value != 0
    ensures c.Some? ==> c == giftCardId
  {
    if giftCardId.Some? && giftCardId.value != 0 then giftCardId else None
  }

  /**
   * createSale's first loop: reads every line's item before any write,
   * fails on the first line whose quantity exceeds that item's stock, and
   * otherwise sums price times quantity at current prices.
   */
  method CheckAndPrice(db: Store, lines: seq<LineRequest>) returns (r: Result<real>)
    requires InCatalog(db.items, lines)
    ensures r.Success? <==> InStock(db.items, lines)
    ensures r.Success? ==> r.value == BasketTotal(db.items, lines)
    ensures r.Failure? ==>
      exists j :: 0 <= j < |lines| && r.error == InsufficientStock(lines[j].itemId) &&
        ShortOfStock(db.items, lines[j]) &&
        forall k :: 0 <= k < j ==> !ShortOfStock(db.items, lines[k])
  {
    var total := 0.0;
    var i := 0;
    while i < |lines|
      invariant 0 <= i <= |lines|
      invariant forall k :: 0 <= k < i ==> !ShortOfStock(db.items, lines[k])
      invariant total == BasketTotal(db.items, lines[..i])
    {
      var product := db.items[lines[i].itemId];
      if lines[i].qty > product.stock {
        return Failure(InsufficientStock(lines[i].itemId));
      }
      assert lines[..i + 1][..i] == lines[..i];
      total := total + LineAmount(product.price, lines[i].qty);
      i := i + 1;
    }
    assert lines[..i] == lines;
    return Success(total);
  }

  /** holdSale's first loop: the basket's total at current prices, with no stock test. */
  method PriceBasket(db: Store, lines: seq<LineRequest>) returns (total: real)
    requires InCatalog(db.items, lines)
    ensures total == BasketTotal(db.items, lines)
  {
    total := 0.0;
    var i := 0;
    while i < |lines|
      invariant 0 <= i <= |lines|
      invariant total == BasketTotal(db.items, lines[..i])
    {
      assert lines[..i + 1][..i] == lines[..i];
      total := total + LineAmount(db.items[lines[i].itemId].price, lines[i].qty);
      i := i + 1;
    }
    assert lines[..i] == lines;
  }

  /**
   * createSale. Validation (a non-empty basket of quantities of at least 1)
   * comes first; then every line's stock is checked before anything is
   * written; then at most one gift card is redeemed; the header is created
   * with payment type 'cash' (the request's payment_type is not among the
   * validated fields) and no status or held_by; each line stores the
   * current price; each line's quantity comes off its item's stock.
   * No amount paid or change is computed.
   */
  method CreateSale(db: Store, customerId: Option<nat>, lines: seq<LineRequest>, giftCardId: Option<nat>)
    returns (r: Result<nat>)
    requires db.Valid()
    requires customerId.Some? ==> customerId.value in db.customers
    requires InCatalog(db.items, lines)
    requires giftCardId.Some? ==> giftCardId.value in db.giftCards
    modifies db`items, db`giftCards, db`sales, db`nextSaleId
    ensures db.Valid()
    ensures r.Failure? ==> unchanged(db)
    ensures !ValidBasket(lines) ==> r == Failure(Invalid)
    ensures ValidBasket(lines) && !InStock(old(db.items), lines) ==>
      r.Failure? && r.error.InsufficientStock? &&
      exists j :: 0 <= j < |lines| && r.error.itemId == lines[j].itemId && ShortOfStock(old(db.items), lines[j]) &&
        forall k :: 0 <= k < j ==> !ShortOfStock(old(db.items), lines[k])
    ensures r.Success? <==>
      && ValidBasket(lines)
      && InStock(old(db.items), lines)
      && Redeem(old(db.giftCards), CardToApply(giftCardId), BasketTotal(old(db.items), lines)).Success?
    ensures r.Success? ==>
      var total := BasketTotal(old(db.items), lines);
      var card := Redeem(old(db.giftCards), CardToApply(giftCardId), total).value;
      && r.value == old(db.nextSaleId) && r.value !in old(db.sales)
      && db.items == Debit(old(db.items), lines)
      && db.giftCards == card.giftCards
      && db.sales == old(db.sales)[r.value := Sale(customerId, total, card.discount, total - card.discount,
                                                   Some("cash"), None, None, Snapshot(old(db.items), lines))]
      && db.nextSaleId == r.value + 1
    ensures r.Success? ==>
      var s := db.sales[r.value];
      && 0.0 <= s.discount <= s.totalAmount && 0.0 <= s.netAmount <= s.totalAmount
      && (CardToApply(giftCardId).Some? ==> db.giftCards[giftCardId.value].balance.value >= 0.0)
  {
    if !ValidBasket(lines) {
      return Failure(Invalid);
    }
    var priced := CheckAndPrice(db, lines);
    if priced.Failure? {
      return Failure(priced.error);
    }
    var total := priced.value;
    var card := Redeem(db.giftCards, CardToApply(giftCardId), total);
    if card.Failure? {
      return Failure(card.error);
    }
    BasketTotalAtLeastZero(db.items, lines);
    RedeemKeepsFunds(db.giftCards, CardToApply(giftCardId), total);
    var id := RecordSale(db, customerId, lines, total, card.value);
    return Success(id);
  }

  /**
   * createSale after its stock test: redeem the gift card, write the
   * header, then the lines and the stock decrements.
   */
  method RecordSale(db: Store, customerId: Option<nat>, lines: seq<LineRequest>, total: real, card: Redemption)
    returns (id: nat)
    requires db.Valid()
    requires InCatalog(db.items, lines)
    requires card.giftCards.Keys == db.giftCards.Keys
    requires Funded(card.giftCards) && 0.0 <= card.discount <= total
    modifies db`items, db`giftCards, db`sales, db`nextSaleId
    ensures db.Valid()
    ensures id == old(db.nextSaleId) && id !in old(db.sales)
    ensures db.items == Debit(old(db.items), lines)
    ensures db.giftCards == card.giftCards
    ensures db.sales == old(db.sales)[id := Sale(customerId, total, card.discount, total - card.discount,
                                                 Some("cash"), None, None, Snapshot(old(db.items), lines))]
    ensures db.nextSaleId == id + 1
  {
    var header := Sale(customerId, total, card.discount, total - card.discount, Some("cash"), None, None, []);
    id := OpenSale(db, header, card.giftCards);
    assert db.items == old(db.items) && db.sales[id] == header;
    WriteLinesAndDebit(db, id, lines);
    DebitKeepsPrices(old(db.items), lines);
    UpdateTwice(old(db.sales), id, header, header.(lines := Snapshot(old(db.items), lines)));
  }

  /** Writing a key twice leaves the second value. */
  lemma UpdateTwice(m: map<nat, Sale>, k: nat, a: Sale, b: Sale)
    ensures m[k := a][k := b] == m[k := b]
  {
  }

  /** createSale's header write: the redeemed gift cards, then a new sale under the next id. */
  method OpenSale(db: Store, header: Sale, giftCards: map<nat, GiftCard>) returns (id: nat)
    requires db.Valid()
    requires giftCards.Keys == db.giftCards.Keys
    requires Funded(giftCards) && SettledSale(header)
    modifies db`giftCards, db`sales, db`nextSaleId
    ensures db.Valid()
    ensures id == old(db.nextSaleId) && id !in old(db.sales)
    ensures db.giftCards == giftCards
    ensures db.sales == old(db.sales)[id := header]
    ensures db.nextSaleId == id + 1
  {
    db.giftCards := giftCards;
    id := db.nextSaleId;
    db.sales := db.sales[id := header];
    db.nextSaleId := id + 1;
  }

  /**
   * createSale's second loop: for each line, store a sale line with the
   * item's current price on sale `id`, then take the line's quantity off
   * the item's stock (no check here: the first loop did that).
   */
  method WriteLinesAndDebit(db: Store, id: nat, lines: seq<LineRequest>)
    requires id in db.sales && db.sales[id].lines == []
    requires InCatalog(db.items, lines)
    modifies db`items, db`sales
    ensures db.items == Debit(old(db.items), lines)
    ensures db.sales == old(db.sales)[id := old(db.sales)[id].(lines := Snapshot(old(db.items), lines))]
    ensures db.items.Keys == old(db.items).Keys && db.sales.Keys == old(db.sales).Keys
  {
    var i := 0;
    while i < |lines|
      invariant 0 <= i <= |lines|
      invariant db.items == Debit(old(db.items), lines[..i])
      invariant db.sales == old(db.sales)[id := old(db.sales)[id].(lines := Snapshot(old(db.items), lines[..i]))]
    {
      var l := lines[i];
      var product := db.items[l.itemId];
      DebitStep(old(db.items), lines, i);
      DebitAt(old(db.items), lines[..i], l.itemId);
      SnapshotStep(old(db.items), lines, i);
      var s := db.sales[id];
      db.sales := db.sales[id := s.(lines := s.lines + [SaleLine(l.itemId, l.qty, product.price,
                                                                  LineAmount(product.price, l.qty))])];
      db.items := db.items[l.itemId := product.(stock := product.stock - l.qty)];
      i := i + 1;
    }
    assert lines[..i] == lines;
  }

  /**
   * holdSale: the basket is priced at current prices with no stock test,
   * and a 'held' header (discount 0, net amount equal to the total, no
   * payment type, held by the caller) is created with price-snapshot
   * lines. Neither stock nor gift cards change.
   */
  method HoldSale(db: Store, customerId: Option<nat>, lines: seq<LineRequest>, userId: nat)
    returns (r: Result<nat>)
    requires db.Valid()
    requires customerId.Some? ==> customerId.value in db.customers
    requires InCatalog(db.items, lines)
    modifies db`sales, db`nextSaleId
    ensures db.Valid()
    ensures r.Failure? <==> !ValidBasket(lines)
    ensures r.Failure? ==> r.error == Invalid && unchanged(db)
    ensures r.Success? ==>
      var total := BasketTotal(db.items, lines);
      && r.value == old(db.nextSaleId) && r.value !in old(db.sales)
      && db.sales == old(db.sales)[r.value := Sale(customerId, total, 0.0, total, None, Some(Held),
                                                   Some(userId), Snapshot(db.items, lines))]
      && db.nextSaleId == r.value + 1
  {
    if !ValidBasket(lines) {
      return Failure(Invalid);
    }
    var total := PriceBasket(db, lines);
    BasketTotalAtLeastZero(db.items, lines);
    var id := db.nextSaleId;
    db.sales := db.sales[id := Sale(customerId, total, 0.0, total, None, Some(Held), Some(userId), [])];
    db.nextSaleId := id + 1;
    WriteLines(db, id, lines);
    return Success(id);
  }

  /** holdSale's second loop: one price-snapshot line per basket line on sale `id`. */
  method WriteLines(db: Store, id: nat, lines: seq<LineRequest>)
    requires id in db.sales && db.sales[id].lines == []
    requires InCatalog(db.items, lines)
    modifies db`sales
    ensures db.sales == old(db.sales)[id := old(db.sales)[id].(lines := Snapshot(db.items, lines))]
  {
    var i := 0;
    while i < |lines|
      invariant 0 <= i <= |lines|
      invariant db.sales == old(db.sales)[id := old(db.sales)[id].(lines := Snapshot(db.items, lines[..i]))]
    {
      var l := lines[i];
      var product := db.items[l.itemId];
      SnapshotStep(db.items, lines, i);
      var s := db.sales[id];
      db.sales := db.sales[id := s.(lines := s.lines + [SaleLine(l.itemId, l.qty, product.price,
                                                                  LineAmount(product.price, l.qty))])];
      i := i + 1;
    }
    assert lines[..i] == lines;
  }

  /** completeHeldSale's lookup: only a sale whose status is 'held' is found. */
  predicate IsHeld(sales: map<nat, Sale>, id: nat) {
    id in sales && sales[id].status == Some(Held)
  }

  /**
   * completeHeldSale. Only a held sale is found. Inside the transaction the
   * gift card (if any) is redeemed against the stored total, the header
   * gets discount, net amount, payment type (default 'cash') and status
   * 'completed' without re-pricing, and then each line is checked against
   * the stock left by the earlier lines and decremented. Any failure rolls
   * everything back.
   */
  method CompleteHeldSale(db: Store, id: nat, giftCardId: Option<nat>, paymentType: Option<string>)
    returns (r: Result<()>)
    requires db.Valid()
    modifies db`items, db`giftCards, db`sales
    ensures db.Valid()
    ensures r.Failure? ==> unchanged(db)
    ensures !IsHeld(old(db.sales), id) ==> r == Failure(NotFound)
    ensures IsHeld(old(db.sales), id) ==>
      var s := old(db.sales)[id];
      var card := Redeem(old(db.giftCards), giftCardId, s.totalAmount);
      var stock := SettleHeld(old(db.items), Requested(s.lines));
      && (card.Failure? ==> r == Failure(card.error))
      && (card.Success? && stock.Failure? ==> r == Failure(stock.error))
      && (r.Success? <==> card.Success? && stock.Success?)
    ensures r.Success? ==>
      var s := old(db.sales)[id];
      var card := Redeem(old(db.giftCards), giftCardId, s.totalAmount).value;
      && IsHeld(old(db.sales), id)
      && db.items == SettleHeld(old(db.items), Requested(s.lines)).value
      && db.giftCards == card.giftCards
      && db.sales == old(db.sales)[id := s.(discount := card.discount,
                                            netAmount := s.totalAmount - card.discount,
                                            paymentType := Some(paymentType.GetOr("cash")),
                                            status := Some(SaleStatus.Completed))]
    ensures r.Success? ==>
      var s := db.sales[id];
      && 0.0 <= s.discount <= s.totalAmount && 0.0 <= s.netAmount <= s.totalAmount
      && (giftCardId.Some? ==> db.giftCards[giftCardId.value].balance.value >= 0.0)
  {
    if !IsHeld(db.sales, id) {
      return Failure(NotFound);
    }
    var sale := db.sales[id];
    var card := Redeem(db.giftCards, giftCardId, sale.totalAmount);
    if card.Failure? {
      return Failure(card.error);
    }
    RedeemKeepsFunds(db.giftCards, giftCardId, sale.totalAmount);
    r := SettleInTransaction(db, id, card.value, Some(paymentType.GetOr("cash")));
  }

  /**
   * completeHeldSale's transaction after the gift-card lookup: the header
   * write, then the stock pass over the sale's lines; a failing stock pass
   * rolls back the header and the gift cards too.
   */
  method SettleInTransaction(db: Store, id: nat, card: Redemption, paymentType: Option<string>)
    returns (r: Result<()>)
    requires db.Valid()
    requires id in db.sales && 0.0 <= card.discount <= db.sales[id].totalAmount
    requires card.giftCards.Keys == db.giftCards.Keys && Funded(card.giftCards)
    modifies db`items, db`giftCards, db`sales
    ensures db.Valid()
    ensures r.Failure? ==> unchanged(db)
    ensures var stock := SettleHeld(old(db.items), Requested(old(db.sales)[id].lines));
      && (r.Success? <==> stock.Success?)
      && (r.Failure? ==> r == Failure(stock.error))
      && (r.Success? ==>
            && db.items == stock.value
            && db.giftCards == card.giftCards
            && db.sales == old(db.sales)[id := old(db.sales)[id].(discount := card.discount,
                                                                  netAmount := old(db.sales)[id].totalAmount - card.discount,
                                                                  paymentType := paymentType,
                                                                  status := Some(SaleStatus.Completed))])
  {
    var items0, giftCards0, sales0 := db.items, db.giftCards, db.sales;
    var lines := Requested(db.sales[id].lines);
    CloseSale(db, id, card, paymentType);
    var stock := SettleStock(db, lines);
    if stock.Failure? {
      db.items, db.giftCards, db.sales := items0, giftCards0, sales0;  // rollback
      return Failure(stock.error);
    }
    return Success(());
  }

  /**
   * completeHeldSale's header write: the redeemed gift cards, then the
   * discount, net amount, payment type and status 'completed' on the sale.
   */
  method CloseSale(db: Store, id: nat, card: Redemption, paymentType: Option<string>)
    requires db.Valid()
    requires id in db.sales && 0.0 <= card.discount <= db.sales[id].totalAmount
    requires card.giftCards.Keys == db.giftCards.Keys && Funded(card.giftCards)
    modifies db`giftCards, db`sales
    ensures db.Valid()
    ensures db.giftCards == card.giftCards
    ensures db.sales == old(db.sales)[id := old(db.sales)[id].(discount := card.discount,
                                                               netAmount := old(db.sales)[id].totalAmount - card.discount,
                                                               paymentType := paymentType,
                                                               status := Some(SaleStatus.Completed))]
  {
    db.giftCards := card.giftCards;
    var s := db.sales[id];
    db.sales := db.sales[id := s.(discount := card.discount, netAmount := s.totalAmount - card.discount,
                                  paymentType := paymentType, status := Some(SaleStatus.Completed))];
  }

  /**
   * completeHeldSale's loop over the sale's lines: each line is checked
   * against the stock the earlier lines left and then decremented; the
   * first missing item or short line stops it (the caller rolls back).
   */
  method SettleStock(db: Store, lines: seq<LineRequest>) returns (r: Result<()>)
    requires Priced(db.items)
    modifies db`items
    ensures r.Success? ==> Priced(db.items)
    ensures r.Success? <==> SettleHeld(old(db.items), lines).Success?
    ensures r.Success? ==> db.items == SettleHeld(old(db.items), lines).value && db.items.Keys == old(db.items).Keys
    ensures r.Failure? ==> r.error == SettleHeld(old(db.items), lines).error
  {
    var i := 0;
    while i < |lines|
      invariant 0 <= i <= |lines|
      invariant SettleHeld(old(db.items), lines[..i]) == Success(db.items)
      invariant db.items.Keys == old(db.items).Keys
    {
      var l := lines[i];
      assert lines[..i + 1][..i] == lines[..i];
      if l.itemId !in db.items {
        SettleHeldFailureSticks(old(db.items), lines, i + 1);
        return Failure(NotFound);
      }
      var product := db.items[l.itemId];
      if l.qty > product.stock {
        SettleHeldFailureSticks(old(db.items), lines, i + 1);
        return Failure(InsufficientStock(l.itemId));
      }
      db.items := db.items[l.itemId := product.(stock := product.stock - l.qty)];
      i := i + 1;
    }
    assert lines[..i] == lines;
    SettleHeldIsDebit(old(db.items), lines);
    DebitKeepsPrices(old(db.items), lines);
    return Success(());
  }

  /** A basket of positive quantities at prices of 0 or more costs 0 or more. */
  lemma BasketTotalAtLeastZero(items: map<nat, Item>, lines: seq<LineRequest>)
    requires InCatalog(items, lines) && ValidBasket(lines) && Priced(items)
    ensures BasketTotal(items, lines) >= 0.0
  {
    forall i | 0 <= i < |lines|
      ensures items[lines[i].itemId].price >= 0.0 && lines[i].qty >= 0
    {
      assert PricedItem(items[lines[i].itemId]);
    }
    BasketTotalNonNegative(items, lines);
  }

  /** Selling only takes stock: every item keeps its cost and price. */
  lemma DebitKeepsPrices(items: map<nat, Item>, lines: seq<LineRequest>)
    requires InCatalog(items, lines) && Priced(items)
    ensures Priced(Debit(items, lines))
  {
    forall k | k in Debit(items, lines)
      ensures PricedItem(Debit(items, lines)[k])
    {
      DebitAt(items, lines, k);
    }
  }

  /**
   * Redeeming a card against a total of 0 or more gives a discount between
   * 0 and the total and leaves every balance at 0 or more.
   */
  lemma RedeemKeepsFunds(giftCards: map<nat, GiftCard>, card: Option<nat>, total: real)
    requires Funded(giftCards) && total >= 0.0
    requires Redeem(giftCards, card, total).Success?
    ensures 0.0 <= Redeem(giftCards, card, total).value.discount <= total
    ensures Funded(Redeem(giftCards, card, total).value.giftCards)
  {
    if card.Some? {
      var g := giftCards[card.value];
      assert FundedCard(g);
      var d := ApplyGiftCard(BalanceOf(g), total);
      assert FundedCard(g.(balance := Some(d.balance), isActive := d.isActive));
    }
  }
}
