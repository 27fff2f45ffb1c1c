/**
 * The arithmetic of sale settlement, as pure functions over the item and
 * gift-card tables: basket pricing at current prices, the price snapshot
 * stored on each sale line, the two stock checks (per line against the
 * stock read before any write, and line by line against the stock already
 * decremented), the stock decrement, and the gift-card discount step.
 */
module SaleSettlement {
  import opened Common
  import opened Records

  /** One requested basket line (`items.*.id`, `items.*.qty`). */
  datatype LineRequest = LineRequest(itemId: nat, qty: int)

  /** Every requested item exists (the `exists:items,id` rule). */
  predicate InCatalog(items: map<nat, Item>, lines: seq<LineRequest>) {
    forall i :: 0 <= i < |lines| ==> lines[i].itemId in items
  }

  /** The `items` rules: at least one line, every quantity an integer of at least 1. */
  predicate ValidBasket(lines: seq<LineRequest>) {
    |lines| >= 1 && forall i :: 0 <= i < |lines| ==> lines[i].qty >= 1
  }

  function LineAmount(price: real, qty: int): real {
    price * qty as real
  }

  /** Sum of current price times quantity over the requested lines. */
  function BasketTotal(items: map<nat, Item>, lines: seq<LineRequest>): real
    requires InCatalog(items, lines)
  {
    if lines == [] then 0.0
    else
      var l := lines[|lines| - 1];
      BasketTotal(items, lines[..|lines| - 1]) + LineAmount(items[l.itemId].price, l.qty)
  }

  /** With prices that are not negative and positive quantities, a basket never costs less than nothing. */
  lemma {:induction false} BasketTotalNonNegative(items: map<nat, Item>, lines: seq<LineRequest>)
    requires InCatalog(items, lines)
    requires forall i :: 0 <= i < |lines| ==> items[lines[i].itemId].price >= 0.0 && lines[i].qty >= 0
    ensures BasketTotal(items, lines) >= 0.0
  {
    if lines != [] {
      var l := lines[|lines| - 1];
      BasketTotalNonNegative(items, lines[..|lines| - 1]);
      assert items[l.itemId].price * l.qty as real >= 0.0;
    }
  }

  /** The stored line: the item's current price and price times quantity. */
  function LineSnapshot(items: map<nat, Item>, l: LineRequest): (s: SaleLine)
    requires l.itemId in items
    ensures s.itemId == l.itemId && s.quantity == l.qty
    ensures s.price == items[l.itemId].price && s.total == s.price * s.quantity as real
  {
    var price := items[l.itemId].price;
    SaleLine(l.itemId, l.qty, price, LineAmount(price, l.qty))
  }

  /** The sale lines created for a basket, in request order. */
  function Snapshot(items: map<nat, Item>, lines: seq<LineRequest>): (r: seq<SaleLine>)
    requires InCatalog(items, lines)
    ensures |r| == |lines|
    ensures forall i :: 0 <= i < |lines| ==> r[i] == LineSnapshot(items, lines[i])
  {
    if lines == [] then []
    else Snapshot(items, lines[..|lines| - 1]) + [LineSnapshot(items, lines[|lines| - 1])]
  }

  /** Sum of the stored line totals of a sale. */
  function LinesTotal(lines: seq<SaleLine>): real {
    if lines == [] then 0.0 else LinesTotal(lines[..|lines| - 1]) + lines[|lines| - 1].total
  }

  /** The header's total_amount is the sum of the totals stored on its lines. */
  lemma {:induction false} SnapshotTotal(items: map<nat, Item>, lines: seq<LineRequest>)
    requires InCatalog(items, lines)
    ensures LinesTotal(Snapshot(items, lines)) == BasketTotal(items, lines)
  {
    if lines != [] {
      var s := Snapshot(items, lines);
      assert s[..|s| - 1] == Snapshot(items, lines[..|lines| - 1]);
      SnapshotTotal(items, lines[..|lines| - 1]);
    }
  }

  /** The request lines a stored sale was built from. */
  function Requested(lines: seq<SaleLine>): (r: seq<LineRequest>)
    ensures |r| == |lines|
    ensures forall i :: 0 <= i < |lines| ==> r[i] == LineRequest(lines[i].itemId, lines[i].quantity)
  {
    seq(|lines|, i requires 0 <= i < |lines| => LineRequest(lines[i].itemId, lines[i].quantity))
  }

  /** Reading a snapshot back gives the basket it was taken from. */
  lemma RequestedSnapshot(items: map<nat, Item>, lines: seq<LineRequest>)
    requires InCatalog(items, lines)
    ensures Requested(Snapshot(items, lines)) == lines
  {
  }

  /** Total quantity the lines ask of item `id`. */
  function QtyFor(lines: seq<LineRequest>, id: nat): int {
    if lines == [] then 0
    else
      var l := lines[|lines| - 1];
      QtyFor(lines[..|lines| - 1], id) + (if l.itemId == id then l.qty else 0)
  }

  /** createSale's stock test: this one line asks more than the item's stock. */
  predicate ShortOfStock(items: map<nat, Item>, l: LineRequest)
    requires l.itemId in items
  {
    l.qty > items[l.itemId].stock
  }

  /** Every line passes createSale's stock test on its own. */
  predicate InStock(items: map<nat, Item>, lines: seq<LineRequest>)
    requires InCatalog(items, lines)
  {
    forall i :: 0 <= i < |lines| ==> !ShortOfStock(items, lines[i])
  }

  /** Decrementing the stock line after line, without any check. */
  function Debit(items: map<nat, Item>, lines: seq<LineRequest>): (m: map<nat, Item>)
    requires InCatalog(items, lines)
    ensures m.Keys == items.Keys
  {
    if lines == [] then items
    else
      var m := Debit(items, lines[..|lines| - 1]);
      var l := lines[|lines| - 1];
      m[l.itemId := m[l.itemId].(stock := m[l.itemId].stock - l.qty)]
  }

  /** After Debit each item has lost the total quantity its lines ask for, and nothing else about it changed. */
  lemma {:induction false} DebitAt(items: map<nat, Item>, lines: seq<LineRequest>, k: nat)
    requires InCatalog(items, lines) && k in items
    ensures Debit(items, lines)[k] == items[k].(stock := items[k].stock - QtyFor(lines, k))
  {
    if lines != [] {
      DebitAt(items, lines[..|lines| - 1], k);
    }
  }

  /** One more line of the decrement loop. */
  lemma DebitStep(items: map<nat, Item>, lines: seq<LineRequest>, i: nat)
    requires i < |lines| && InCatalog(items, lines)
    ensures InCatalog(items, lines[..i]) && InCatalog(items, lines[..i + 1])
    ensures var m, l := Debit(items, lines[..i]), lines[i];
      Debit(items, lines[..i + 1]) == m[l.itemId := m[l.itemId].(stock := m[l.itemId].stock - l.qty)]
  {
    assert lines[..i + 1][..i] == lines[..i];
  }

  /** One more line of the line-creating loop. */
  lemma SnapshotStep(items: map<nat, Item>, lines: seq<LineRequest>, i: nat)
    requires i < |lines| && InCatalog(items, lines)
    ensures InCatalog(items, lines[..i]) && InCatalog(items, lines[..i + 1])
    ensures Snapshot(items, lines[..i + 1]) == Snapshot(items, lines[..i]) + [LineSnapshot(items, lines[i])]
  {
    assert lines[..i + 1][..i] == lines[..i];
  }

  /**
   * completeHeldSale's stock pass: line by line, look the item up (404 when
   * it is gone), fail when the line asks more than the stock left after the
   * earlier lines' decrements, otherwise decrement.
   */
  function SettleHeld(items: map<nat, Item>, lines: seq<LineRequest>): Result<map<nat, Item>> {
    if lines == [] then Success(items)
    else
      match SettleHeld(items, lines[..|lines| - 1])
      case Failure(e) => Failure(e)
      case Success(m) =>
        var l := lines[|lines| - 1];
        if l.itemId !in m then Failure(NotFound)
        else if l.qty > m[l.itemId].stock then Failure(InsufficientStock(l.itemId))
        else Success(m[l.itemId := m[l.itemId].(stock := m[l.itemId].stock - l.qty)])
  }

  /** Once a prefix of the lines fails, the whole pass fails the same way. */
  lemma {:induction false} SettleHeldFailureSticks(items: map<nat, Item>, lines: seq<LineRequest>, n: nat)
    requires n <= |lines|
    requires SettleHeld(items, lines[..n]).Failure?
    ensures SettleHeld(items, lines) == SettleHeld(items, lines[..n])
  {
    if n < |lines| {
      assert lines[..|lines| - 1][..n] == lines[..n];
      SettleHeldFailureSticks(items, lines[..|lines| - 1], n);
    } else {
      assert lines[..n] == lines;
    }
  }

  /** Every requested item exists and its stock covers the total quantity the lines ask of it. */
  predicate Covered(items: map<nat, Item>, lines: seq<LineRequest>) {
    && InCatalog(items, lines)
    && forall i :: 0 <= i < |lines| ==> QtyFor(lines, lines[i].itemId) <= items[lines[i].itemId].stock
  }

  /** A successful line-by-line pass decrements exactly like Debit. */
  lemma {:induction false} SettleHeldIsDebit(items: map<nat, Item>, lines: seq<LineRequest>)
    ensures SettleHeld(items, lines).Success? ==>
      InCatalog(items, lines) && SettleHeld(items, lines).value == Debit(items, lines)
  {
    if lines != [] {
      SettleHeldIsDebit(items, lines[..|lines| - 1]);
    }
  }

  /** Coverage of a basket, one line at a time: positive quantities only ever add up. */
  lemma CoveredSnoc(items: map<nat, Item>, lines: seq<LineRequest>)
    requires lines != []
    requires forall i :: 0 <= i < |lines| ==> lines[i].qty >= 0
    ensures var p, l := lines[..|lines| - 1], lines[|lines| - 1];
      Covered(items, lines) <==>
        Covered(items, p) && l.itemId in items && QtyFor(lines, l.itemId) <= items[l.itemId].stock
  {
    var p, l := lines[..|lines| - 1], lines[|lines| - 1];
    assert forall i :: 0 <= i < |p| ==> p[i] == lines[i];
    QtyForNonNegative(p, l.itemId);
    if Covered(items, p) && l.itemId in items && QtyFor(lines, l.itemId) <= items[l.itemId].stock {
      forall i | 0 <= i < |lines|
        ensures QtyFor(lines, lines[i].itemId) <= items[lines[i].itemId].stock
      {
        if i < |p| && lines[i].itemId != l.itemId {
          assert QtyFor(p, p[i].itemId) <= items[p[i].itemId].stock;
        }
      }
    }
    if Covered(items, lines) {
      forall i | 0 <= i < |p|
        ensures QtyFor(p, p[i].itemId) <= items[p[i].itemId].stock
      {
        assert QtyFor(lines, lines[i].itemId) <= items[lines[i].itemId].stock;
        QtyForNonNegative([l], p[i].itemId);
      }
    }
  }

  /**
   * With quantities that are not negative, the line-by-line pass succeeds
   * exactly when every item's stock covers the total quantity asked of it;
   * then it decrements exactly like Debit and leaves no touched item below zero.
   */
  lemma {:induction false} SettleHeldIsCheckedDebit(items: map<nat, Item>, lines: seq<LineRequest>)
    requires forall i :: 0 <= i < |lines| ==> lines[i].qty >= 0
    ensures SettleHeld(items, lines).Success? <==> Covered(items, lines)
    ensures SettleHeld(items, lines).Success? ==>
      && SettleHeld(items, lines).value == Debit(items, lines)
      && forall i :: 0 <= i < |lines| ==> SettleHeld(items, lines).value[lines[i].itemId].stock >= 0
  {
    SettleHeldIsDebit(items, lines);
    if lines != [] {
      var p, l := lines[..|lines| - 1], lines[|lines| - 1];
      SettleHeldIsCheckedDebit(items, p);
      SettleHeldIsDebit(items, p);
      CoveredSnoc(items, lines);
      if InCatalog(items, p) && l.itemId in items {
        DebitAt(items, p, l.itemId);
      }
    }
  }

  lemma {:induction false} QtyForNonNegative(lines: seq<LineRequest>, id: nat)
    requires forall i :: 0 <= i < |lines| ==> lines[i].qty >= 0
    ensures QtyFor(lines, id) >= 0
  {
    if lines != [] {
      QtyForNonNegative(lines[..|lines| - 1], id);
    }
  }

  /**
   * createSale checks every line on its own against the stock read before
   * any decrement, so two lines for one item can each pass while together
   * they take the stock below zero; completeHeldSale rejects the same lines.
   */
  lemma PerLineCheckOversells(items: map<nat, Item>, id: nat, q: int)
    requires id in items
    requires 1 <= q <= items[id].stock < 2 * q
    ensures var lines := [LineRequest(id, q), LineRequest(id, q)];
      && InStock(items, lines)
      && Debit(items, lines)[id].stock < 0
      && SettleHeld(items, lines) == Failure(InsufficientStock(id))
  {
    var lines := [LineRequest(id, q), LineRequest(id, q)];
    assert lines[..1] == [LineRequest(id, q)];
    assert lines[..1][..0] == [];
    assert QtyFor(lines[..1], id) == q;
    assert QtyFor(lines, id) == 2 * q;
    assert SettleHeld(items, lines[..1]) == Success(Debit(items, lines[..1]));
  }

  /** The outcome of the gift-card step. */
  datatype GiftCardDebit = GiftCardDebit(discount: real, balance: real, isActive: bool)

  function Min(a: real, b: real): real {
    if a < b then a else b
  }

  /**
   * The discount is the smaller of balance and sale total, the balance
   * drops by the discount, and the card is deactivated exactly when its
   * balance does not exceed the total (it is then used up).
   */
  function ApplyGiftCard(balance: real, total: real): (d: GiftCardDebit)
    ensures d.discount == Min(balance, total)
    ensures d.balance == balance - d.discount
    ensures !d.isActive <==> balance <= total
    ensures !d.isActive ==> d.balance == 0.0
    ensures 0.0 <= balance && 0.0 <= total ==>
      0.0 <= d.discount <= total && 0.0 <= d.balance <= balance && 0.0 <= total - d.discount <= total
  {
    var discount := Min(balance, total);
    if balance <= total then GiftCardDebit(discount, 0.0, false)
    else GiftCardDebit(discount, balance - discount, true)
  }

  /** The gift card's balance as the settlement reads it: a NULL balance counts as 0. */
  function BalanceOf(g: GiftCard): real {
    g.balance.GetOr(0.0)
  }

  /** What redeeming a gift card leaves: the sale's discount and the new gift-card table. */
  datatype Redemption = Redemption(discount: real, giftCards: map<nat, GiftCard>)

  /**
   * The gift-card step of both settlement paths: no card means no discount
   * and no change; a card that is absent or inactive fails (firstOrFail);
   * otherwise the card's balance and active flag are updated and nothing
   * else about it (archive flag and expiration are not consulted).
   */
  function Redeem(giftCards: map<nat, GiftCard>, card: Option<nat>, total: real): (r: Result<Redemption>)
    ensures card.None? ==> r == Success(Redemption(0.0, giftCards))
    ensures card.Some? ==> (r.Success? <==> card.value in giftCards && giftCards[card.value].isActive)
    ensures r.Failure? ==> r.error == NotFound
    ensures r.Success? ==> r.value.giftCards.Keys == giftCards.Keys
    ensures r.Success? && card.Some? ==>
      var g := giftCards[card.value];
      var d := ApplyGiftCard(BalanceOf(g), total);
      && r.value.discount == Min(BalanceOf(g), total)
      && r.value.giftCards == giftCards[card.value := g.(balance := Some(d.balance), isActive := d.isActive)]
  {
    match card
    case None => Success(Redemption(0.0, giftCards))
    case Some(id) =>
      if id !in giftCards || !giftCards[id].isActive then Failure(NotFound)
      else
        var g := giftCards[id];
        var d := ApplyGiftCard(BalanceOf(g), total);
        Success(Redemption(d.discount, giftCards[id := g.(balance := Some(d.balance), isActive := d.isActive)]))
  }
}
