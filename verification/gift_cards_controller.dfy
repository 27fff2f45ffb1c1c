/**
 * GiftCardsController: gift-card creation with its generated number,
 * lookup and update that fail on a missing card, and the one-way archive
 * flag. The current year is a parameter (`year`).
 */
module GiftCardsController {
  import opened Common
  import opened Records
  import opened Database
  import opened Text

  /** 'GC', the card type id zero-padded to at least three digits, '-', then the year. */
  function GiftCardNumber(cardId: nat, year: string): string {
    "GC" + PadLeft(Digits(cardId), 3, '0') + "-" + year
  }

  /** In digits, then '-', then anything, the first '-' comes right after the digits. */
  lemma DashAfterDigits(p: string, y: string)
    requires AllDigits(p)
    ensures (p + "-" + y)[|p|] == '-'
    ensures forall i :: 0 <= i < |p| ==> (p + "-" + y)[i] != '-'
  {
    assert forall i :: 0 <= i < |p| ==> (p + "-" + y)[i] == p[i];
  }

  /** Digits, '-', rest: the digits and the rest can be read back. */
  lemma SplitAtDash(p: string, y: string, q: string, z: string)
    requires AllDigits(p) && AllDigits(q)
    requires p + "-" + y == q + "-" + z
    ensures p == q && y == z
  {
    var s := p + "-" + y;
    DashAfterDigits(p, y);
    DashAfterDigits(q, z);
    assert |p| == |q|;
    assert p == s[..|p|] && q == s[..|q|];
    assert y == s[|p| + 1..] && z == s[|q| + 1..];
  }

  /** The same, behind a common prefix. */
  lemma SplitAfterPrefix(pre: string, p: string, y: string, q: string, z: string)
    requires AllDigits(p) && AllDigits(q)
    requires pre + p + "-" + y == pre + q + "-" + z
    ensures p == q && y == z
  {
    var s := pre + p + "-" + y;
    assert s[|pre|..] == p + "-" + y;
    assert (pre + q + "-" + z)[|pre|..] == q + "-" + z;
    SplitAtDash(p, y, q, z);
  }

  /**
   * The number is made from the card type and the year alone: two gift
   * cards get the same number exactly when both were made from the same
   * card type in the same year.
   */
  lemma GiftCardNumberDeterminedByTypeAndYear(a: nat, y: string, b: nat, z: string)
    ensures GiftCardNumber(a, y) == GiftCardNumber(b, z) <==> a == b && y == z
  {
    if GiftCardNumber(a, y) == GiftCardNumber(b, z) {
      var p := PadLeft(Digits(a), 3, '0');
      var q := PadLeft(Digits(b), 3, '0');
      PaddedDigits(a, 3);
      PaddedDigits(b, 3);
      SplitAfterPrefix("GC", p, y, q, z);
    }
  }

  /** createGiftCard's and updateGiftCard's validated request; None is a nullable field left out. */
  datatype CardRequest = CardRequest(
    cardId: nat,
    name: string,
    value: real,
    balance: Option<real>,
    expiration: Option<string>,
    customerId: nat,
    isActive: bool)

  /** value >= 0, and balance >= 0 when given. */
  predicate ValidRequest(g: CardRequest) {
    g.value >= 0.0 && (g.balance.Some? ==> g.balance.value >= 0.0)
  }

  /** No other stored gift card has this name (the unique rule). */
  predicate NameFree(giftCards: map<nat, GiftCard>, name: string, except: Option<nat>) {
    forall k :: k in giftCards && Some(k) != except ==> giftCards[k].name != name
  }

  /**
   * createGiftCard: a negative value or balance is rejected and nothing
   * changes; otherwise the card is stored under the next id with its
   * generated number and not archived.
   */
  method CreateGiftCard(db: Store, g: CardRequest, year: string) returns (r: Result<nat>)
    requires db.Valid()
    requires g.customerId in db.customers
    requires NameFree(db.giftCards, g.name, None)
    modifies db`giftCards, db`nextGiftCardId
    ensures db.Valid()
    ensures r.Failure? ==> r == Failure(Invalid) && unchanged(db)
    ensures r.Success? <==> ValidRequest(g)
    ensures r.Success? ==>
      && r.value == old(db.nextGiftCardId) && r.value !in old(db.giftCards)
      && db.giftCards == old(db.giftCards)[r.value := GiftCard(g.cardId, GiftCardNumber(g.cardId, year), g.name, g.value,
                                                               g.balance, g.expiration, g.customerId, g.isActive, false)]
      && db.nextGiftCardId == r.value + 1
  {
    if !ValidRequest(g) {
      return Failure(Invalid);
    }
    var id := db.nextGiftCardId;
    db.giftCards := db.giftCards[id := GiftCard(g.cardId, GiftCardNumber(g.cardId, year), g.name, g.value, g.balance,
                                                g.expiration, g.customerId, g.isActive, false)];
    db.nextGiftCardId := id + 1;
    return Success(id);
  }

  /** getGiftCardById: any stored card, archived or not, or not found. */
  function GetGiftCardById(giftCards: map<nat, GiftCard>, id: nat): (r: Result<GiftCard>)
    ensures r.Success? <==> id in giftCards
    ensures r.Failure? ==> r.error == NotFound
    ensures r.Success? ==> r.value == giftCards[id]
  {
    if id in giftCards then Success(giftCards[id]) else Failure(NotFound)
  }

  /**
   * The stored card after an update: every required field replaced, the
   * nullable ones only when given; the number and the archive flag stay.
   */
  function Apply(c: GiftCard, g: CardRequest): (r: GiftCard)
    ensures r.number == c.number && r.isArchived == c.isArchived
    ensures FundedCard(c) && ValidRequest(g) ==> FundedCard(r)
  {
    c.(cardId := g.cardId, name := g.name, value := g.value,
       balance := if g.balance.Some? then g.balance else c.balance,
       expiration := if g.expiration.Some? then g.expiration else c.expiration,
       customerId := g.customerId, isActive := g.isActive)
  }

  /**
   * An update keeps the number the card was created with, even when it
   * moves the card to another card type, so a card's number need not
   * match its card type after an update.
   */
  lemma UpdateKeepsNumber(cardId: nat, year: string, c: GiftCard, g: CardRequest)
    requires c.number == GiftCardNumber(cardId, year)
    ensures Apply(c, g).number == GiftCardNumber(cardId, year)
    ensures g.cardId != cardId ==> Apply(c, g).number != GiftCardNumber(g.cardId, year)
    ensures Apply(c, g).isArchived == c.isArchived
  {
    if g.cardId != cardId {
      GiftCardNumberDeterminedByTypeAndYear(cardId, year, g.cardId, year);
    }
  }

  /**
   * updateGiftCard: a missing card is not found and a negative value or
   * balance is rejected, both changing nothing; otherwise only that card
   * changes, as Apply says.
   */
  method UpdateGiftCard(db: Store, id: nat, g: CardRequest) returns (r: Result<()>)
    requires db.Valid()
    requires g.customerId in db.customers
    requires NameFree(db.giftCards, g.name, Some(id))
    modifies db`giftCards
    ensures db.Valid()
    ensures r.Failure? ==> unchanged(db)
    ensures id !in old(db.giftCards) ==> r == Failure(NotFound)
    ensures id in old(db.giftCards) && !ValidRequest(g) ==> r == Failure(Invalid)
    ensures r.Success? <==> id in old(db.giftCards) && ValidRequest(g)
    ensures r.Success? ==> db.giftCards == old(db.giftCards)[id := Apply(old(db.giftCards)[id], g)]
  {
    if id !in db.giftCards {
      return Failure(NotFound);
    }
    if !ValidRequest(g) {
      return Failure(Invalid);
    }
    db.giftCards := db.giftCards[id := Apply(db.giftCards[id], g)];
    return Success(());
  }

  /**
   * archiveGiftCard: a missing or already archived card is not found and
   * nothing changes; otherwise only its archive flag is set (its active
   * flag stays, so an archived card can still be redeemed at a sale).
   */
  method ArchiveGiftCard(db: Store, id: nat) returns (r: Result<()>)
    requires db.Valid()
    modifies db`giftCards
    ensures db.Valid()
    ensures r.Failure? ==> r == Failure(NotFound) && unchanged(db)
    ensures r.Success? <==> id in old(db.giftCards) && !old(db.giftCards)[id].isArchived
    ensures r.Success? ==> db.giftCards == old(db.giftCards)[id := old(db.giftCards)[id].(isArchived := true)]
  {
    if id !in db.giftCards || db.giftCards[id].isArchived {
      return Failure(NotFound);
    }
    db.giftCards := db.giftCards[id := db.giftCards[id].(isArchived := true)];
    return Success(());
  }
}
