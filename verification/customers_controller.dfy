/**
 * CustomersController: customer creation with its generated customer
 * number, the listing and lookup that hide archived customers, update,
 * and the one-way archive flag.
 */
module CustomersController {
  import opened Common
  import opened Records
  import opened Database
  import opened Text

  /** 'CUST-' followed by the id zero-padded to at least four digits. */
  function CustomerNumber(nextId: nat): string {
    "CUST-" + PadLeft(Digits(nextId), 4, '0')
  }

  /** The digits after the prefix give the id back. */
  lemma CustomerNumberRoundTrip(n: nat)
    ensures |CustomerNumber(n)| >= 9
    ensures CustomerNumber(n)[..5] == "CUST-"
    ensures IntVal(SubstrFrom(CustomerNumber(n), 5)) == n
  {
    var p := PadLeft(Digits(n), 4, '0');
    assert CustomerNumber(n)[5..] == p;
    IntValOfPadded(n, 4);
  }

  /** Different ids give different customer numbers. */
  lemma CustomerNumberInjective(a: nat, b: nat)
    ensures CustomerNumber(a) == CustomerNumber(b) <==> a == b
  {
    if CustomerNumber(a) == CustomerNumber(b) {
      CustomerNumberRoundTrip(a);
      CustomerNumberRoundTrip(b);
    }
  }

  /** The id the number is made from: one past the highest id in use, or 1 for the first customer. */
  function NextNumberId(customers: map<nat, Customer>, bound: nat): (n: nat)
    requires Below(customers.Keys, bound)
    ensures n >= 1 && forall k :: k in customers ==> k < n
    ensures (exists k :: k in customers && k + 1 == n) || (customers == map[] && n == 1)
  {
    match LastId(customers.Keys, bound)
    case None => 1
    case Some(m) => m + 1
  }

  /** createCustomer's validated request; the optional contact fields are a field map. */
  datatype NewCustomer = NewCustomer(firstName: string, lastName: string, email: string, details: map<string, string>)

  /** No stored customer has this email (the unique rule). */
  predicate EmailFree(customers: map<nat, Customer>, email: string, except: Option<nat>) {
    forall k :: k in customers && Some(k) != except ==> customers[k].email != email
  }

  /**
   * createCustomer: the customer is stored under the next row id, not
   * archived, with the number made from one past the highest id in use
   * (archived customers included).
   */
  method CreateCustomer(db: Store, c: NewCustomer) returns (id: nat)
    requires db.Valid()
    requires EmailFree(db.customers, c.email, None)
    modifies db`customers, db`nextCustomerId
    ensures db.Valid()
    ensures id == old(db.nextCustomerId) && id !in old(db.customers)
    ensures db.customers == old(db.customers)[id := Customer(CustomerNumber(NextNumberId(old(db.customers), id)),
                                                             c.firstName, c.lastName, c.email, c.details, false)]
    ensures db.nextCustomerId == id + 1
  {
    id := db.nextCustomerId;
    var nextId := NextNumberId(db.customers, db.nextCustomerId);
    db.customers := db.customers[id := Customer(CustomerNumber(nextId), c.firstName, c.lastName, c.email, c.details, false)];
    db.nextCustomerId := id + 1;
  }

  /** getCustomers: every customer not archived (pagination aside). */
  function ListCustomers(customers: map<nat, Customer>): (r: map<nat, Customer>)
    ensures forall k :: k in r <==> k in customers && !customers[k].isArchived
    ensures forall k :: k in r ==> r[k] == customers[k]
  {
    map k | k in customers && !customers[k].isArchived :: customers[k]
  }

  /** getCustomerById: an archived customer is not found, like a missing one. */
  function GetCustomerById(customers: map<nat, Customer>, id: nat): (r: Result<Customer>)
    ensures r.Success? <==> id in customers && !customers[id].isArchived
    ensures r.Failure? ==> r.error == NotFound
    ensures r.Success? ==> r.value == customers[id] && id in ListCustomers(customers)
  {
    if id in customers && !customers[id].isArchived then Success(customers[id]) else Failure(NotFound)
  }

  /** updateCustomer's validated request: None is a field left out; the given contact fields replace the stored ones. */
  datatype CustomerChanges = CustomerChanges(
    firstName: Option<string>,
    lastName: Option<string>,
    email: Option<string>,
    details: map<string, string>)

  /**
   * The stored customer after an update: the given names and email replace
   * the stored ones, the given contact fields win over the stored ones and
   * the rest are kept; the customer number and the archive flag never change.
   */
  function Apply(c: Customer, ch: CustomerChanges): (r: Customer)
    ensures r.number == c.number && r.isArchived == c.isArchived
    ensures r.details.Keys == c.details.Keys + ch.details.Keys
    ensures forall f :: f in c.details && f !in ch.details ==> r.details[f] == c.details[f]
    ensures forall f :: f in ch.details ==> r.details[f] == ch.details[f]
  {
    c.(firstName := ch.firstName.GetOr(c.firstName), lastName := ch.lastName.GetOr(c.lastName),
       email := ch.email.GetOr(c.email), details := c.details + ch.details)
  }

  /**
   * updateCustomer: a missing or archived customer is not found and
   * nothing changes; otherwise only that customer changes, as Apply says.
   */
  method UpdateCustomer(db: Store, id: nat, ch: CustomerChanges) returns (r: Result<()>)
    requires db.Valid()
    requires ch.email.Some? ==> EmailFree(db.customers, ch.email.value, Some(id))
    modifies db`customers
    ensures db.Valid()
    ensures r.Failure? ==> r == Failure(NotFound) && unchanged(db)
    ensures r.Success? <==> GetCustomerById(old(db.customers), id).Success?
    ensures r.Success? ==> db.customers == old(db.customers)[id := Apply(old(db.customers)[id], ch)]
  {
    if id !in db.customers || db.customers[id].isArchived {
      return Failure(NotFound);
    }
    db.customers := db.customers[id := Apply(db.customers[id], ch)];
    return Success(());
  }

  /**
   * archiveCustomer: a missing or already archived customer is not found
   * and nothing changes; otherwise only its archive flag is set.
   */
  method ArchiveCustomer(db: Store, id: nat) returns (r: Result<()>)
    requires db.Valid()
    modifies db`customers
    ensures db.Valid()
    ensures r.Failure? ==> r == Failure(NotFound) && unchanged(db)
    ensures r.Success? <==> id in old(db.customers) && !old(db.customers)[id].isArchived
    ensures r.Success? ==> db.customers == old(db.customers)[id := old(db.customers)[id].(isArchived := true)]
  {
    if id !in db.customers || db.customers[id].isArchived {
      return Failure(NotFound);
    }
    db.customers := db.customers[id := db.customers[id].(isArchived := true)];
    return Success(());
  }

  /**
   * Archiving is one-way and hides the customer: afterwards it is gone
   * from the listing, lookups fail, and a second archive fails; no other
   * customer's visibility changes.
   */
  lemma ArchivedCustomerIsHidden(customers: map<nat, Customer>, id: nat)
    requires id in customers
    ensures var after := customers[id := customers[id].(isArchived := true)];
      && GetCustomerById(after, id) == Failure(NotFound)
      && ListCustomers(after) == ListCustomers(customers) - {id}
  {
    var after := customers[id := customers[id].(isArchived := true)];
    assert ListCustomers(after).Keys == ListCustomers(customers).Keys - {id};
  }
}
