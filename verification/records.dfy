/**
 * Record shapes of the tables the core reads and writes (the Eloquent models'
 * fillable fields that the controllers touch). Money is exact (`real`);
 * quantities and stock are integers.
 */
module Records {
  import opened Common

  /** A catalog item (table `items`). */
  datatype Item = Item(
    name: string,
    barcode: Option<string>,
    categoryId: nat,
    supplierId: nat,
    cost: real,
    price: real,
    stock: int,
    minStock: Option<int>,
    isActive: bool)

  /** A supplier (table `suppliers`); only the company name takes part in the core. */
  datatype Supplier = Supplier(companyName: string)

  /** A gift card (table `gift_cards`). A balance the request left out is the column default (None). */
  datatype GiftCard = GiftCard(
    cardId: nat,
    number: string,
    name: string,
    value: real,
    balance: Option<real>,
    expiration: Option<string>,
    customerId: nat,
    isActive: bool,
    isArchived: bool)

  datatype SaleStatus = Held | Completed

  /** One line of a sale (table `sale_items`): the price is a snapshot taken when the line is created. */
  datatype SaleLine = SaleLine(itemId: nat, quantity: int, price: real, total: real)

  /**
   * A sale header (table `sales`) with its lines. `status` is None when the
   * code did not write it (the column default applies); `heldBy` likewise.
   */
  datatype Sale = Sale(
    customerId: Option<nat>,
    totalAmount: real,
    discount: real,
    netAmount: real,
    paymentType: Option<string>,
    status: Option<SaleStatus>,
    heldBy: Option<nat>,
    lines: seq<SaleLine>)

  datatype ReceivingStatus = Pending | Completed

  /** A purchase-order header (table `receivings`). */
  datatype Receiving = Receiving(
    supplierId: nat,
    expectedDeliveryDate: Option<string>,
    orderNotes: Option<string>,
    total: real,
    discountTotal: real,
    amountDue: real,
    status: ReceivingStatus)

  /**
   * One purchase-order line (table `receiving_items`). `discount` holds the
   * percentage the line was created with, `total` the discounted amount.
   */
  datatype ReceivingLine = ReceivingLine(
    receivingId: nat,
    itemId: nat,
    cost: real,
    qty: int,
    discount: real,
    total: real)

  /** A customer (table `customers`); the optional contact fields are kept as one field map. */
  datatype Customer = Customer(
    number: string,
    firstName: string,
    lastName: string,
    email: string,
    details: map<string, string>,
    isArchived: bool)

  /** A user (table `users`); `password` holds the hash. */
  datatype User = User(
    firstName: string,
    lastName: string,
    email: string,
    username: string,
    roleId: nat,
    password: string,
    employeeNumber: string,
    details: map<string, string>,
    isArchived: bool)
}
