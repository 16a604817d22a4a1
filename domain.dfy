/** The records the services and repositories exchange, and the shapes of their results. */
module Domain {
  datatype Option<T> = None | Some(value: T)

  /** The errors the core can return. */
  datatype Error =
    | NoRows                           // a single-row query found no row
    | UniqueViolation                  // an INSERT refused because the phone is already taken
    | ForeignKeyViolation              // an INSERT naming a restaurant that does not exist
    | MalformedQuery                   // an UPDATE whose SET list came out empty
    | ScanFailed                       // a result row that could not be scanned
    | IterationFailed                  // the row cursor reported an error after the last row
    | QueryText(columns: seq<string>)  // the text of an UPDATE on these columns, returned as an error
    | Message(text: string)            // an error built from a fixed message

  /** A value or the error that replaced it. */
  datatype Result<T> = Ok(value: T) | Err(error: Error)

  /** An operation that returns only an error, or none. */
  datatype Outcome = Pass | Fail(error: Error)

  datatype Location = Location(latitude: real, longitude: real)

  /** An order; courierId 0 means that no courier is assigned, paid is the payment time. */
  datatype Order = Order(
    id: int,
    userId: int,
    restaurantId: int,
    courierId: int,
    deliveryPrice: int,
    totalPrice: int,
    status: int,
    paid: Option<int>)

  datatype OrderItem = OrderItem(id: int, orderId: int, menuItemId: int, count: int)

  datatype Courier = Courier(
    id: int,
    name: string,
    phone: string,
    password: string,
    email: string,
    address: Location,
    workingStatus: int)

  datatype User = User(
    id: int,
    name: string,
    phone: string,
    password: string,
    email: string,
    address: Location)

  datatype Restaurant = Restaurant(
    id: int,
    name: string,
    phone: string,
    password: string,
    workingStatus: int,
    address: Location,
    image: string)

  datatype Category = Category(id: int, restaurantId: int, title: string)

  datatype MenuItem = MenuItem(
    id: int,
    restaurantId: int,
    title: string,
    image: string,
    description: string,
    price: int)
}
