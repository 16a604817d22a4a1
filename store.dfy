/**
 * The database the repositories share: one map per table, keyed by row id,
 * and the next value of each table's id sequence. Order rows use courier 0
 * for "no courier assigned" (the order reads report a NULL courier as 0).
 */
module Store {
  import opened Domain

  /** A row of the category_items table: a menu item listed in a category. */
  datatype CategoryLink = CategoryLink(categoryId: int, menuItemId: int)

  /** The next id is positive; every key is positive, below the table's next id, and is the id of its row. */
  ghost predicate Keyed<T>(m: map<int, T>, idOf: T -> int, next: int) {
    && 0 < next
    && forall id :: id in m ==> 0 < id < next && idOf(m[id]) == id
  }

  class Database {
    var orders: map<int, Order>
    var orderItems: map<int, OrderItem>
    var couriers: map<int, Courier>
    var users: map<int, User>
    var restaurants: map<int, Restaurant>
    var categories: map<int, Category>
    var categoryItems: set<CategoryLink>
    var menuItems: map<int, MenuItem>

    var nextOrderId: int
    var nextItemId: int
    var nextCourierId: int
    var nextUserId: int
    var nextCategoryId: int
    var nextMenuItemId: int

    /** The get_distance function of the database, between two locations. */
    const getDistance: (Location, Location) -> int

    ghost predicate Valid()
      reads this
    {
      && Keyed(orders, (o: Order) => o.id, nextOrderId)
      && Keyed(orderItems, (i: OrderItem) => i.id, nextItemId)
      && Keyed(couriers, (c: Courier) => c.id, nextCourierId)
      && Keyed(users, (u: User) => u.id, nextUserId)
      && Keyed(categories, (c: Category) => c.id, nextCategoryId)
      && Keyed(menuItems, (m: MenuItem) => m.id, nextMenuItemId)
      && (forall id :: id in restaurants ==> restaurants[id].id == id)
    }

    constructor (getDistance: (Location, Location) -> int)
      ensures Valid()
      ensures orders == map[] && orderItems == map[] && couriers == map[] && users == map[]
      ensures restaurants == map[] && categories == map[] && categoryItems == {} && menuItems == map[]
      ensures this.getDistance == getDistance
    {
      orders, orderItems, couriers, users := map[], map[], map[], map[];
      restaurants, categories, categoryItems, menuItems := map[], map[], {}, map[];
      nextOrderId, nextItemId, nextCourierId := 1, 1, 1;
      nextUserId, nextCategoryId, nextMenuItemId := 1, 1, 1;
      this.getDistance := getDistance;
    }
  }
}
