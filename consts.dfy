/** The integer status codes shared by the order, courier and restaurant tables. */
module Consts {
  // Courier working status.
  const CourierUnable := 0
  const CourierWaiting := 1
  const CourierWorking := 2

  // Restaurant working status.
  const RestaurantUnable := 0
  const RestaurantWorking := 1

  // Order status: a linear progression, one step per update.
  const OrderCreated := 0
  const OrderPaid := 1
  const OrderPreparing := 2
  const OrderWaitingForCourier := 3
  const OrderEnRoute := 4
  const OrderDelivered := 5

  /** The three working statuses a courier record may hold. */
  predicate IsCourierStatus(s: int) {
    s == CourierUnable || s == CourierWaiting || s == CourierWorking
  }

  /** An order that is paid for and not yet delivered. */
  predicate IsActiveStatus(s: int) {
    OrderPaid <= s <= OrderEnRoute
  }
}
