// Entities of the storage package (package `storer`). Their Go declarations are
// not part of this model; the fields below are the ones the storage statements
// and the handler's converters read and write.
//
// Go floats (ratings and prices) are modelled as `int`: the code only copies
// them and compares them with zero. Timestamps are opaque instants (`Time`).

module StorerTypes {

  datatype Option<T> = None | Some(value: T)

  datatype Result<T, E> = Success(value: T) | Failure(error: E)

  type Time = int

  datatype Product = Product(
    ID: int,
    Name: string,
    Image: string,
    Category: string,
    Description: string,
    Rating: int,
    NumReviews: int,
    Price: int,
    CountInStock: int,
    CreatedAt: Time,
    UpdatedAt: Option<Time>)

  datatype OrderItem = OrderItem(
    ID: int,
    Name: string,
    Quantity: int,
    Image: string,
    Price: int,
    ProductID: int,
    OrderID: int)

  datatype Order = Order(
    ID: int,
    PaymentMethod: string,
    TaxPrice: int,
    ShippingPrice: int,
    TotalPrice: int,
    CreatedAt: Time,
    UpdatedAt: Option<Time>,
    Items: seq<OrderItem>)

  datatype User = User(
    ID: int,
    Name: string,
    Email: string,
    Password: string,
    IsAdmin: bool,
    CreatedAt: Time,
    UpdatedAt: Option<Time>)

  /** A Go `*storer.Product`: the struct value behind a pointer that callees
      update in place. */
  class ProductRef {
    var v: Product
    constructor (v: Product)
      ensures this.v == v
    {
      this.v := v;
    }
  }

  /** A Go `*storer.Order`. */
  class OrderRef {
    var v: Order
    constructor (v: Order)
      ensures this.v == v
    {
      this.v := v;
    }
  }

  /** A Go `*storer.User`. */
  class UserRef {
    var v: User
    constructor (v: User)
      ensures this.v == v
    {
      this.v := v;
    }
  }
}
