// The HTTP layer's pure helpers: the converters between request, storage and
// response shapes, and the two patch helpers that merge an update request
// into a stored entity.
//
// The request and response types are declared in a file that is not part of
// this model; the fields below are the ones the converters read and write.
// `time.Now()` is the parameter `now`; `utils.HashPassword` is the parameter
// `hash`, a total function whose `None` is the error it may return.

module Handler {
  import Storer = StorerTypes

  type Time = Storer.Time

  datatype ProductReq = ProductReq(
    Name: string,
    Image: string,
    Category: string,
    Description: string,
    Rating: int,
    NumReviews: int,
    Price: int,
    CountInStock: int)

  datatype ProductRes = ProductRes(
    ID: int,
    Name: string,
    Image: string,
    Category: string,
    Description: string,
    Rating: int,
    NumReviews: int,
    Price: int,
    CountInStock: int,
    CreatedAt: Time,
    UpdatedAt: Storer.Option<Time>)

  /** An order line as the API sees it: no id, no parent id. */
  datatype OrderItem = OrderItem(
    Name: string,
    Quantity: int,
    Image: string,
    Price: int,
    ProductID: int)

  datatype OrderReq = OrderReq(
    Items: seq<OrderItem>,
    PaymentMethod: string,
    TaxPrice: int,
    ShippingPrice: int,
    TotalPrice: int)

  datatype OrderRes = OrderRes(
    ID: int,
    Items: seq<OrderItem>,
    PaymentMethod: string,
    TaxPrice: int,
    ShippingPrice: int,
    TotalPrice: int,
    CreatedAt: Time,
    UpdatedAt: Storer.Option<Time>)

  datatype UserReq = UserReq(
    Name: string,
    Email: string,
    Password: string,
    IsAdmin: bool)

  datatype UserRes = UserRes(
    Name: string,
    Email: string,
    IsAdmin: bool)

  /** Go's zero `time.Time`, the value of a timestamp a literal leaves out. */
  const ZeroTime: Time := 0

  // ---------------------------------------------------------------------------
  // Products

  /** toStorerProduct: the eight payload fields; id and timestamps unset. */
  function ToStorerProduct(p: ProductReq): (r: Storer.Product)
    ensures r.ID == 0 && r.CreatedAt == ZeroTime && r.UpdatedAt.None?
  {
    Storer.Product(0, p.Name, p.Image, p.Category, p.Description, p.Rating, p.NumReviews,
                   p.Price, p.CountInStock, ZeroTime, Storer.None)
  }

  /** toProductRes: every field of the stored product. */
  function ToProductRes(p: Storer.Product): (r: ProductRes)
    ensures r.ID == p.ID && r.CreatedAt == p.CreatedAt && r.UpdatedAt == p.UpdatedAt
  {
    ProductRes(p.ID, p.Name, p.Image, p.Category, p.Description, p.Rating, p.NumReviews,
               p.Price, p.CountInStock, p.CreatedAt, p.UpdatedAt)
  }

  /** The payload fields of a response, in request shape. */
  function PayloadOf(res: ProductRes): (r: ProductReq)
  {
    ProductReq(res.Name, res.Image, res.Category, res.Description, res.Rating, res.NumReviews, res.Price, res.CountInStock)
  }

  /** The payload of a create request survives into the response. */
  lemma ProductRoundTrip(p: ProductReq)
    ensures PayloadOf(ToProductRes(ToStorerProduct(p))) == p
    ensures ToProductRes(ToStorerProduct(p)).ID == 0
  {
  }

  /** toProductRes drops nothing: two products with the same response are equal. */
  lemma ProductResInjective(a: Storer.Product, b: Storer.Product)
    requires ToProductRes(a) == ToProductRes(b)
    ensures a == b
  {
  }

  /** What patchProductReq makes of `x`: each payload field taken from the
      request when it is set (a non-empty string, a non-zero number). */
  function PatchedProduct(x: Storer.Product, p: ProductReq, now: Time): (r: Storer.Product)
    ensures r.ID == x.ID && r.CreatedAt == x.CreatedAt && r.UpdatedAt == Storer.Some(now)
  {
    x.(Name := if p.Name != "" then p.Name else x.Name,
       Image := if p.Image != "" then p.Image else x.Image,
       Category := if p.Category != "" then p.Category else x.Category,
       Description := if p.Description != "" then p.Description else x.Description,
       Rating := if p.Rating != 0 then p.Rating else x.Rating,
       NumReviews := if p.NumReviews != 0 then p.NumReviews else x.NumReviews,
       Price := if p.Price != 0 then p.Price else x.Price,
       CountInStock := if p.CountInStock != 0 then p.CountInStock else x.CountInStock,
       UpdatedAt := Storer.Some(now))
  }

  /** patchProductReq, on the pointed-to product, one field at a time. */
  method PatchProductReq(product: Storer.ProductRef, p: ProductReq, now: Time)
    modifies product
    ensures product.v == PatchedProduct(old(product.v), p, now)
  {
    if p.Name != "" {
      product.v := product.v.(Name := p.Name);
    }
    if p.Image != "" {
      product.v := product.v.(Image := p.Image);
    }
    if p.Category != "" {
      product.v := product.v.(Category := p.Category);
    }
    if p.Description != "" {
      product.v := product.v.(Description := p.Description);
    }
    if p.Rating != 0 {
      product.v := product.v.(Rating := p.Rating);
    }
    if p.NumReviews != 0 {
      product.v := product.v.(NumReviews := p.NumReviews);
    }
    if p.Price != 0 {
      product.v := product.v.(Price := p.Price);
    }
    if p.CountInStock != 0 {
      product.v := product.v.(CountInStock := p.CountInStock);
    }
    product.v := product.v.(UpdatedAt := Storer.Some(now));
  }

  /** A field is overwritten exactly when the request sets it; an unset field
      keeps the stored value. */
  lemma PatchProductFields(x: Storer.Product, p: ProductReq, now: Time)
    ensures var r := PatchedProduct(x, p, now);
      && (p.Name == "" ==> r.Name == x.Name)
      && (p.Name != "" ==> r.Name == p.Name)
      && (p.Image == "" ==> r.Image == x.Image)
      && (p.Image != "" ==> r.Image == p.Image)
      && (p.Category == "" ==> r.Category == x.Category)
      && (p.Category != "" ==> r.Category == p.Category)
      && (p.Description == "" ==> r.Description == x.Description)
      && (p.Description != "" ==> r.Description == p.Description)
      && (p.Rating == 0 ==> r.Rating == x.Rating)
      && (p.Rating != 0 ==> r.Rating == p.Rating)
      && (p.NumReviews == 0 ==> r.NumReviews == x.NumReviews)
      && (p.NumReviews != 0 ==> r.NumReviews == p.NumReviews)
      && (p.Price == 0 ==> r.Price == x.Price)
      && (p.Price != 0 ==> r.Price == p.Price)
      && (p.CountInStock == 0 ==> r.CountInStock == x.CountInStock)
      && (p.CountInStock != 0 ==> r.CountInStock == p.CountInStock)
  {
  }

  /** An empty request only moves `UpdatedAt`. */
  lemma PatchProductEmpty(x: Storer.Product, now: Time)
    ensures PatchedProduct(x, ProductReq("", "", "", "", 0, 0, 0, 0), now) == x.(UpdatedAt := Storer.Some(now))
  {
  }

  /** Patching twice with the same request is patching once (at the later time). */
  lemma PatchProductIdempotent(x: Storer.Product, p: ProductReq, t1: Time, t2: Time)
    ensures PatchedProduct(PatchedProduct(x, p, t1), p, t2) == PatchedProduct(x, p, t2)
  {
  }

  // ---------------------------------------------------------------------------
  // Orders

  /** The literal toStorerOrderItems appends for one API item: id and parent id unset. */
  function StorerItem(i: OrderItem): (r: Storer.OrderItem)
    ensures r.ID == 0 && r.OrderID == 0
  {
    Storer.OrderItem(0, i.Name, i.Quantity, i.Image, i.Price, i.ProductID, 0)
  }

  /** The literal toOrderItems appends for one stored item. */
  function ResItem(i: Storer.OrderItem): (r: OrderItem)
    ensures StorerItem(r) == i.(ID := 0, OrderID := 0)
  {
    OrderItem(i.Name, i.Quantity, i.Image, i.Price, i.ProductID)
  }

  /** What the toStorerOrderItems loop builds: one converted item per item, in order. */
  function StorerItems(items: seq<OrderItem>): (r: seq<Storer.OrderItem>)
    ensures |r| == |items|
  {
    seq(|items|, k requires 0 <= k < |items| => StorerItem(items[k]))
  }

  /** What the toOrderItems loop builds. */
  function ResItems(items: seq<Storer.OrderItem>): (r: seq<OrderItem>)
    ensures |r| == |items|
  {
    seq(|items|, k requires 0 <= k < |items| => ResItem(items[k]))
  }

  /** API items survive the trip into storage shape and back. */
  lemma ItemsRoundTrip(items: seq<OrderItem>)
    ensures ResItems(StorerItems(items)) == items
  {
  }

  /** Stored items come back from the trip through API shape with only their
      id and parent id cleared. */
  lemma StoredItemsRoundTrip(items: seq<Storer.OrderItem>)
    ensures |StorerItems(ResItems(items))| == |items|
    ensures forall k :: 0 <= k < |items| ==> StorerItems(ResItems(items))[k] == items[k].(ID := 0, OrderID := 0)
  {
  }

  /** toStorerOrderItems: the `range` loop appending one converted item per element. */
  method ToStorerOrderItems(items: seq<OrderItem>) returns (res: seq<Storer.OrderItem>)
    ensures res == StorerItems(items)
  {
    res := [];
    var k := 0;
    while k < |items|
      invariant 0 <= k <= |items|
      invariant |res| == k
      invariant forall j :: 0 <= j < k ==> res[j] == StorerItem(items[j])
    {
      var i := items[k];
      res := res + [Storer.OrderItem(0, i.Name, i.Quantity, i.Image, i.Price, i.ProductID, 0)];
      k := k + 1;
    }
  }

  /** toOrderItems: the `range` loop appending one converted item per element. */
  method ToOrderItems(items: seq<Storer.OrderItem>) returns (res: seq<OrderItem>)
    ensures res == ResItems(items)
  {
    res := [];
    var k := 0;
    while k < |items|
      invariant 0 <= k <= |items|
      invariant |res| == k
      invariant forall j :: 0 <= j < k ==> res[j] == ResItem(items[j])
    {
      var i := items[k];
      res := res + [OrderItem(i.Name, i.Quantity, i.Image, i.Price, i.ProductID)];
      k := k + 1;
    }
  }

  /** toStorerOrder: the four payload fields and the converted items; id and
      timestamps unset. */
  method ToStorerOrder(o: OrderReq) returns (r: Storer.Order)
    ensures r.ID == 0 && r.CreatedAt == ZeroTime && r.UpdatedAt.None?
    ensures r.PaymentMethod == o.PaymentMethod && r.TaxPrice == o.TaxPrice
    ensures r.ShippingPrice == o.ShippingPrice && r.TotalPrice == o.TotalPrice
    ensures r.Items == StorerItems(o.Items)
  {
    var items := ToStorerOrderItems(o.Items);
    r := Storer.Order(0, o.PaymentMethod, o.TaxPrice, o.ShippingPrice, o.TotalPrice, ZeroTime, Storer.None, items);
  }

  /** toOrderRes: every order field, the items converted. */
  method ToOrderRes(o: Storer.Order) returns (r: OrderRes)
    ensures r.ID == o.ID && r.CreatedAt == o.CreatedAt && r.UpdatedAt == o.UpdatedAt
    ensures r.PaymentMethod == o.PaymentMethod && r.TaxPrice == o.TaxPrice
    ensures r.ShippingPrice == o.ShippingPrice && r.TotalPrice == o.TotalPrice
    ensures r.Items == ResItems(o.Items)
  {
    var items := ToOrderItems(o.Items);
    r := OrderRes(o.ID, items, o.PaymentMethod, o.TaxPrice, o.ShippingPrice, o.TotalPrice, o.CreatedAt, o.UpdatedAt);
  }

  // ---------------------------------------------------------------------------
  // Users

  /** toStorerUser: the request's fields; id and timestamps unset. The
      password is stored as given (the caller has hashed it). */
  function ToStorerUser(u: UserReq): (r: Storer.User)
    ensures r.ID == 0 && r.CreatedAt == ZeroTime && r.UpdatedAt.None?
  {
    Storer.User(0, u.Name, u.Email, u.Password, u.IsAdmin, ZeroTime, Storer.None)
  }

  /** toUserRes: name, email and the admin flag, nothing else. */
  function ToUserRes(u: Storer.User): (r: UserRes)
    ensures r.Name == u.Name && r.Email == u.Email && r.IsAdmin == u.IsAdmin
  {
    UserRes(u.Name, u.Email, u.IsAdmin)
  }

  /** The password, id and timestamps never reach the response: users that
      differ only in them give the same response. */
  lemma UserResHidesSecrets(a: Storer.User, b: Storer.User)
    requires a.Name == b.Name && a.Email == b.Email && a.IsAdmin == b.IsAdmin
    ensures ToUserRes(a) == ToUserRes(b)
  {
  }

  /** A created user's response repeats the request without its password. */
  lemma UserRoundTrip(u: UserReq)
    ensures ToUserRes(ToStorerUser(u)) == UserRes(u.Name, u.Email, u.IsAdmin)
  {
  }

  /** The fields patchUserReq writes before it may hash the password. */
  function NamesPatched(x: Storer.User, u: UserReq): (r: Storer.User)
    ensures r.Password == x.Password && r.IsAdmin == x.IsAdmin && r.UpdatedAt == x.UpdatedAt
  {
    x.(Name := if u.Name != "" then u.Name else x.Name,
       Email := if u.Email != "" then u.Email else x.Email)
  }

  /** What patchUserReq makes of `x`, or `None` when hashing the new password
      fails (the code panics). */
  function PatchedUser(x: Storer.User, u: UserReq, hash: string -> Storer.Option<string>, now: Time): (r: Storer.Option<Storer.User>)
    ensures r.None? <==> u.Password != "" && hash(u.Password).None?
    ensures r.Some? ==> r.value.ID == x.ID && r.value.CreatedAt == x.CreatedAt && r.value.UpdatedAt == Storer.Some(now)
  {
    var y := NamesPatched(x, u);
    if u.Password != "" && hash(u.Password).None? then Storer.None
    else
      Storer.Some(y.(Password := if u.Password != "" then hash(u.Password).value else y.Password,
                     IsAdmin := if u.IsAdmin then u.IsAdmin else y.IsAdmin,
                     UpdatedAt := Storer.Some(now)))
  }

  /** patchUserReq, on the pointed-to user. `ok` is false when it panics; the
      name and email are already written by then. */
  method PatchUserReq(user: Storer.UserRef, u: UserReq, hash: string -> Storer.Option<string>, now: Time)
    returns (ok: bool)
    modifies user
    ensures ok == PatchedUser(old(user.v), u, hash, now).Some?
    ensures ok ==> user.v == PatchedUser(old(user.v), u, hash, now).value
    ensures !ok ==> user.v == NamesPatched(old(user.v), u)
  {
    if u.Name != "" {
      user.v := user.v.(Name := u.Name);
    }
    if u.Email != "" {
      user.v := user.v.(Email := u.Email);
    }
    if u.Password != "" {
      var hashed := hash(u.Password);
      if hashed.None? {
        return false;
      }
      user.v := user.v.(Password := hashed.value);
    }
    if u.IsAdmin {
      user.v := user.v.(IsAdmin := u.IsAdmin);
    }
    user.v := user.v.(UpdatedAt := Storer.Some(now));
    return true;
  }

  /** A patch never demotes an admin: the flag ends up set exactly when it was
      set before or the request sets it. */
  lemma PatchUserNeverDemotes(x: Storer.User, u: UserReq, hash: string -> Storer.Option<string>, now: Time)
    requires PatchedUser(x, u, hash, now).Some?
    ensures PatchedUser(x, u, hash, now).value.IsAdmin <==> x.IsAdmin || u.IsAdmin
    ensures x.IsAdmin ==> PatchedUser(x, u, hash, now).value.IsAdmin
  {
  }

  /** The password is replaced, by the hash of the request's, exactly when the
      request carries one; name and email only when non-empty. */
  lemma PatchUserFields(x: Storer.User, u: UserReq, hash: string -> Storer.Option<string>, now: Time)
    requires PatchedUser(x, u, hash, now).Some?
    ensures var r := PatchedUser(x, u, hash, now).value;
      && r.Password == (if u.Password != "" then hash(u.Password).value else x.Password)
      && r.Name == (if u.Name != "" then u.Name else x.Name)
      && r.Email == (if u.Email != "" then u.Email else x.Email)
  {
  }

  /** Patching twice with the same request is patching once at the later
      time. `hash1` and `hash2` are the two calls of HashPassword, which may
      differ (a salted hash): the second patch is what the second call alone
      would give, and apart from the password and `UpdatedAt` it repeats the first. */
  lemma PatchUserIdempotent(x: Storer.User, u: UserReq, hash1: string -> Storer.Option<string>,
                            hash2: string -> Storer.Option<string>, t1: Time, t2: Time)
    requires PatchedUser(x, u, hash1, t1).Some?
    ensures PatchedUser(PatchedUser(x, u, hash1, t1).value, u, hash2, t2) == PatchedUser(x, u, hash2, t2)
    ensures PatchedUser(x, u, hash2, t2).Some? ==>
      PatchedUser(x, u, hash2, t2).value.(Password := "") == PatchedUser(x, u, hash1, t2).value.(Password := "")
    ensures PatchedUser(x, u, hash2, t2).Some? ==>
      PatchedUser(PatchedUser(x, u, hash1, t1).value, u, hash2, t2).value.(Password := "", UpdatedAt := Storer.None)
      == PatchedUser(x, u, hash1, t1).value.(Password := "", UpdatedAt := Storer.None)
  {
  }
}
