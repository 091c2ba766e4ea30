/** The owner side of the schema: the pet owner's profile and the rows an
    owner has (cart lines, orders, favorites), the order status choices,
    the column bounds the serializers enforce, and the display strings. */
module OwnerModels {
  import opened Common

  const MaxAnimalTypeLength := 50
  const MaxStatusLength := 20

  /** `Order.STATUS_CHOICES`. */
  datatype Status = Placed | Processed | Completed | Cancelled

  /** The text stored in the `status` column for each choice. */
  function StatusLabel(s: Status): (r: string)
    ensures 0 < |r| <= MaxStatusLength
  {
    match s
    case Placed => "Placed"
    case Processed => "Processed"
    case Completed => "Completed"
    case Cancelled => "Cancelled"
  }

  /** The choice validation of the `status` field: a text is accepted
      exactly when it is the label of one of the four choices. */
  function ParseStatus(t: string): (r: Option<Status>)
    ensures r.Some? ==> StatusLabel(r.value) == t
    ensures r.None? ==> forall s :: StatusLabel(s) != t
  {
    if t == "Placed" then Some(Placed)
    else if t == "Processed" then Some(Processed)
    else if t == "Completed" then Some(Completed)
    else if t == "Cancelled" then Some(Cancelled)
    else None
  }

  /** Every choice reads back from its label, and distinct choices have
      distinct labels. */
  lemma StatusRoundTrip(s: Status, t: Status)
    ensures ParseStatus(StatusLabel(s)) == Some(s)
    ensures StatusLabel(s) == StatusLabel(t) ==> s == t
  {
  }

  /** The `Owner` profile (credential columns inherited from `User`
      included; the password hash is not part of the model). */
  datatype Owner = Owner(
    email: string,
    username: string,
    phoneNumber: string,
    address: string,
    ownerName: string,
    petName: string,
    petAge: nat,
    animalType: string)

  predicate OwnerFits(o: Owner) {
    && |o.username| <= MaxUsernameLength
    && |o.phoneNumber| <= MaxPhoneLength
    && |o.ownerName| <= MaxNameLength
    && |o.petName| <= MaxNameLength
    && |o.animalType| <= MaxAnimalTypeLength
  }

  /** A cart line: a snapshot of a service, its provider's name and price. */
  datatype CartItem = CartItem(
    owner: Id,
    serviceId: int,
    serviceName: string,
    scheduled: Instant,
    providerName: string,
    charges: int)

  predicate CartFits(c: CartItem) {
    |c.serviceName| <= MaxNameLength && |c.providerName| <= MaxNameLength && FitsMoney(c.charges)
  }

  datatype Order = Order(
    owner: Id,
    serviceId: int,
    serviceName: string,
    scheduled: Instant,
    providerName: string,
    charges: int,
    status: Status)

  predicate OrderFits(o: Order) {
    && |o.serviceName| <= MaxNameLength
    && |o.providerName| <= MaxNameLength
    && FitsMoney(o.charges)
    && |StatusLabel(o.status)| <= MaxStatusLength
  }

  datatype Favorite = Favorite(owner: Id, serviceName: string, providerName: string)

  predicate FavoriteFits(f: Favorite) {
    |f.serviceName| <= MaxNameLength && |f.providerName| <= MaxNameLength
  }

  /** The order checkout builds from a cart line: every column copied, the
      status forced to `Placed`. */
  function OrderFromCart(c: CartItem): (o: Order)
    ensures o.status == Placed
    ensures CartFits(c) ==> OrderFits(o)
    ensures o.owner == c.owner && o.serviceId == c.serviceId && o.scheduled == c.scheduled
    ensures o.serviceName == c.serviceName && o.providerName == c.providerName && o.charges == c.charges
  {
    Order(c.owner, c.serviceId, c.serviceName, c.scheduled, c.providerName, c.charges, Placed)
  }

  /** The only transition an owner may make: a `Placed` order becomes
      `Cancelled`; any other status refuses. */
  function Cancel(o: Order): (r: Option<Order>)
    ensures r.Some? <==> o.status == Placed
    ensures r.Some? ==> r.value.status == Cancelled && r.value.(status := o.status) == o
  {
    if o.status == Placed then Some(o.(status := Cancelled)) else None
  }

  /** Cancelling the same order a second time is refused. */
  lemma CancelTwiceFails(o: Order)
    requires Cancel(o).Some?
    ensures Cancel(Cancel(o).value).None?
  {
  }

  const OrderPrefix := "Order "
  const CartPrefix := "Cart "
  const ServiceInfix := " - Service: "

  /** `Order.__str__`: the prefix, the order id's numeral, the infix and
      the service name, in that order. */
  function OrderString(orderId: Id, o: Order): (r: string)
    ensures var n := DecimalString(orderId);
            && |r| == |OrderPrefix| + |n| + |ServiceInfix| + |o.serviceName|
            && r[..|OrderPrefix|] == OrderPrefix
            && r[|OrderPrefix|..|OrderPrefix| + |n|] == n
            && r[|OrderPrefix| + |n|..|r| - |o.serviceName|] == ServiceInfix
            && r[|r| - |o.serviceName|..] == o.serviceName
  {
    OrderPrefix + DecimalString(orderId) + ServiceInfix + o.serviceName
  }

  /** `Cart.__str__`: the prefix, the cart id's numeral, the infix and the
      service name, in that order. */
  function CartString(cartId: Id, c: CartItem): (r: string)
    ensures var n := DecimalString(cartId);
            && |r| == |CartPrefix| + |n| + |ServiceInfix| + |c.serviceName|
            && r[..|CartPrefix|] == CartPrefix
            && r[|CartPrefix|..|CartPrefix| + |n|] == n
            && r[|CartPrefix| + |n|..|r| - |c.serviceName|] == ServiceInfix
            && r[|r| - |c.serviceName|..] == c.serviceName
  {
    CartPrefix + DecimalString(cartId) + ServiceInfix + c.serviceName
  }

  /** `Owner.__str__`. */
  function OwnerString(o: Owner): (r: string)
    ensures |r| == |o.email| + 3 + |o.ownerName|
    ensures r[..|o.email|] == o.email && r[|r| - |o.ownerName|..] == o.ownerName
    ensures r[|o.email|..|o.email| + 3] == " - "
  {
    o.email + " - " + o.ownerName
  }

  /** `Favorites.__str__`, which reads the owning profile's name. */
  function FavoriteString(owner: Owner, f: Favorite): (r: string)
    ensures |r| == |owner.ownerName| + 3 + |f.serviceName|
    ensures r[..|owner.ownerName|] == owner.ownerName && r[|r| - |f.serviceName|..] == f.serviceName
    ensures r[|owner.ownerName|..|owner.ownerName| + 3] == " - "
  {
    owner.ownerName + " - " + f.serviceName
  }

  /** A numeral followed by a text that starts with a non-digit can be split
      back into the two. */
  lemma {:induction false} SplitNumeral(a: string, b: string, x: string, y: string)
    requires AllDigits(a) && AllDigits(b)
    requires |x| > 0 && |y| > 0 && !IsDigit(x[0]) && !IsDigit(y[0])
    requires a + x == b + y
    ensures a == b && x == y
  {
    assert !IsDigit((a + x)[|a|]) && !IsDigit((b + y)[|b|]);
    assert forall k :: 0 <= k < |a| ==> IsDigit((a + x)[k]);
    assert forall k :: 0 <= k < |b| ==> IsDigit((b + y)[k]);
    assert |a| == |b|;
    assert a == (a + x)[..|a|] && b == (b + y)[..|b|];
    assert x == (a + x)[|a|..] && y == (b + y)[|b|..];
  }

  /** A text made of a fixed prefix, an id's numeral, an infix that starts
      with a non-digit and a name gives back the id and the name. */
  lemma NumeralTextIdentifies(prefix: string, infix: string, i: Id, x: string, j: Id, y: string)
    requires |infix| > 0 && !IsDigit(infix[0])
    requires prefix + DecimalString(i) + infix + x == prefix + DecimalString(j) + infix + y
    ensures i == j && x == y
  {
    var s := prefix + DecimalString(i) + infix + x;
    assert s == prefix + (DecimalString(i) + (infix + x));
    assert s == prefix + (DecimalString(j) + (infix + y));
    var rest := s[|prefix|..];
    assert rest == DecimalString(i) + (infix + x);
    assert rest == DecimalString(j) + (infix + y);
    SplitNumeral(DecimalString(i), DecimalString(j), infix + x, infix + y);
    DecimalStringInjective(i, j);
    assert x == (infix + x)[|infix|..];
    assert y == (infix + y)[|infix|..];
  }

  /** The display string of an order names it unambiguously: equal strings
      mean the same order id and the same service name. */
  lemma OrderStringIdentifies(i: Id, o: Order, j: Id, p: Order)
    requires OrderString(i, o) == OrderString(j, p)
    ensures i == j && o.serviceName == p.serviceName
  {
    NumeralTextIdentifies(OrderPrefix, ServiceInfix, i, o.serviceName, j, p.serviceName);
  }

  /** The same holds of a cart line's display string. */
  lemma CartStringIdentifies(i: Id, c: CartItem, j: Id, d: CartItem)
    requires CartString(i, c) == CartString(j, d)
    ensures i == j && c.serviceName == d.serviceName
  {
    NumeralTextIdentifies(CartPrefix, ServiceInfix, i, c.serviceName, j, d.serviceName);
  }
}
