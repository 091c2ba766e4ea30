/** The owner-facing request handlers: the profile, the cart, checkout, the
    order history, reviews and favorites. Every handler takes the store and
    the already authenticated caller, and answers with an `Outcome` (or a
    `Reply` for the queries); the serializers' validation of a row is the
    column bounds of the model plus an `accepts` predicate that stands for
    the checks the model does not spell out (e-mail syntax, blank text,
    date-time parsing). */
module OwnerViews {
  import opened Common
  import opened OwnerModels
  import opened ProviderModels
  import opened Store

  // ---------------------------------------------------------------------
  // Profile

  /** `owner_profile`: the caller's own profile, or 404 for a caller who
      has none. */
  function OwnerProfile(db: Marketplace, caller: Caller): (r: Reply<Owner>)
    reads db
    requires db.Resolves(caller)
    ensures r.Failure? <==> caller.owner.None?
    ensures r.Failure? ==> r.status == NotFound
    ensures r.Success? ==> r.value == db.tables.owners[caller.owner.value]
  {
    match caller.owner
    case None => Failure(NotFound)
    case Some(id) => Success(db.tables.owners[id])
  }

  /** The writable fields of the owner serializer; `None` is a field the
      request body does not mention. The user name is not among them. */
  datatype OwnerPatch = OwnerPatch(
    email: Option<string>,
    address: Option<string>,
    phoneNumber: Option<string>,
    ownerName: Option<string>,
    petName: Option<string>,
    petAge: Option<int>,
    animalType: Option<string>)

  const NoOwnerChanges := OwnerPatch(None, None, None, None, None, None, None)

  /** The column bounds on the fields a patch supplies. */
  predicate OwnerPatchFits(p: OwnerPatch) {
    && (p.phoneNumber.Some? ==> |p.phoneNumber.value| <= MaxPhoneLength)
    && (p.ownerName.Some? ==> |p.ownerName.value| <= MaxNameLength)
    && (p.petName.Some? ==> |p.petName.value| <= MaxNameLength)
    && (p.petAge.Some? ==> p.petAge.value >= 0)
    && (p.animalType.Some? ==> |p.animalType.value| <= MaxAnimalTypeLength)
  }

  /** The e-mail address is taken out of the update when it equals the
      current one; any other field stays as sent. */
  function DropUnchangedEmail(p: OwnerPatch, o: Owner): (r: OwnerPatch)
    ensures r.email.None? <==> p.email.None? || p.email.value == o.email
    ensures r.email.Some? ==> r.email == p.email
    ensures r.(email := p.email) == p
  {
    if p.email == Some(o.email) then p.(email := None) else p
  }

  /** A partial update: every field the patch supplies is replaced, every
      other field keeps its value. */
  function ApplyOwnerPatch(o: Owner, p: OwnerPatch): (r: Owner)
    requires p.petAge.Some? ==> p.petAge.value >= 0
    ensures r.username == o.username
    ensures p.email.Some? ==> r.email == p.email.value
    ensures p.email.None? ==> r.email == o.email
    ensures p.address.Some? ==> r.address == p.address.value
    ensures p.address.None? ==> r.address == o.address
    ensures p.phoneNumber.Some? ==> r.phoneNumber == p.phoneNumber.value
    ensures p.phoneNumber.None? ==> r.phoneNumber == o.phoneNumber
    ensures p.ownerName.Some? ==> r.ownerName == p.ownerName.value
    ensures p.ownerName.None? ==> r.ownerName == o.ownerName
    ensures p.petName.Some? ==> r.petName == p.petName.value
    ensures p.petName.None? ==> r.petName == o.petName
    ensures p.petAge.Some? ==> r.petAge == p.petAge.value
    ensures p.petAge.None? ==> r.petAge == o.petAge
    ensures p.animalType.Some? ==> r.animalType == p.animalType.value
    ensures p.animalType.None? ==> r.animalType == o.animalType
    ensures OwnerFits(o) && OwnerPatchFits(p) ==> OwnerFits(r)
  {
    Owner(
      p.email.GetOr(o.email),
      o.username,
      p.phoneNumber.GetOr(o.phoneNumber),
      p.address.GetOr(o.address),
      p.ownerName.GetOr(o.ownerName),
      p.petName.GetOr(o.petName),
      if p.petAge.Some? then p.petAge.value else o.petAge,
      p.animalType.GetOr(o.animalType))
  }

  /** Taking the unchanged e-mail address out of a patch does not change
      the profile it produces: the step only matters to validation. */
  lemma DropUnchangedEmailHarmless(o: Owner, p: OwnerPatch)
    requires p.petAge.Some? ==> p.petAge.value >= 0
    ensures ApplyOwnerPatch(o, DropUnchangedEmail(p, o)) == ApplyOwnerPatch(o, p)
  {
  }

  /** A patch that supplies nothing leaves the profile as it was, and
      applying the same patch twice is applying it once. */
  lemma OwnerPatchIdempotent(o: Owner, p: OwnerPatch)
    requires p.petAge.Some? ==> p.petAge.value >= 0
    ensures ApplyOwnerPatch(o, NoOwnerChanges) == o
    ensures ApplyOwnerPatch(ApplyOwnerPatch(o, p), p) == ApplyOwnerPatch(o, p)
  {
  }

  /** `update_owner_profile`: 404 for a caller without an owner profile;
      otherwise the unchanged e-mail address is dropped and the rest is
      validated (column bounds, and `accepts`, which stands for the
      serializer's field validators including its unique-e-mail check) and
      applied. An accepted address that another user already has breaks the
      database's uniqueness constraint on save, which answers 500. */
  method UpdateOwnerProfile(db: Marketplace, caller: Caller, patch: OwnerPatch, accepts: OwnerPatch -> bool)
    returns (out: Outcome)
    requires db.Valid() && db.Resolves(caller)
    modifies db
    ensures db.Valid()
    ensures out == Ok || out == BadRequest || out == NotFound || out == InternalError
    ensures out == NotFound <==> caller.owner.None?
    ensures caller.owner.Some? ==>
              var id := caller.owner.value;
              var p := DropUnchangedEmail(patch, old(db.tables.owners)[id]);
              && (out == BadRequest <==> !(OwnerPatchFits(p) && accepts(p)))
              && (out == InternalError <==> out != BadRequest && p.email.Some? && old(db.EmailTaken(p.email.value, id)))
    ensures out == Ok ==> patch.petAge.Some? ==> patch.petAge.value >= 0
    ensures out == Ok ==> db.tables.owners == old(db.tables.owners)[caller.owner.value := ApplyOwnerPatch(old(db.tables.owners)[caller.owner.value], patch)]
    ensures out != Ok ==> db.tables.owners == old(db.tables.owners)
    ensures db.tables.(owners := old(db.tables.owners)) == old(db.tables)
    ensures SequencesKept(db)
    ensures old(db.UniqueUsers()) ==> db.UniqueUsers()
  {
    if caller.owner.None? {
      return NotFound;
    }
    var id := caller.owner.value;
    var current := db.tables.owners[id];
    var p := DropUnchangedEmail(patch, current);
    if !(OwnerPatchFits(p) && accepts(p)) {
      return BadRequest;
    }
    if p.email.Some? && db.EmailTaken(p.email.value, id) {
      return InternalError;
    }
    var updated := ApplyOwnerPatch(current, p);
    DropUnchangedEmailHarmless(current, patch);
    if db.UniqueUsers() {
      UniqueAccountsReplaceOwner(db.tables.owners, db.tables.providers, id, updated);
    }
    OwnerWriteValid(db.tables, db.nextServiceId, db.nextCartId, db.nextOrderId, db.nextFavoriteId, id, updated);
    db.tables := db.tables.(owners := db.tables.owners[id := updated]);
    out := Ok;
  }

  // ---------------------------------------------------------------------
  // Cart

  /** The parsed body of an add-to-cart or add-to-favorites request: text
      that is not JSON, JSON that is not an object, or an object with the
      two keys the handlers read. */
  datatype ServiceRequest =
    | Unparsable
    | NotAnObject
    | Object(serviceId: Option<int>, scheduled: Option<Instant>)

  /** Whether the body names a service the store has. */
  predicate NamesService(db: Marketplace, body: ServiceRequest)
    reads db
  {
    body.Object? && body.serviceId.Some? && body.serviceId.value in db.tables.services
  }

  /** `add_service_to_cart`. A body that is not a JSON object or lacks
      `service_id` is refused with 400, an unknown service with 404, a
      caller without an owner profile with 500 (the failed profile lookup
      falls through to the catch-all). Otherwise the new line copies the
      service id, the service's name and price and its provider's name as
      they are now, is scheduled at the requested time or else at `now`,
      and is inserted when it validates. */
  method AddServiceToCart(db: Marketplace, caller: Caller, body: ServiceRequest, now: Instant, accepts: CartItem -> bool)
    returns (out: Outcome, cartId: Id)
    requires db.Valid() && db.Resolves(caller)
    modifies db
    ensures db.Valid()
    ensures !body.Object? || body.serviceId.None? ==> out == BadRequest
    ensures body.Object? && body.serviceId.Some? && !old(NamesService(db, body)) ==> out == NotFound
    ensures old(NamesService(db, body)) && caller.owner.None? ==> out == InternalError
    ensures old(NamesService(db, body)) && caller.owner.Some? ==>
              var s := old(db.tables.services)[body.serviceId.value];
              var row := CartItem(caller.owner.value, body.serviceId.value, s.serviceName,
                                  body.scheduled.GetOr(now), old(db.tables.providers)[s.provider].name, s.price);
              && (out == Ok <==> CartFits(row) && accepts(row))
              && (out == Ok ==> cartId !in old(db.tables.carts) && db.tables.carts == old(db.tables.carts)[cartId := row])
              && (out != Ok ==> out == BadRequest)
    ensures out != Ok ==> db.tables.carts == old(db.tables.carts)
    ensures db.tables.(carts := old(db.tables.carts)) == old(db.tables)
    ensures db.nextServiceId == old(db.nextServiceId) && db.nextOrderId == old(db.nextOrderId)
    ensures db.nextFavoriteId == old(db.nextFavoriteId)
  {
    cartId := 0;
    if !body.Object? || body.serviceId.None? {
      return BadRequest, cartId;
    }
    var sid := body.serviceId.value;
    if sid !in db.tables.services {
      return NotFound, cartId;
    }
    var service := db.tables.services[sid];
    var provider := db.tables.providers[service.provider];
    if caller.owner.None? {
      return InternalError, cartId;
    }
    var row := CartItem(caller.owner.value, sid, service.serviceName, body.scheduled.GetOr(now), provider.name, service.price);
    if !(CartFits(row) && accepts(row)) {
      return BadRequest, cartId;
    }
    cartId := db.nextCartId;
    db.tables := db.tables.(carts := db.tables.carts[cartId := row]);
    db.nextCartId := cartId + 1;
    out := Ok;
  }

  /** `delete_service_from_cart`: the line is removed only when it exists
      and belongs to the caller; otherwise 404 and nothing changes. The
      profile lookup is outside the handler's `try`, so a caller without an
      owner profile gets 500. */
  method DeleteServiceFromCart(db: Marketplace, caller: Caller, cartId: Id) returns (out: Outcome)
    requires db.Valid() && db.Resolves(caller)
    modifies db
    ensures db.Valid()
    ensures caller.owner.None? ==> out == InternalError
    ensures caller.owner.Some? ==>
              (out == Ok <==> cartId in old(db.tables.carts) && old(db.tables.carts)[cartId].owner == caller.owner.value)
              && (out != Ok ==> out == NotFound)
    ensures out == Ok ==> db.tables.carts == old(db.tables.carts) - {cartId}
    ensures out != Ok ==> db.tables.carts == old(db.tables.carts)
    ensures db.tables.(carts := old(db.tables.carts)) == old(db.tables)
    ensures SequencesKept(db)
  {
    if caller.owner.None? {
      return InternalError;
    }
    if cartId !in db.tables.carts || db.tables.carts[cartId].owner != caller.owner.value {
      return NotFound;
    }
    db.tables := db.tables.(carts := db.tables.carts - {cartId});
    out := Ok;
  }

  /** Every column of a cart line is writable through the cart serializer;
      `None` is a field the body does not mention. */
  datatype CartPatch = CartPatch(
    owner: Option<int>,
    serviceId: Option<int>,
    serviceName: Option<string>,
    scheduled: Option<Instant>,
    providerName: Option<string>,
    charges: Option<int>)

  /** A partial update of a cart line. */
  function ApplyCartPatch(c: CartItem, p: CartPatch): (r: CartItem)
    requires p.owner.Some? ==> p.owner.value >= 0
    ensures p.owner.Some? ==> r.owner == p.owner.value
    ensures p.owner.None? ==> r.owner == c.owner
    ensures p.serviceId.Some? ==> r.serviceId == p.serviceId.value
    ensures p.serviceId.None? ==> r.serviceId == c.serviceId
    ensures p.serviceName.Some? ==> r.serviceName == p.serviceName.value
    ensures p.serviceName.None? ==> r.serviceName == c.serviceName
    ensures p.scheduled.Some? ==> r.scheduled == p.scheduled.value
    ensures p.scheduled.None? ==> r.scheduled == c.scheduled
    ensures p.providerName.Some? ==> r.providerName == p.providerName.value
    ensures p.providerName.None? ==> r.providerName == c.providerName
    ensures p.charges.Some? ==> r.charges == p.charges.value
    ensures p.charges.None? ==> r.charges == c.charges
  {
    CartItem(
      if p.owner.Some? then p.owner.value else c.owner,
      p.serviceId.GetOr(c.serviceId),
      p.serviceName.GetOr(c.serviceName),
      p.scheduled.GetOr(c.scheduled),
      p.providerName.GetOr(c.providerName),
      p.charges.GetOr(c.charges))
  }

  /** `update_scheduled_time`: the caller's own line only (404 otherwise,
      500 for a caller without an owner profile); the patch may rewrite any
      column, and is saved when the owner it names exists, the result fits
      its columns and `accepts` holds, else 400. */
  method UpdateScheduledTime(db: Marketplace, caller: Caller, cartId: Id, patch: CartPatch, accepts: CartPatch -> bool)
    returns (out: Outcome)
    requires db.Valid() && db.Resolves(caller)
    modifies db
    ensures db.Valid()
    ensures caller.owner.None? ==> out == InternalError
    ensures caller.owner.Some? && !(cartId in old(db.tables.carts) && old(db.tables.carts)[cartId].owner == caller.owner.value) ==>
              out == NotFound
    ensures caller.owner.Some? && cartId in old(db.tables.carts) && old(db.tables.carts)[cartId].owner == caller.owner.value ==>
              && (out == Ok <==>
                    && (patch.owner.Some? ==> patch.owner.value >= 0 && patch.owner.value in old(db.tables.owners))
                    && CartFits(ApplyCartPatch(old(db.tables.carts)[cartId], patch))
                    && accepts(patch))
              && (out != Ok ==> out == BadRequest)
    ensures out == Ok ==> patch.owner.Some? ==> patch.owner.value >= 0
    ensures out == Ok ==> db.tables.carts == old(db.tables.carts)[cartId := ApplyCartPatch(old(db.tables.carts)[cartId], patch)]
    ensures out != Ok ==> db.tables.carts == old(db.tables.carts)
    ensures db.tables.(carts := old(db.tables.carts)) == old(db.tables)
    ensures SequencesKept(db)
  {
    if caller.owner.None? {
      return InternalError;
    }
    if cartId !in db.tables.carts || db.tables.carts[cartId].owner != caller.owner.value {
      return NotFound;
    }
    if patch.owner.Some? && !(patch.owner.value >= 0 && patch.owner.value in db.tables.owners) {
      return BadRequest;
    }
    var updated := ApplyCartPatch(db.tables.carts[cartId], patch);
    if !(CartFits(updated) && accepts(patch)) {
      return BadRequest;
    }
    db.tables := db.tables.(carts := db.tables.carts[cartId := updated]);
    out := Ok;
  }

  /** `list_cart_items`: exactly the caller's cart lines. The profile
      lookup is not guarded, so a caller without an owner profile gets
      500. */
  function ListCartItems(db: Marketplace, caller: Caller): (r: Reply<map<Id, CartItem>>)
    reads db
    ensures r.Failure? <==> caller.owner.None?
    ensures r.Failure? ==> r.status == InternalError
    ensures r.Success? ==> forall k :: k in r.value <==> k in db.tables.carts && db.tables.carts[k].owner == caller.owner.value
    ensures r.Success? ==> forall k :: k in r.value ==> r.value[k] == db.tables.carts[k]
  {
    match caller.owner
    case None => Failure(InternalError)
    case Some(id) => Success(Filter(db.tables.carts, (c: CartItem) => c.owner == id))
  }

  // ---------------------------------------------------------------------
  // Orders

  /** No line id occurs twice. */
  predicate Distinct(lines: seq<Id>) {
    forall i, j :: 0 <= i < j < |lines| ==> lines[i] != lines[j]
  }

  /** The lines from position `from` on name distinct rows of the cart
      table `carts`: the first of them is a row, and the others are
      pending in the table without it. */
  predicate Pending(lines: seq<Id>, from: nat, carts: map<Id, CartItem>)
    decreases |lines| - from
  {
    from >= |lines| || (lines[from] in carts && Pending(lines, from + 1, carts - {lines[from]}))
  }

  /** Every pending line names a row of the table. */
  lemma {:induction false} PendingRows(lines: seq<Id>, from: nat, carts: map<Id, CartItem>)
    requires Pending(lines, from, carts)
    ensures forall j :: from <= j < |lines| ==> lines[j] in carts
    decreases |lines| - from
  {
    if from < |lines| {
      PendingRows(lines, from + 1, carts - {lines[from]});
    }
  }

  /** Distinct lines that all name rows of the table are pending. */
  lemma {:induction false} DistinctPending(lines: seq<Id>, from: nat, carts: map<Id, CartItem>)
    requires Distinct(lines) && forall j :: from <= j < |lines| ==> lines[j] in carts
    ensures Pending(lines, from, carts)
    decreases |lines| - from
  {
    if from < |lines| {
      DistinctPending(lines, from + 1, carts - {lines[from]});
    }
  }

  /** Where checkout stops: the tables, the next order id, and whether every
      line went through. */
  datatype Reached = Reached(tables: Tables, next: Id, ok: bool)

  /** The loop of `place_order` over the cart lines `lines` from position
      `from` on, in the order the queryset yields them: each line whose
      order validates is saved as an order under the next id and deleted
      from the cart; the first one that does not stops the loop, leaving the
      lines done so far done and the rest in the cart. */
  function PlaceLines(t: Tables, next: Id, lines: seq<Id>, from: nat, accepts: Order -> bool): (r: Reached)
    requires from <= |lines| && Pending(lines, from, t.carts)
    ensures next <= r.next <= next + (|lines| - from)
    ensures r.ok ==> r.next == next + (|lines| - from)
    decreases |lines| - from
  {
    if from == |lines| then Reached(t, next, true)
    else
      var o := OrderFromCart(t.carts[lines[from]]);
      if !accepts(o) then Reached(t, next, false)
      else PlaceLines(t.(orders := t.orders[next := o], carts := t.carts - {lines[from]}), next + 1, lines, from + 1, accepts)
  }

  /** One accepted line: the rest of the walk goes on from the tables with
      that line checked out. */
  lemma PlaceLinesStep(t: Tables, next: Id, lines: seq<Id>, from: nat, accepts: Order -> bool)
    requires from < |lines| && Pending(lines, from, t.carts)
    requires accepts(OrderFromCart(t.carts[lines[from]]))
    ensures var t' := t.(orders := t.orders[next := OrderFromCart(t.carts[lines[from]])], carts := t.carts - {lines[from]});
            Pending(lines, from + 1, t'.carts)
            && PlaceLines(t, next, lines, from, accepts) == PlaceLines(t', next + 1, lines, from + 1, accepts)
  {
  }

  /** Checkout keeps the tables valid, the order id sequence having moved
      past every order it created. */
  lemma {:induction false} PlaceLinesValid(t: Tables, ns: Id, nc: Id, next: Id, nf: Id, lines: seq<Id>, from: nat,
                                           accepts: Order -> bool)
    requires TablesValid(t, ns, nc, next, nf)
    requires from <= |lines| && Pending(lines, from, t.carts)
    ensures var r := PlaceLines(t, next, lines, from, accepts);
            TablesValid(r.tables, ns, nc, r.next, nf)
    decreases |lines| - from
  {
    if from < |lines| && accepts(OrderFromCart(t.carts[lines[from]])) {
      var k := lines[from];
      CheckoutValid(t, ns, nc, next, nf, k);
      var t' := t.(orders := t.orders[next := OrderFromCart(t.carts[k])], carts := t.carts - {k});
      PlaceLinesValid(t', ns, nc, next + 1, nf, lines, from + 1, accepts);
    }
  }

  /** Where checkout stops: after the `n` lines from `from` on that became
      orders, exactly when the next line is rejected or none is left; so it
      succeeds exactly when every line is accepted. */
  lemma {:induction false} PlaceLinesStops(t: Tables, next: Id, lines: seq<Id>, from: nat, accepts: Order -> bool)
    requires from <= |lines| && Pending(lines, from, t.carts)
    ensures var r := PlaceLines(t, next, lines, from, accepts);
            && next <= r.next <= next + (|lines| - from)
            && (forall j :: from <= j < from + (r.next - next) ==> lines[j] in t.carts && accepts(OrderFromCart(t.carts[lines[j]])))
            && (r.ok <==> from + (r.next - next) == |lines|)
            && (!r.ok ==> lines[from + (r.next - next)] in t.carts && !accepts(OrderFromCart(t.carts[lines[from + (r.next - next)]])))
            && (r.ok <==> forall j :: from <= j < |lines| ==> lines[j] in t.carts && accepts(OrderFromCart(t.carts[lines[j]])))
    decreases |lines| - from
  {
    PendingRows(lines, from, t.carts);
    if from < |lines| && accepts(OrderFromCart(t.carts[lines[from]])) {
      var k := lines[from];
      var t' := t.(orders := t.orders[next := OrderFromCart(t.carts[k])], carts := t.carts - {k});
      PlaceLinesStops(t', next + 1, lines, from + 1, accepts);
      PendingRows(lines, from + 1, t'.carts);
    }
  }

  /** The lines checkout went through left the cart, the lines after them
      and the rows no line names stayed, and every row that stayed is
      untouched. */
  lemma {:induction false} PlaceLinesCarts(t: Tables, next: Id, lines: seq<Id>, from: nat, accepts: Order -> bool)
    requires from <= |lines| && Pending(lines, from, t.carts)
    ensures var r := PlaceLines(t, next, lines, from, accepts);
            && next <= r.next <= next + (|lines| - from)
            && (forall j :: from <= j < from + (r.next - next) ==> lines[j] !in r.tables.carts)
            && (forall j :: from + (r.next - next) <= j < |lines| ==> lines[j] in r.tables.carts)
            && (forall k :: k in t.carts && k !in lines ==> k in r.tables.carts)
            && (forall k :: k in r.tables.carts ==> k in t.carts && r.tables.carts[k] == t.carts[k])
    decreases |lines| - from
  {
    PendingRows(lines, from, t.carts);
    if from < |lines| && accepts(OrderFromCart(t.carts[lines[from]])) {
      var k := lines[from];
      var t' := t.(orders := t.orders[next := OrderFromCart(t.carts[k])], carts := t.carts - {k});
      PlaceLinesCarts(t', next + 1, lines, from + 1, accepts);
    }
  }

  /** The orders checkout leaves are the ones there before, untouched,
      and the ones numbered from `next` up to where it stopped. */
  lemma {:induction false} PlaceLinesKeepsOrders(t: Tables, next: Id, lines: seq<Id>, from: nat, accepts: Order -> bool)
    requires from <= |lines| && Pending(lines, from, t.carts)
    requires forall o :: o in t.orders ==> o < next
    ensures var r := PlaceLines(t, next, lines, from, accepts);
            && next <= r.next
            && (forall o :: o in r.tables.orders <==> o in t.orders || next <= o < r.next)
            && (forall o :: o in t.orders ==> r.tables.orders[o] == t.orders[o])
    decreases |lines| - from
  {
    if from < |lines| && accepts(OrderFromCart(t.carts[lines[from]])) {
      var k := lines[from];
      var t' := t.(orders := t.orders[next := OrderFromCart(t.carts[k])], carts := t.carts - {k});
      PlaceLinesKeepsOrders(t', next + 1, lines, from + 1, accepts);
    }
  }

  /** Checkout numbers its orders in the order of the lines: the line at
      position `j` becomes the order numbered `base + j`, where `base +
      from` is the first id it uses. */
  lemma {:induction false} PlaceLinesNewOrders(t: Tables, next: Id, lines: seq<Id>, from: nat, accepts: Order -> bool,
                                               base: int)
    requires from <= |lines| && Pending(lines, from, t.carts)
    requires forall o :: o in t.orders ==> o < next
    requires next == base + from
    ensures var r := PlaceLines(t, next, lines, from, accepts);
            && next <= r.next <= next + (|lines| - from)
            && (forall j :: from <= j < from + (r.next - next) ==>
                  && base + j in r.tables.orders && lines[j] in t.carts
                  && r.tables.orders[base + j] == OrderFromCart(t.carts[lines[j]]))
    decreases |lines| - from
  {
    PendingRows(lines, from, t.carts);
    if from < |lines| && accepts(OrderFromCart(t.carts[lines[from]])) {
      var k := lines[from];
      var t' := t.(orders := t.orders[next := OrderFromCart(t.carts[k])], carts := t.carts - {k});
      PlaceLinesNewOrders(t', next + 1, lines, from + 1, accepts, base);
      PlaceLinesKeepsOrders(t', next + 1, lines, from + 1, accepts);
      PendingRows(lines, from + 1, t'.carts);
    }
  }

  /** Checkout touches no table but the cart and the orders. */
  lemma {:induction false} PlaceLinesOthers(t: Tables, next: Id, lines: seq<Id>, from: nat, accepts: Order -> bool)
    requires from <= |lines| && Pending(lines, from, t.carts)
    ensures var r := PlaceLines(t, next, lines, from, accepts);
            && r.tables.owners == t.owners && r.tables.providers == t.providers
            && r.tables.services == t.services && r.tables.favorites == t.favorites
    decreases |lines| - from
  {
    if from < |lines| && accepts(OrderFromCart(t.carts[lines[from]])) {
      var k := lines[from];
      var t' := t.(orders := t.orders[next := OrderFromCart(t.carts[k])], carts := t.carts - {k});
      PlaceLinesOthers(t', next + 1, lines, from + 1, accepts);
    }
  }

  /** Checkout over every line of one owner's cart, when it gets through:
      it made one order per line, numbered in the order of the lines, kept
      every order that was there, and left none of the owner's lines in the
      cart. */
  lemma PlaceLinesEmptiesCart(t: Tables, next: Id, lines: seq<Id>, accepts: Order -> bool, owner: Id)
    requires Pending(lines, 0, t.carts)
    requires forall o :: o in t.orders ==> o < next
    requires forall k :: k in t.carts && t.carts[k].owner == owner ==> k in lines
    requires PlaceLines(t, next, lines, 0, accepts).ok
    ensures var r := PlaceLines(t, next, lines, 0, accepts);
            && r.next == next + |lines|
            && (forall k :: k in r.tables.carts ==> r.tables.carts[k].owner != owner)
            && (forall o :: o in r.tables.orders <==> o in t.orders || next <= o < next + |lines|)
            && (forall o :: o in t.orders ==> r.tables.orders[o] == t.orders[o])
            && (forall i :: 0 <= i < |lines| ==>
                  lines[i] in t.carts && r.tables.orders[next + i] == OrderFromCart(t.carts[lines[i]]))
  {
    PlaceLinesStops(t, next, lines, 0, accepts);
    PlaceLinesCarts(t, next, lines, 0, accepts);
    PlaceLinesKeepsOrders(t, next, lines, 0, accepts);
    PlaceLinesNewOrders(t, next, lines, 0, accepts, next);
  }

  /** Checkout over a cart line by line, saving each order and deleting
      its line as it goes: the state it leaves, and whether it got through
      every line, are what `PlaceLines` says. */
  method ConvertLines(db: Marketplace, lines: seq<Id>, accepts: Order -> bool) returns (ok: bool)
    requires db.Valid() && Pending(lines, 0, db.tables.carts)
    modifies db
    ensures db.Valid()
    ensures Reached(db.tables, db.nextOrderId, ok) == PlaceLines(old(db.tables), old(db.nextOrderId), lines, 0, accepts)
    ensures db.nextServiceId == old(db.nextServiceId) && db.nextCartId == old(db.nextCartId)
    ensures db.nextFavoriteId == old(db.nextFavoriteId)
  {
    ok := true;
    ghost var goal := PlaceLines(db.tables, db.nextOrderId, lines, 0, accepts);
    var i := 0;
    while i < |lines|
      invariant i <= |lines|
      invariant db.Valid() && Pending(lines, i, db.tables.carts)
      invariant PlaceLines(db.tables, db.nextOrderId, lines, i, accepts) == goal
      invariant db.nextServiceId == old(db.nextServiceId) && db.nextCartId == old(db.nextCartId)
      invariant db.nextFavoriteId == old(db.nextFavoriteId)
    {
      var k := lines[i];
      // The order fits its columns because the line did (`OrderFromCart`),
      // so only the checks behind `accepts` can reject it.
      if !accepts(OrderFromCart(db.tables.carts[k])) {
        return false;
      }
      PlaceLinesStep(db.tables, db.nextOrderId, lines, i, accepts);
      var id := db.CheckoutLine(k);
      i := i + 1;
    }
  }

  /** `place_order`. A caller without an owner profile gets 404, an empty
      cart 400 with nothing created. Otherwise the caller's cart lines,
      listed once each in the order the queryset yields them (`lines`), go
      through checkout: 201 when every one became an order and the cart is
      empty, 400 at the first order that does not validate, the orders
      saved before it staying saved. */
  method PlaceOrder(db: Marketplace, caller: Caller, accepts: Order -> bool)
    returns (out: Outcome, ghost lines: seq<Id>)
    requires db.Valid() && db.Resolves(caller)
    modifies db
    ensures db.Valid()
    ensures out == Ok || out == BadRequest || out == NotFound
    ensures out == NotFound <==> caller.owner.None?
    ensures caller.owner.None? ==> lines == [] && unchanged(db)
    ensures caller.owner.Some? ==> Distinct(lines) && Pending(lines, 0, old(db.tables.carts))
    ensures caller.owner.Some? ==>
              forall i :: 0 <= i < |lines| ==> lines[i] in old(db.tables.carts) && old(db.tables.carts)[lines[i]].owner == caller.owner.value
    ensures caller.owner.Some? ==> forall k :: k in old(db.CartIds(caller.owner.value)) ==> k in lines
    ensures caller.owner.Some? && lines == [] ==> out == BadRequest && unchanged(db)
    ensures caller.owner.Some? && lines != [] ==>
              Reached(db.tables, db.nextOrderId, out == Ok) == PlaceLines(old(db.tables), old(db.nextOrderId), lines, 0, accepts)
    ensures db.nextServiceId == old(db.nextServiceId) && db.nextCartId == old(db.nextCartId)
    ensures db.nextFavoriteId == old(db.nextFavoriteId)
  {
    lines := [];
    if caller.owner.None? {
      return NotFound, lines;
    }
    var owner := caller.owner.value;
    var items, ids := Collect(db.tables.carts, (c: CartItem) => c.owner == owner, (k: Id, c: CartItem) => k);
    assert items == ids;
    DistinctPending(items, 0, db.tables.carts);
    lines := items;
    if |items| == 0 {
      return BadRequest, lines;
    }
    var ok := ConvertLines(db, items, accepts);
    out := if ok then Ok else BadRequest;
  }

  /** `view_order_status`: the order when it is the caller's, else 404
      (also for a caller without an owner profile). */
  function ViewOrderStatus(db: Marketplace, caller: Caller, orderId: Id): (r: Reply<Order>)
    reads db
    ensures r.Success? <==> caller.owner.Some? && orderId in db.tables.orders && db.tables.orders[orderId].owner == caller.owner.value
    ensures r.Success? ==> r.value == db.tables.orders[orderId]
    ensures r.Failure? ==> r.status == NotFound
  {
    if caller.owner.Some? && orderId in db.tables.orders && db.tables.orders[orderId].owner == caller.owner.value
    then Success(db.tables.orders[orderId])
    else Failure(NotFound)
  }

  /** `cancel_order`: the caller's own order only (404 otherwise); a
      `Placed` order becomes `Cancelled`, any other status is refused with
      400 and the order stays as it was. */
  method CancelOrder(db: Marketplace, caller: Caller, orderId: Id) returns (out: Outcome)
    requires db.Valid() && db.Resolves(caller)
    modifies db
    ensures db.Valid()
    ensures out == NotFound <==> old(ViewOrderStatus(db, caller, orderId)).Failure?
    ensures out == Ok <==> old(ViewOrderStatus(db, caller, orderId)).Success? && old(db.tables.orders)[orderId].status == Placed
    ensures out == Ok || out == BadRequest || out == NotFound
    ensures out == Ok ==> db.tables.orders == old(db.tables.orders)[orderId := Cancel(old(db.tables.orders)[orderId]).value]
    ensures out != Ok ==> db.tables.orders == old(db.tables.orders)
    ensures db.tables.(orders := old(db.tables.orders)) == old(db.tables)
    ensures SequencesKept(db)
  {
    if ViewOrderStatus(db, caller, orderId).Failure? {
      return NotFound;
    }
    var cancelled := Cancel(db.tables.orders[orderId]);
    if cancelled.None? {
      return BadRequest;
    }
    db.tables := db.tables.(orders := db.tables.orders[orderId := cancelled.value]);
    out := Ok;
  }

  /** Cancelling the same order twice: the second call is refused and
      leaves the orders as the first call left them. */
  method CancelTwice(db: Marketplace, caller: Caller, orderId: Id) returns (first: Outcome, second: Outcome)
    requires db.Valid() && db.Resolves(caller)
    modifies db
    ensures first == Ok ==> second == BadRequest
    ensures first == Ok ==> orderId in db.tables.orders && db.tables.orders[orderId].status == Cancelled
  {
    first := CancelOrder(db, caller, orderId);
    if first == Ok {
      CancelTwiceFails(old(db.tables.orders)[orderId]);
    }
    second := CancelOrder(db, caller, orderId);
  }

  /** The characters Python's `str.strip` removes: those `str.isspace`
      accepts. */
  predicate IsPySpace(c: char) {
    var v := c as int;
    || 0x09 <= v <= 0x0D || 0x1C <= v <= 0x20
    || v == 0x85 || v == 0xA0 || v == 0x1680
    || 0x2000 <= v <= 0x200A || v == 0x2028 || v == 0x2029
    || v == 0x202F || v == 0x205F || v == 0x3000
  }

  /** Leading whitespace removed: a suffix of the input, everything before
      it whitespace, and nothing left to remove. */
  function TrimStart(s: string): (r: string)
    ensures |r| <= |s| && r == s[|s| - |r|..]
    ensures forall i :: 0 <= i < |s| - |r| ==> IsPySpace(s[i])
    ensures r == [] || !IsPySpace(r[0])
  {
    if s != [] && IsPySpace(s[0]) then TrimStart(s[1..]) else s
  }

  /** Trailing whitespace removed: a prefix of the input, everything after
      it whitespace, and nothing left to remove. */
  function TrimEnd(s: string): (r: string)
    ensures |r| <= |s| && r == s[..|r|]
    ensures forall i :: |r| <= i < |s| ==> IsPySpace(s[i])
    ensures r == [] || !IsPySpace(r[|r| - 1])
  {
    if s != [] && IsPySpace(s[|s| - 1]) then TrimEnd(s[..|s| - 1]) else s
  }

  /** `r` is the slice of `s` starting at `i`, and everything of `s`
      before and after it is whitespace. */
  predicate CutAt(s: string, r: string, i: nat) {
    && i + |r| <= |s| && r == s[i..i + |r|]
    && (forall k :: 0 <= k < i ==> IsPySpace(s[k]))
    && (forall k :: i + |r| <= k < |s| ==> IsPySpace(s[k]))
  }

  /** `str.strip()`: a slice of the input with only whitespace cut off on
      either side, and neither end of it whitespace. */
  function Strip(s: string): (r: string)
    ensures r == [] || (!IsPySpace(r[0]) && !IsPySpace(r[|r| - 1]))
    ensures exists i :: CutAt(s, r, i)
  {
    TrimBoth(s);
    TrimEnd(TrimStart(s))
  }

  /** Trimming the front and then the back cuts the input at the point
      where the leading whitespace ends. */
  lemma TrimBoth(s: string)
    ensures CutAt(s, TrimEnd(TrimStart(s)), |s| - |TrimStart(s)|)
  {
    var t := TrimStart(s);
    CutCompose(s, t, TrimEnd(t), |s| - |t|);
  }

  /** Cutting whitespace off the front of `s` (giving `t`) and then off the
      back of `t` (giving `r`) cuts `s` at `i`. */
  lemma CutCompose(s: string, t: string, r: string, i: nat)
    requires i <= |s| && t == s[i..] && forall k :: 0 <= k < i ==> IsPySpace(s[k])
    requires |r| <= |t| && r == t[..|r|] && forall k :: |r| <= k < |t| ==> IsPySpace(t[k])
    ensures CutAt(s, r, i)
  {
    forall k | i + |r| <= k < |s|
      ensures IsPySpace(s[k])
    {
      assert s[k] == t[k - i];
    }
  }

  /** Lower case of a letter of the ASCII alphabet; every other character
      is its own lower case here. */
  function LowerChar(c: char): (r: char)
    ensures 'A' <= c <= 'Z' ==> 'a' <= r <= 'z' && r as int - 'a' as int == c as int - 'A' as int
    ensures !('A' <= c <= 'Z') ==> r == c
  {
    if 'A' <= c <= 'Z' then (c as int - 'A' as int + 'a' as int) as char else c
  }

  function Lower(s: string): (r: string)
    ensures |r| == |s|
    ensures forall i :: 0 <= i < |s| ==> r[i] == LowerChar(s[i])
  {
    if s == [] then [] else [LowerChar(s[0])] + Lower(s[1..])
  }

  /** Lowering twice is lowering once: the handler lowers the query and
      the case-insensitive lookup lowers it again. */
  lemma LowerIdempotent(s: string)
    ensures Lower(Lower(s)) == Lower(s)
  {
  }

  /** `needle` occurs in `hay` at some position. */
  predicate Contains(hay: string, needle: string) {
    exists i :: 0 <= i <= |hay| && needle <= hay[i..]
  }

  /** The text of `service_name` the handler searches for. */
  function Needle(query: Option<string>): string {
    Lower(Strip(query.GetOr("")))
  }

  /** `service_name__icontains`: the name contains the needle, both
      compared in lower case. */
  predicate Matches(o: Order, needle: string) {
    Contains(Lower(o.serviceName), Lower(needle))
  }

  /** An owner's orders whose service name contains `needle`, ignoring
      case (`filter(owner=..., service_name__icontains=...)`). */
  function OrdersMatching(db: Marketplace, owner: Id, needle: string): (r: map<Id, Order>)
    reads db
    ensures forall k :: k in r <==> k in db.tables.orders && db.tables.orders[k].owner == owner && Matches(db.tables.orders[k], needle)
    ensures forall k :: k in r ==> r[k] == db.tables.orders[k]
  {
    Filter(db.tables.orders, (o: Order) => o.owner == owner && Matches(o, needle))
  }

  /** `search_orders`: the caller's orders whose service name contains the
      stripped query, ignoring case; 404 when there are none, and 500 for a
      caller without an owner profile (the lookup is not guarded). */
  function SearchOrders(db: Marketplace, caller: Caller, query: Option<string>): (r: Reply<map<Id, Order>>)
    reads db
    ensures caller.owner.None? ==> r == Failure(InternalError)
    ensures caller.owner.Some? && r.Failure? ==> r.status == NotFound
    ensures caller.owner.Some? ==>
              (r.Failure? <==> forall k :: k in db.tables.orders && db.tables.orders[k].owner == caller.owner.value ==>
                                 !Matches(db.tables.orders[k], Needle(query)))
    ensures r.Success? ==> forall k :: k in r.value <==>
              k in db.tables.orders && db.tables.orders[k].owner == caller.owner.value && Matches(db.tables.orders[k], Needle(query))
    ensures r.Success? ==> forall k :: k in r.value ==> r.value[k] == db.tables.orders[k]
  {
    match caller.owner
    case None => Failure(InternalError)
    case Some(id) =>
      var found := OrdersMatching(db, id, Needle(query));
      if found == map[] then
        assert forall k :: k in db.tables.orders && db.tables.orders[k].owner == id ==> !Matches(db.tables.orders[k], Needle(query)) by {
          forall k | k in db.tables.orders && db.tables.orders[k].owner == id
            ensures !Matches(db.tables.orders[k], Needle(query))
          {
            assert k !in found;
          }
        }
        Failure(NotFound)
      else
        Success(found)
  }

  /** All orders of an owner (`Order.objects.filter(owner=owner)`). */
  function OrdersOf(db: Marketplace, owner: Id): (r: map<Id, Order>)
    reads db
    ensures forall k :: k in r <==> k in db.tables.orders && db.tables.orders[k].owner == owner
    ensures forall k :: k in r ==> r[k] == db.tables.orders[k]
  {
    Filter(db.tables.orders, (o: Order) => o.owner == owner)
  }

  /** `view_all_orders`: the caller's orders, 404 for a caller without an
      owner profile. */
  function ViewAllOrders(db: Marketplace, caller: Caller): (r: Reply<map<Id, Order>>)
    reads db
    ensures r.Failure? <==> caller.owner.None?
    ensures r.Failure? ==> r.status == NotFound
    ensures r.Success? ==> forall k :: k in r.value <==> k in db.tables.orders && db.tables.orders[k].owner == caller.owner.value
    ensures r.Success? ==> forall k :: k in r.value ==> r.value[k] == db.tables.orders[k]
  {
    match caller.owner
    case None => Failure(NotFound)
    case Some(id) => Success(OrdersOf(db, id))
  }

  /** An empty needle occurs in every service name. */
  lemma EmptyNeedleMatches(o: Order)
    ensures Matches(o, [])
  {
    var h := Lower(o.serviceName);
    assert Lower([]) <= h[0..];
  }

  /** A query that is absent or only whitespace searches for nothing. */
  lemma BlankQueryNeedle(query: Option<string>)
    requires query.None? || Strip(query.value) == []
    ensures Needle(query) == []
  {
  }

  /** The empty needle matches every order of the owner. */
  lemma {:induction false} EmptyNeedleMatchesAll(db: Marketplace, owner: Id)
    ensures OrdersMatching(db, owner, []) == OrdersOf(db, owner)
  {
    var all := OrdersOf(db, owner);
    var found := OrdersMatching(db, owner, []);
    forall k | k in db.tables.orders
      ensures Matches(db.tables.orders[k], [])
    {
      EmptyNeedleMatches(db.tables.orders[k]);
    }
    assert found.Keys == all.Keys;
  }

  /** Searching for the empty needle finds every order of the caller,
      and is 404 exactly when the caller has none. */
  lemma EmptyNeedleSearch(db: Marketplace, caller: Caller, query: Option<string>)
    requires caller.owner.Some? && Needle(query) == []
    ensures SearchOrders(db, caller, query)
            == var all := OrdersOf(db, caller.owner.value); if all == map[] then Failure(NotFound) else Success(all)
  {
    EmptyNeedleMatchesAll(db, caller.owner.value);
  }

  /** A search whose needle is empty (by BlankQueryNeedle, any absent or
      blank query) finds every order of the caller: it answers what
      `view_all_orders` answers, except that no orders at all is 404 rather
      than an empty list. */
  lemma BlankSearchListsAll(db: Marketplace, caller: Caller, query: Option<string>)
    requires caller.owner.Some?
    requires Needle(query) == []
    ensures SearchOrders(db, caller, query)
            == if ViewAllOrders(db, caller).value == map[] then Failure(NotFound) else ViewAllOrders(db, caller)
  {
    EmptyNeedleSearch(db, caller, query);
  }

  // ---------------------------------------------------------------------
  // Reviews

  /** `add_review` (the handler): 404 for an unknown service; 400 when the
      body has no `review` or an empty one; 500 when the stored list does
      not decode; otherwise the review is appended to the decoded list and
      the list is written back. Any authenticated caller may review. */
  method AddReview(db: Marketplace, serviceId: Id, review: Option<string>) returns (out: Outcome)
    requires db.Valid()
    modifies db
    ensures db.Valid()
    ensures out == Ok || out == BadRequest || out == NotFound || out == InternalError
    ensures out == NotFound <==> serviceId !in old(db.tables.services)
    ensures serviceId in old(db.tables.services) ==>
              && (out == BadRequest <==> review.None? || review.value == "")
              && (out == InternalError <==>
                    review.Some? && review.value != "" && GetReviews(old(db.tables.services)[serviceId]).None?)
    ensures out == Ok ==>
              && serviceId in old(db.tables.services) && serviceId in db.tables.services && review.Some?
              && GetReviews(db.tables.services[serviceId]) == Some(GetReviews(old(db.tables.services)[serviceId]).value + [review.value])
              && db.tables.services[serviceId].(reviews := old(db.tables.services)[serviceId].reviews) == old(db.tables.services)[serviceId]
              && db.tables.services == old(db.tables.services)[serviceId := db.tables.services[serviceId]]
    ensures out != Ok ==> db.tables.services == old(db.tables.services)
    ensures db.tables.(services := old(db.tables.services)) == old(db.tables)
    ensures SequencesKept(db)
  {
    if serviceId !in db.tables.services {
      return NotFound;
    }
    if review.None? || review.value == "" {
      return BadRequest;
    }
    var saved := db.SaveReview(serviceId, review.value);
    out := if saved then Ok else InternalError;
  }

  // ---------------------------------------------------------------------
  // Favorites

  /** `add_service_to_favorites`: the same body checks and lookups as
      adding to the cart; the new favorite copies the service's name and
      its provider's name as they are now. */
  method AddServiceToFavorites(db: Marketplace, caller: Caller, body: ServiceRequest, accepts: Favorite -> bool)
    returns (out: Outcome, favoriteId: Id)
    requires db.Valid() && db.Resolves(caller)
    modifies db
    ensures db.Valid()
    ensures !body.Object? || body.serviceId.None? ==> out == BadRequest
    ensures body.Object? && body.serviceId.Some? && !old(NamesService(db, body)) ==> out == NotFound
    ensures old(NamesService(db, body)) && caller.owner.None? ==> out == InternalError
    ensures old(NamesService(db, body)) && caller.owner.Some? ==>
              var s := old(db.tables.services)[body.serviceId.value];
              var row := Favorite(caller.owner.value, s.serviceName, old(db.tables.providers)[s.provider].name);
              && (out == Ok <==> FavoriteFits(row) && accepts(row))
              && (out == Ok ==> favoriteId !in old(db.tables.favorites) && db.tables.favorites == old(db.tables.favorites)[favoriteId := row])
              && (out != Ok ==> out == BadRequest)
    ensures out != Ok ==> db.tables.favorites == old(db.tables.favorites)
    ensures db.tables.(favorites := old(db.tables.favorites)) == old(db.tables)
    ensures db.nextServiceId == old(db.nextServiceId) && db.nextCartId == old(db.nextCartId)
    ensures db.nextOrderId == old(db.nextOrderId)
  {
    favoriteId := 0;
    if !body.Object? || body.serviceId.None? {
      return BadRequest, favoriteId;
    }
    var sid := body.serviceId.value;
    if sid !in db.tables.services {
      return NotFound, favoriteId;
    }
    var service := db.tables.services[sid];
    var provider := db.tables.providers[service.provider];
    if caller.owner.None? {
      return InternalError, favoriteId;
    }
    var row := Favorite(caller.owner.value, service.serviceName, provider.name);
    if !(FavoriteFits(row) && accepts(row)) {
      return BadRequest, favoriteId;
    }
    favoriteId := db.nextFavoriteId;
    db.tables := db.tables.(favorites := db.tables.favorites[favoriteId := row]);
    db.nextFavoriteId := favoriteId + 1;
    out := Ok;
  }

  /** `list_favorite_items`: exactly the caller's favorites; the catch-all
      answers 500 for a caller without an owner profile. */
  function ListFavoriteItems(db: Marketplace, caller: Caller): (r: Reply<map<Id, Favorite>>)
    reads db
    ensures r.Failure? <==> caller.owner.None?
    ensures r.Failure? ==> r.status == InternalError
    ensures r.Success? ==> forall k :: k in r.value <==> k in db.tables.favorites && db.tables.favorites[k].owner == caller.owner.value
    ensures r.Success? ==> forall k :: k in r.value ==> r.value[k] == db.tables.favorites[k]
  {
    match caller.owner
    case None => Failure(InternalError)
    case Some(id) => Success(Filter(db.tables.favorites, (f: Favorite) => f.owner == id))
  }

  /** `delete_favorite`: removed only when it exists and is the caller's,
      else 404; the profile lookup escapes the handler's `except`, so a
      caller without an owner profile gets 500. */
  method DeleteFavorite(db: Marketplace, caller: Caller, favoriteId: Id) returns (out: Outcome)
    requires db.Valid() && db.Resolves(caller)
    modifies db
    ensures db.Valid()
    ensures caller.owner.None? ==> out == InternalError
    ensures caller.owner.Some? ==>
              (out == Ok <==> favoriteId in old(db.tables.favorites) && old(db.tables.favorites)[favoriteId].owner == caller.owner.value)
              && (out != Ok ==> out == NotFound)
    ensures out == Ok ==> db.tables.favorites == old(db.tables.favorites) - {favoriteId}
    ensures out != Ok ==> db.tables.favorites == old(db.tables.favorites)
    ensures db.tables.(favorites := old(db.tables.favorites)) == old(db.tables)
    ensures SequencesKept(db)
  {
    if caller.owner.None? {
      return InternalError;
    }
    if favoriteId !in db.tables.favorites || db.tables.favorites[favoriteId].owner != caller.owner.value {
      return NotFound;
    }
    db.tables := db.tables.(favorites := db.tables.favorites - {favoriteId});
    out := Ok;
  }
}
