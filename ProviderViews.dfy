/** The provider-facing request handlers: creating, listing, updating and
    deleting services, the orders placed for a provider's services, order
    status updates, and the promotion flags. */
module ProviderViews {
  import opened Common
  import opened OwnerModels
  import opened ProviderModels
  import opened Store

  /** `provider_profile`: the caller's own provider profile, or 404 for a
      caller who has none. */
  function ProviderProfile(db: Marketplace, caller: Caller): (r: Reply<ServiceProvider>)
    reads db
    requires db.Resolves(caller)
    ensures r.Failure? <==> caller.provider.None?
    ensures r.Failure? ==> r.status == NotFound
    ensures r.Success? ==> r.value == db.tables.providers[caller.provider.value]
  {
    match caller.provider
    case None => Failure(NotFound)
    case Some(id) => Success(db.tables.providers[id])
  }

  // ---------------------------------------------------------------------
  // Services

  /** The writable fields of the service serializer; `None` is a field the
      request body does not mention. */
  datatype ServicePatch = ServicePatch(
    serviceName: Option<string>,
    description: Option<string>,
    price: Option<int>,
    provider: Option<int>,
    isDealOfTheDay: Option<bool>,
    isTodaysSpecial: Option<bool>,
    reviews: Option<string>)

  /** A partial update of a service row. */
  function ApplyServicePatch(s: Service, p: ServicePatch): (r: Service)
    requires p.provider.Some? ==> p.provider.value >= 0
    ensures p.serviceName.Some? ==> r.serviceName == p.serviceName.value
    ensures p.serviceName.None? ==> r.serviceName == s.serviceName
    ensures p.description.Some? ==> r.description == p.description.value
    ensures p.description.None? ==> r.description == s.description
    ensures p.price.Some? ==> r.price == p.price.value
    ensures p.price.None? ==> r.price == s.price
    ensures p.provider.Some? ==> r.provider == p.provider.value
    ensures p.provider.None? ==> r.provider == s.provider
    ensures p.isDealOfTheDay.Some? ==> r.isDealOfTheDay == p.isDealOfTheDay.value
    ensures p.isDealOfTheDay.None? ==> r.isDealOfTheDay == s.isDealOfTheDay
    ensures p.isTodaysSpecial.Some? ==> r.isTodaysSpecial == p.isTodaysSpecial.value
    ensures p.isTodaysSpecial.None? ==> r.isTodaysSpecial == s.isTodaysSpecial
    ensures p.reviews.Some? ==> r.reviews == p.reviews.value
    ensures p.reviews.None? ==> r.reviews == s.reviews
  {
    Service(
      if p.provider.Some? then p.provider.value else s.provider,
      p.price.GetOr(s.price),
      p.description.GetOr(s.description),
      p.serviceName.GetOr(s.serviceName),
      p.reviews.GetOr(s.reviews),
      p.isTodaysSpecial.GetOr(s.isTodaysSpecial),
      p.isDealOfTheDay.GetOr(s.isDealOfTheDay))
  }

  /** Filling in the current provider when the body leaves it out does not
      change the row the update produces. */
  lemma KeepProviderHarmless(s: Service, p: ServicePatch)
    requires p.provider.None?
    ensures ApplyServicePatch(s, p.(provider := Some(s.provider))) == ApplyServicePatch(s, p)
  {
  }

  /** Applying the same patch twice is applying it once. */
  lemma ServicePatchIdempotent(s: Service, p: ServicePatch)
    requires p.provider.Some? ==> p.provider.value >= 0
    ensures ApplyServicePatch(ApplyServicePatch(s, p), p) == ApplyServicePatch(s, p)
  {
  }

  /** What the service serializer checks of a partial update of `s`: a
      named provider exists, the resulting row fits its columns, and
      `accepts` holds of the data. */
  predicate PatchAcceptable(db: Marketplace, s: Service, p: ServicePatch, accepts: ServicePatch -> bool)
    reads db
  {
    && (p.provider.Some? ==> p.provider.value >= 0 && p.provider.value in db.tables.providers)
    && ServiceFits(ApplyServicePatch(s, p))
    && accepts(p)
  }

  /** `create_service`. The provider is always the caller's own profile,
      whatever the body says; a caller without one makes the handler fail
      with 500. The name, description and price are required (400 when one
      is missing); the flags default to false and the review list to
      empty. */
  method CreateService(db: Marketplace, caller: Caller, body: ServicePatch, accepts: ServicePatch -> bool)
    returns (out: Outcome, serviceId: Id)
    requires db.Valid() && db.Resolves(caller)
    modifies db
    ensures db.Valid()
    ensures out == InternalError <==> caller.provider.None?
    ensures caller.provider.Some? && (body.serviceName.None? || body.description.None? || body.price.None?) ==>
              out == BadRequest
    ensures caller.provider.Some? && body.serviceName.Some? && body.description.Some? && body.price.Some? ==>
              var row := Service(caller.provider.value, body.price.value, body.description.value, body.serviceName.value,
                                 body.reviews.GetOr(EmptyReviews), body.isTodaysSpecial.GetOr(false),
                                 body.isDealOfTheDay.GetOr(false));
              && (out == Ok <==> ServiceFits(row) && accepts(body.(provider := Some(caller.provider.value))))
              && (out == Ok ==> serviceId !in old(db.tables.services) && db.tables.services == old(db.tables.services)[serviceId := row])
              && (out != Ok ==> out == BadRequest)
    ensures out == Ok ==> db.tables.services[serviceId].provider == caller.provider.value
    ensures out == Ok && body.reviews.None? && body.isTodaysSpecial.None? && body.isDealOfTheDay.None? ==>
              db.tables.services[serviceId] == NewService(caller.provider.value, body.price.value, body.description.value, body.serviceName.value)
    ensures out != Ok ==> db.tables.services == old(db.tables.services)
    ensures db.tables.(services := old(db.tables.services)) == old(db.tables)
    ensures db.nextCartId == old(db.nextCartId) && db.nextOrderId == old(db.nextOrderId)
    ensures db.nextFavoriteId == old(db.nextFavoriteId)
  {
    serviceId := 0;
    if caller.provider.None? {
      return InternalError, serviceId;
    }
    var data := body.(provider := Some(caller.provider.value));
    if data.serviceName.None? || data.description.None? || data.price.None? {
      return BadRequest, serviceId;
    }
    var row := Service(caller.provider.value, data.price.value, data.description.value, data.serviceName.value,
                       data.reviews.GetOr(EmptyReviews), data.isTodaysSpecial.GetOr(false), data.isDealOfTheDay.GetOr(false));
    if !(ServiceFits(row) && accepts(data)) {
      return BadRequest, serviceId;
    }
    serviceId := db.nextServiceId;
    db.tables := db.tables.(services := db.tables.services[serviceId := row]);
    db.nextServiceId := serviceId + 1;
    out := Ok;
  }

  /** A flag as a listing shows it: the boolean itself, or `"Yes"`/`"No"`. */
  datatype Flag = Bool(b: bool) | Text(t: string)

  function YesNo(b: bool): (f: Flag)
    ensures f.Text? && (f.t == "Yes" <==> b) && (f.t == "No" <==> !b)
  {
    Text(if b then "Yes" else "No")
  }

  /** One entry of a service listing. */
  datatype ServiceView = ServiceView(
    serviceId: Id,
    serviceName: string,
    description: string,
    price: int,
    providerName: Option<string>,
    isDealOfTheDay: Flag,
    isTodaysSpecial: Flag,
    reviews: string)

  /** The entry for service `k`: the provider's name when the provider
      exists (`None` otherwise), the flags as booleans or as `"Yes"`/`"No"`. */
  function RenderService(providers: map<Id, ServiceProvider>, asText: bool, k: Id, s: Service): ServiceView {
    ServiceView(k, s.serviceName, s.description, s.price,
                if s.provider in providers then Some(providers[s.provider].name) else None,
                if asText then YesNo(s.isDealOfTheDay) else Bool(s.isDealOfTheDay),
                if asText then YesNo(s.isTodaysSpecial) else Bool(s.isTodaysSpecial),
                s.reviews)
  }

  /** `list_services`: one entry per service, each service exactly once,
      flags as booleans, with its provider's name. */
  method ListServices(db: Marketplace) returns (rows: seq<ServiceView>, ghost ids: seq<Id>)
    requires db.Valid()
    ensures |rows| == |ids|
    ensures forall k :: k in db.tables.services <==> k in ids
    ensures forall i, j :: 0 <= i < j < |ids| ==> ids[i] != ids[j]
    ensures forall i :: 0 <= i < |ids| ==>
              var s := db.tables.services[ids[i]];
              && rows[i].serviceId == ids[i]
              && rows[i].serviceName == s.serviceName && rows[i].description == s.description
              && rows[i].price == s.price && rows[i].reviews == s.reviews
              && rows[i].providerName == Some(db.tables.providers[s.provider].name)
              && rows[i].isDealOfTheDay == Bool(s.isDealOfTheDay)
              && rows[i].isTodaysSpecial == Bool(s.isTodaysSpecial)
  {
    var providers := db.tables.providers;
    rows, ids := Collect(db.tables.services, (s: Service) => true, (k: Id, s: Service) => RenderService(providers, false, k, s));
  }

  /** `list_services_for_provider`: 403 for a caller without a provider
      profile; otherwise one entry for each of the caller's services and no
      other, flags shown as `"Yes"`/`"No"`. */
  method ListServicesForProvider(db: Marketplace, caller: Caller)
    returns (out: Outcome, rows: seq<ServiceView>, ghost ids: seq<Id>)
    requires db.Valid() && db.Resolves(caller)
    ensures out == Forbidden <==> caller.provider.None?
    ensures out == Ok || out == Forbidden
    ensures out == Forbidden ==> rows == []
    ensures |rows| == |ids|
    ensures out == Ok ==> forall k :: k in ids <==> k in db.tables.services && db.tables.services[k].provider == caller.provider.value
    ensures forall i, j :: 0 <= i < j < |ids| ==> ids[i] != ids[j]
    ensures forall i :: 0 <= i < |ids| ==>
              var s := db.tables.services[ids[i]];
              && rows[i].serviceId == ids[i]
              && rows[i].serviceName == s.serviceName && rows[i].description == s.description
              && rows[i].price == s.price && rows[i].reviews == s.reviews
              && rows[i].providerName == Some(db.tables.providers[caller.provider.value].name)
              && rows[i].isDealOfTheDay == YesNo(s.isDealOfTheDay)
              && rows[i].isTodaysSpecial == YesNo(s.isTodaysSpecial)
  {
    if caller.provider.None? {
      return Forbidden, [], [];
    }
    var me := caller.provider.value;
    var providers := db.tables.providers;
    rows, ids := Collect(db.tables.services, (s: Service) => s.provider == me,
                         (k: Id, s: Service) => RenderService(providers, true, k, s));
    out := Ok;
  }

  /** `get_service`: the row, or 404. */
  function GetService(db: Marketplace, serviceId: Id): (r: Reply<Service>)
    reads db
    ensures r.Success? <==> serviceId in db.tables.services
    ensures r.Success? ==> r.value == db.tables.services[serviceId]
    ensures r.Failure? ==> r.status == NotFound
  {
    if serviceId in db.tables.services then Success(db.tables.services[serviceId]) else Failure(NotFound)
  }

  /** `update_service`: 404 for an unknown id; the current provider is
      filled in when the body leaves it out; the validated partial update
      is saved, else 400. There is no caller: any authenticated user may
      update any service. */
  method UpdateService(db: Marketplace, serviceId: Id, patch: ServicePatch, accepts: ServicePatch -> bool)
    returns (out: Outcome)
    requires db.Valid()
    modifies db
    ensures db.Valid()
    ensures out == NotFound <==> serviceId !in old(db.tables.services)
    ensures serviceId in old(db.tables.services) ==>
              var s := old(db.tables.services)[serviceId];
              var data := if patch.provider.None? then patch.(provider := Some(s.provider)) else patch;
              && (out == Ok <==> old(PatchAcceptable(db, s, data, accepts)))
              && (out != Ok ==> out == BadRequest)
    ensures out == Ok ==> patch.provider.Some? ==> patch.provider.value >= 0
    ensures out == Ok ==> db.tables.services == old(db.tables.services)[serviceId := ApplyServicePatch(old(db.tables.services)[serviceId], patch)]
    ensures out == Ok ==> (serviceId in DealsOfTheDay(db) <==> (patch.isDealOfTheDay == Some(true) || (patch.isDealOfTheDay.None? && old(db.tables.services)[serviceId].isDealOfTheDay)))
    ensures out == Ok ==> (serviceId in TodaysSpecials(db) <==> (patch.isTodaysSpecial == Some(true) || (patch.isTodaysSpecial.None? && old(db.tables.services)[serviceId].isTodaysSpecial)))
    ensures out != Ok ==> db.tables.services == old(db.tables.services)
    ensures db.tables.(services := old(db.tables.services)) == old(db.tables)
    ensures SequencesKept(db)
  {
    if serviceId !in db.tables.services {
      return NotFound;
    }
    var s := db.tables.services[serviceId];
    var data := patch;
    if patch.provider.None? {
      data := patch.(provider := Some(s.provider));
      KeepProviderHarmless(s, patch);
    }
    if !PatchAcceptable(db, s, data, accepts) {
      return BadRequest;
    }
    ServiceWriteValid(db.tables, db.nextServiceId, db.nextCartId, db.nextOrderId, db.nextFavoriteId,
                      serviceId, ApplyServicePatch(s, data));
    db.tables := db.tables.(services := db.tables.services[serviceId := ApplyServicePatch(s, data)]);
    out := Ok;
  }

  /** `delete_service`: 404 and nothing changes for an unknown id;
      otherwise the service is removed, whoever asks. Cart lines and orders
      keep the service id as a plain number and stay. */
  method DeleteService(db: Marketplace, serviceId: Id) returns (out: Outcome)
    requires db.Valid()
    modifies db
    ensures db.Valid()
    ensures out == Ok <==> serviceId in old(db.tables.services)
    ensures out != Ok ==> out == NotFound
    ensures db.tables.services == old(db.tables.services) - {serviceId}
    ensures db.tables.(services := old(db.tables.services)) == old(db.tables)
    ensures SequencesKept(db)
  {
    if serviceId !in db.tables.services {
      return NotFound;
    }
    db.tables := db.tables.(services := db.tables.services - {serviceId});
    out := Ok;
  }

  // ---------------------------------------------------------------------
  // Orders

  /** One entry of the provider's order listing, with the name of the
      owner who placed the order. */
  datatype OrderView = OrderView(
    orderId: Id,
    ownerName: string,
    serviceId: int,
    serviceName: string,
    scheduled: Instant,
    providerName: string,
    charges: int,
    status: Status)

  function RenderOrder(owners: map<Id, Owner>, k: Id, o: Order): OrderView {
    OrderView(k, if o.owner in owners then owners[o.owner].ownerName else "",
              o.serviceId, o.serviceName, o.scheduled, o.providerName, o.charges, o.status)
  }

  /** `view_orders`: 404 for a caller without a provider profile;
      otherwise one entry for each order whose service id is one of the
      caller's services, and no other. */
  method ViewOrders(db: Marketplace, caller: Caller)
    returns (out: Outcome, rows: seq<OrderView>, ghost ids: seq<Id>)
    requires db.Valid() && db.Resolves(caller)
    ensures out == NotFound <==> caller.provider.None?
    ensures out == Ok || out == NotFound
    ensures out == NotFound ==> rows == []
    ensures |rows| == |ids|
    ensures out == Ok ==> forall k :: k in ids <==>
              k in db.tables.orders && db.tables.orders[k].serviceId in db.ServiceIds(caller.provider.value)
    ensures forall i, j :: 0 <= i < j < |ids| ==> ids[i] != ids[j]
    ensures forall i :: 0 <= i < |ids| ==>
              var o := db.tables.orders[ids[i]];
              && rows[i].orderId == ids[i]
              && rows[i].ownerName == db.tables.owners[o.owner].ownerName
              && rows[i].serviceId == o.serviceId && rows[i].serviceName == o.serviceName
              && rows[i].scheduled == o.scheduled && rows[i].providerName == o.providerName
              && rows[i].charges == o.charges && rows[i].status == o.status
  {
    if caller.provider.None? {
      return NotFound, [], [];
    }
    var mine := db.ServiceIds(caller.provider.value);
    var owners := db.tables.owners;
    rows, ids := Collect(db.tables.orders, (o: Order) => o.serviceId in mine, (k: Id, o: Order) => RenderOrder(owners, k, o));
    out := Ok;
  }

  /** `update_order_status`: 404 for an unknown order; the provider lookup
      is not guarded, so a caller without a provider profile gets 500; 403
      when the order's service is not one of the caller's. A body without
      `status` saves nothing and succeeds, a status outside the four
      choices is refused with 400, and any of the four is set whatever the
      current one is. */
  method UpdateOrderStatus(db: Marketplace, caller: Caller, orderId: Id, status: Option<string>)
    returns (out: Outcome)
    requires db.Valid() && db.Resolves(caller)
    modifies db
    ensures db.Valid()
    ensures out == NotFound <==> orderId !in old(db.tables.orders)
    ensures orderId in old(db.tables.orders) && caller.provider.None? ==> out == InternalError
    ensures orderId in old(db.tables.orders) && caller.provider.Some? ==>
              (out == Forbidden <==> old(db.tables.orders)[orderId].serviceId !in old(db.ServiceIds(caller.provider.value)))
    ensures orderId in old(db.tables.orders) && caller.provider.Some? && out != Forbidden ==>
              (out == BadRequest <==> status.Some? && ParseStatus(status.value).None?)
              && (out != BadRequest ==> out == Ok)
    ensures out == Ok ==> orderId in old(db.tables.orders) && orderId in db.tables.orders
    ensures out == Ok && status.Some? ==>
              db.tables.orders == old(db.tables.orders)[orderId := old(db.tables.orders)[orderId].(status := ParseStatus(status.value).value)]
              && StatusLabel(db.tables.orders[orderId].status) == status.value
    ensures out != Ok || status.None? ==> db.tables.orders == old(db.tables.orders)
    ensures db.tables.(orders := old(db.tables.orders)) == old(db.tables)
    ensures SequencesKept(db)
  {
    if orderId !in db.tables.orders {
      return NotFound;
    }
    if caller.provider.None? {
      return InternalError;
    }
    var order := db.tables.orders[orderId];
    if order.serviceId !in db.ServiceIds(caller.provider.value) {
      return Forbidden;
    }
    if status.None? {
      return Ok;
    }
    var choice := ParseStatus(status.value);
    if choice.None? {
      return BadRequest;
    }
    db.tables := db.tables.(orders := db.tables.orders[orderId := order.(status := choice.value)]);
    out := Ok;
  }

  // ---------------------------------------------------------------------
  // Promotion flags

  /** `mark_service_special` and `mark_service_deal`, which are the same
      handler: 403 for a caller without a provider profile, 404 for an
      unknown service, 403 for another provider's service; otherwise the
      body is a partial update of the whole row (not only the flag), saved
      when it validates, else 400. */
  method MarkService(db: Marketplace, caller: Caller, serviceId: Id, patch: ServicePatch, accepts: ServicePatch -> bool)
    returns (out: Outcome)
    requires db.Valid() && db.Resolves(caller)
    modifies db
    ensures db.Valid()
    ensures caller.provider.None? ==> out == Forbidden
    ensures caller.provider.Some? && serviceId !in old(db.tables.services) ==> out == NotFound
    ensures caller.provider.Some? && serviceId in old(db.tables.services) ==>
              var s := old(db.tables.services)[serviceId];
              && (s.provider != caller.provider.value ==> out == Forbidden)
              && (s.provider == caller.provider.value ==>
                    (out == Ok <==> old(PatchAcceptable(db, s, patch, accepts))) && (out != Ok ==> out == BadRequest))
    ensures out == Ok ==> patch.provider.Some? ==> patch.provider.value >= 0
    ensures out == Ok ==> db.tables.services == old(db.tables.services)[serviceId := ApplyServicePatch(old(db.tables.services)[serviceId], patch)]
    ensures out == Ok ==> (serviceId in DealsOfTheDay(db) <==> (patch.isDealOfTheDay == Some(true) || (patch.isDealOfTheDay.None? && old(db.tables.services)[serviceId].isDealOfTheDay)))
    ensures out == Ok ==> (serviceId in TodaysSpecials(db) <==> (patch.isTodaysSpecial == Some(true) || (patch.isTodaysSpecial.None? && old(db.tables.services)[serviceId].isTodaysSpecial)))
    ensures out != Ok ==> db.tables.services == old(db.tables.services)
    ensures db.tables.(services := old(db.tables.services)) == old(db.tables)
    ensures SequencesKept(db)
  {
    if caller.provider.None? {
      return Forbidden;
    }
    if serviceId !in db.tables.services {
      return NotFound;
    }
    var s := db.tables.services[serviceId];
    if s.provider != caller.provider.value {
      return Forbidden;
    }
    if !PatchAcceptable(db, s, patch, accepts) {
      return BadRequest;
    }
    ServiceWriteValid(db.tables, db.nextServiceId, db.nextCartId, db.nextOrderId, db.nextFavoriteId,
                      serviceId, ApplyServicePatch(s, patch));
    db.tables := db.tables.(services := db.tables.services[serviceId := ApplyServicePatch(s, patch)]);
    out := Ok;
  }

  /** `get_deal_of_the_day_services`: exactly the services flagged as
      deal of the day. */
  function DealsOfTheDay(db: Marketplace): (r: map<Id, Service>)
    reads db
    ensures forall k :: k in r <==> k in db.tables.services && db.tables.services[k].isDealOfTheDay
    ensures forall k :: k in r ==> r[k] == db.tables.services[k]
  {
    Filter(db.tables.services, (s: Service) => s.isDealOfTheDay)
  }

  /** `get_todays_special_services`: exactly the services flagged as
      today's special. */
  function TodaysSpecials(db: Marketplace): (r: map<Id, Service>)
    reads db
    ensures forall k :: k in r <==> k in db.tables.services && db.tables.services[k].isTodaysSpecial
    ensures forall k :: k in r ==> r[k] == db.tables.services[k]
  {
    Filter(db.tables.services, (s: Service) => s.isTodaysSpecial)
  }

  /** A service created without flags is in neither promotion listing. */
  lemma NewServiceNotPromoted(db: Marketplace, k: Id)
    requires k in db.tables.services
    requires var s := db.tables.services[k]; s == NewService(s.provider, s.price, s.description, s.serviceName)
    ensures k !in DealsOfTheDay(db) && k !in TodaysSpecials(db)
  {
  }

  /** Saving a patch of service `k` (and nothing else) puts `k` in a
      promotion listing exactly when the patch sets that flag, or leaves
      it out and the flag was already set; every other service is in a
      listing exactly when its flag was set before. */
  twostate lemma PromotionFollowsFlags(db: Marketplace, k: Id, p: ServicePatch)
    requires k in old(db.tables.services)
    requires p.provider.Some? ==> p.provider.value >= 0
    requires db.tables.services == old(db.tables.services)[k := ApplyServicePatch(old(db.tables.services)[k], p)]
    ensures k in DealsOfTheDay(db) <==> (p.isDealOfTheDay == Some(true) || (p.isDealOfTheDay.None? && old(db.tables.services)[k].isDealOfTheDay))
    ensures k in TodaysSpecials(db) <==> (p.isTodaysSpecial == Some(true) || (p.isTodaysSpecial.None? && old(db.tables.services)[k].isTodaysSpecial))
    ensures forall j :: j != k ==>
              (j in DealsOfTheDay(db) <==> j in old(db.tables.services) && old(db.tables.services)[j].isDealOfTheDay)
    ensures forall j :: j != k ==>
              (j in TodaysSpecials(db) <==> j in old(db.tables.services) && old(db.tables.services)[j].isTodaysSpecial)
  {
  }
}
