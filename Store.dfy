/** The relational store behind the handlers: one map per table from primary
    key to row, the referential and column constraints the database keeps,
    the cascades that deleting a profile triggers, and the review append that
    `Service.add_review` performs and saves. */
module Store {
  import opened Common
  import opened OwnerModels
  import opened ProviderModels

  /** The identity a request is made as, already resolved from its token: the
      owner profile and the provider profile of the user, each possibly
      absent. */
  datatype Caller = Caller(owner: Option<Id>, provider: Option<Id>)

  /** The contents of every table at one moment. */
  datatype Tables = Tables(
    owners: map<Id, Owner>,
    providers: map<Id, ServiceProvider>,
    services: map<Id, Service>,
    carts: map<Id, CartItem>,
    orders: map<Id, Order>,
    favorites: map<Id, Favorite>)

  /** No two users share an e-mail address or a user name
      (`unique=True` on both columns of the common user table). */
  ghost predicate UniqueAccounts(owners: map<Id, Owner>, providers: map<Id, ServiceProvider>) {
    && (forall a, b :: a in owners && b in owners && a != b ==>
          owners[a].email != owners[b].email && owners[a].username != owners[b].username)
    && (forall a, b :: a in providers && b in providers && a != b ==>
          providers[a].email != providers[b].email && providers[a].username != providers[b].username)
    && (forall a, b :: a in owners && b in providers ==>
          owners[a].email != providers[b].email && owners[a].username != providers[b].username)
  }

  /** Removing users keeps the rest unique. */
  lemma UniqueAccountsShrink(owners: map<Id, Owner>, providers: map<Id, ServiceProvider>, o: Id, p: Id)
    ensures UniqueAccounts(owners, providers) ==> UniqueAccounts(owners - {o}, providers)
    ensures UniqueAccounts(owners, providers) ==> UniqueAccounts(owners, providers - {p})
  {
  }

  /** Replacing an owner's profile by one with the same user name, and an
      e-mail address that is either unchanged or no other user's, keeps
      every user unique. */
  lemma UniqueAccountsReplaceOwner(owners: map<Id, Owner>, providers: map<Id, ServiceProvider>, id: Id, o: Owner)
    requires UniqueAccounts(owners, providers) && id in owners
    requires o.username == owners[id].username
    requires o.email == owners[id].email
             || ((forall a :: a in owners && a != id ==> owners[a].email != o.email)
                 && (forall b :: b in providers ==> providers[b].email != o.email))
    ensures UniqueAccounts(owners[id := o], providers)
  {
  }

  /** Every foreign key resolves (the cascades keep it so), every column
      is within its bounds, and each sequence stays ahead of the keys in
      use. */
  ghost predicate TablesValid(t: Tables, nextServiceId: Id, nextCartId: Id, nextOrderId: Id, nextFavoriteId: Id)
    ensures TablesValid(t, nextServiceId, nextCartId, nextOrderId, nextFavoriteId) ==>
              && nextServiceId !in t.services && nextCartId !in t.carts
              && nextOrderId !in t.orders && nextFavoriteId !in t.favorites
  {
    && (forall k :: k in t.carts ==> t.carts[k].owner in t.owners && CartFits(t.carts[k]) && k < nextCartId)
    && (forall k :: k in t.orders ==> t.orders[k].owner in t.owners && OrderFits(t.orders[k]) && k < nextOrderId)
    && (forall k :: k in t.favorites ==>
          t.favorites[k].owner in t.owners && FavoriteFits(t.favorites[k]) && k < nextFavoriteId)
    && (forall k :: k in t.services ==>
          t.services[k].provider in t.providers && ServiceFits(t.services[k]) && k < nextServiceId)
    && (forall k :: k in t.owners ==> OwnerFits(t.owners[k]))
    && (forall k :: k in t.providers ==> ProviderFits(t.providers[k]))
  }

  /** The tables after deleting owner `id` (`on_delete=CASCADE` on the
      cart, order and favorites foreign keys): exactly the rows that name
      the owner go, and no other row. */
  function OwnerCascade(t: Tables, id: Id): (r: Tables)
    ensures r.owners == t.owners - {id}
    ensures r.providers == t.providers && r.services == t.services
    ensures forall k :: k in r.carts <==> k in t.carts && t.carts[k].owner != id
    ensures forall k :: k in r.orders <==> k in t.orders && t.orders[k].owner != id
    ensures forall k :: k in r.favorites <==> k in t.favorites && t.favorites[k].owner != id
    ensures forall k :: k in r.carts ==> r.carts[k] == t.carts[k]
    ensures forall k :: k in r.orders ==> r.orders[k] == t.orders[k]
    ensures forall k :: k in r.favorites ==> r.favorites[k] == t.favorites[k]
  {
    t.(owners := t.owners - {id},
       carts := map k | k in t.carts && t.carts[k].owner != id :: t.carts[k],
       orders := map k | k in t.orders && t.orders[k].owner != id :: t.orders[k],
       favorites := map k | k in t.favorites && t.favorites[k].owner != id :: t.favorites[k])
  }

  /** The tables after deleting provider `id`: their services go. Cart
      lines and orders hold the service id as a plain number, so they
      stay. */
  function ProviderCascade(t: Tables, id: Id): (r: Tables)
    ensures r.providers == t.providers - {id}
    ensures forall k :: k in r.services <==> k in t.services && t.services[k].provider != id
    ensures forall k :: k in r.services ==> r.services[k] == t.services[k]
    ensures r.owners == t.owners && r.carts == t.carts && r.orders == t.orders && r.favorites == t.favorites
  {
    t.(providers := t.providers - {id},
       services := map k | k in t.services && t.services[k].provider != id :: t.services[k])
  }

  /** Deleting an owner with its cascade keeps the tables valid: no row
      is left naming the deleted owner. */
  lemma OwnerCascadeValid(t: Tables, ns: Id, nc: Id, no: Id, nf: Id, id: Id)
    requires TablesValid(t, ns, nc, no, nf)
    ensures TablesValid(OwnerCascade(t, id), ns, nc, no, nf)
  {
    var r := OwnerCascade(t, id);
    forall k | k in r.carts
      ensures r.carts[k].owner in r.owners && CartFits(r.carts[k]) && k < nc
    {
      assert r.carts[k] == t.carts[k];
    }
    forall k | k in r.orders
      ensures r.orders[k].owner in r.owners && OrderFits(r.orders[k]) && k < no
    {
      assert r.orders[k] == t.orders[k];
    }
    forall k | k in r.favorites
      ensures r.favorites[k].owner in r.owners && FavoriteFits(r.favorites[k]) && k < nf
    {
      assert r.favorites[k] == t.favorites[k];
    }
  }

  /** Deleting a provider with its services keeps the tables valid. */
  lemma ProviderCascadeValid(t: Tables, ns: Id, nc: Id, no: Id, nf: Id, id: Id)
    requires TablesValid(t, ns, nc, no, nf)
    ensures TablesValid(ProviderCascade(t, id), ns, nc, no, nf)
  {
  }

  /** Writing an owner profile that fits its columns keeps the tables
      valid: rows reference owners by key, which the write keeps. */
  lemma OwnerWriteValid(t: Tables, ns: Id, nc: Id, no: Id, nf: Id, id: Id, o: Owner)
    requires TablesValid(t, ns, nc, no, nf) && id in t.owners && OwnerFits(o)
    ensures TablesValid(t.(owners := t.owners[id := o]), ns, nc, no, nf)
  {
    var r := t.(owners := t.owners[id := o]);
    assert r.owners.Keys == t.owners.Keys;
  }

  /** Writing an existing service row that fits its columns and names an
      existing provider keeps the tables valid. */
  lemma ServiceWriteValid(t: Tables, ns: Id, nc: Id, no: Id, nf: Id, id: Id, s: Service)
    requires TablesValid(t, ns, nc, no, nf) && id in t.services
    requires ServiceFits(s) && s.provider in t.providers
    ensures TablesValid(t.(services := t.services[id := s]), ns, nc, no, nf)
  {
  }

  /** Moving cart line `cartId` into the orders table under the next order
      id keeps the tables valid: the id is fresh, the order names the line's
      owner and fits its columns because the line did. */
  lemma CheckoutValid(t: Tables, ns: Id, nc: Id, no: Id, nf: Id, cartId: Id)
    requires TablesValid(t, ns, nc, no, nf) && cartId in t.carts
    ensures no !in t.orders
    ensures TablesValid(t.(orders := t.orders[no := OrderFromCart(t.carts[cartId])], carts := t.carts - {cartId}),
                        ns, nc, no + 1, nf)
  {
  }

  /** No id sequence of `db` moved: the call inserted no row. */
  twostate predicate SequencesKept(db: Marketplace)
    reads db
  {
    && db.nextServiceId == old(db.nextServiceId) && db.nextCartId == old(db.nextCartId)
    && db.nextOrderId == old(db.nextOrderId) && db.nextFavoriteId == old(db.nextFavoriteId)
  }

  class Marketplace {
    /** The rows of every table. */
    var tables: Tables

    // The next value of each AutoField sequence the model inserts into.
    var nextServiceId: Id
    var nextCartId: Id
    var nextOrderId: Id
    var nextFavoriteId: Id

    /** The tables are valid (`TablesValid`) for the current sequences.
        Uniqueness of users is `UniqueUsers`, kept separately. */
    ghost predicate Valid()
      reads this
    {
      TablesValid(tables, nextServiceId, nextCartId, nextOrderId, nextFavoriteId)
    }

    ghost predicate UniqueUsers()
      reads this
    {
      UniqueAccounts(tables.owners, tables.providers)
    }

    /** Whether a user other than owner `self` has this e-mail address:
        another owner, or any provider (`unique=True` on the e-mail column
        of the user table both profiles extend). */
    predicate EmailTaken(email: string, self: Id)
      reads this
    {
      || (exists a :: a in tables.owners && a != self && tables.owners[a].email == email)
      || (exists b :: b in tables.providers && tables.providers[b].email == email)
    }

    /** The ids of the cart lines that belong to an owner. */
    function CartIds(owner: Id): (r: set<Id>)
      reads this
      ensures forall k :: k in r <==> k in tables.carts && tables.carts[k].owner == owner
    {
      set k | k in tables.carts && tables.carts[k].owner == owner
    }

    /** The ids of the services a provider offers. */
    function ServiceIds(provider: Id): (r: set<Id>)
      reads this
      ensures forall k :: k in r <==> k in tables.services && tables.services[k].provider == provider
    {
      set k | k in tables.services && tables.services[k].provider == provider
    }

    /** The profiles a caller resolves to exist. */
    predicate Resolves(caller: Caller)
      reads this
    {
      (caller.owner.Some? ==> caller.owner.value in tables.owners)
      && (caller.provider.Some? ==> caller.provider.value in tables.providers)
    }

    constructor ()
      ensures Valid()
      ensures tables == Tables(map[], map[], map[], map[], map[], map[])
    {
      tables := Tables(map[], map[], map[], map[], map[], map[]);
      nextServiceId, nextCartId, nextOrderId, nextFavoriteId := 1, 1, 1, 1;
    }

    /** Deleting an owner profile, with its cascade. */
    method DeleteOwner(id: Id)
      requires Valid()
      modifies this
      ensures Valid()
      ensures tables == OwnerCascade(old(tables), id)
      ensures nextServiceId == old(nextServiceId) && nextCartId == old(nextCartId)
      ensures nextOrderId == old(nextOrderId) && nextFavoriteId == old(nextFavoriteId)
      ensures old(UniqueUsers()) ==> UniqueUsers()
    {
      OwnerCascadeValid(tables, nextServiceId, nextCartId, nextOrderId, nextFavoriteId, id);
      UniqueAccountsShrink(tables.owners, tables.providers, id, id);
      tables := OwnerCascade(tables, id);
    }

    /** Deleting a provider profile, with its cascade. */
    method DeleteProvider(id: Id)
      requires Valid()
      modifies this
      ensures Valid()
      ensures tables == ProviderCascade(old(tables), id)
      ensures nextServiceId == old(nextServiceId) && nextCartId == old(nextCartId)
      ensures nextOrderId == old(nextOrderId) && nextFavoriteId == old(nextFavoriteId)
      ensures old(UniqueUsers()) ==> UniqueUsers()
    {
      ProviderCascadeValid(tables, nextServiceId, nextCartId, nextOrderId, nextFavoriteId, id);
      UniqueAccountsShrink(tables.owners, tables.providers, id, id);
      tables := ProviderCascade(tables, id);
    }

    /** One step of checkout: the order built from cart line `cartId` is
        inserted under the next order id and the line is deleted. */
    method CheckoutLine(cartId: Id) returns (orderId: Id)
      requires Valid() && cartId in tables.carts
      modifies this
      ensures Valid()
      ensures orderId == old(nextOrderId) && nextOrderId == orderId + 1
      ensures nextServiceId == old(nextServiceId) && nextCartId == old(nextCartId)
      ensures nextFavoriteId == old(nextFavoriteId)
      ensures orderId !in old(tables.orders)
      ensures tables == old(tables).(orders := old(tables.orders)[orderId := OrderFromCart(old(tables.carts)[cartId])],
                                     carts := old(tables.carts) - {cartId})
    {
      orderId := nextOrderId;
      CheckoutValid(tables, nextServiceId, nextCartId, nextOrderId, nextFavoriteId, cartId);
      tables := tables.(orders := tables.orders[orderId := OrderFromCart(tables.carts[cartId])],
                        carts := tables.carts - {cartId});
      nextOrderId := orderId + 1;
    }

    /** `Service.add_review` on the row `serviceId`: decode the stored list,
        append, encode, save. Text that does not decode makes the call fail
        (`json.loads` raises) and nothing is saved. */
    method SaveReview(serviceId: Id, review: string) returns (saved: bool)
      requires Valid() && serviceId in tables.services
      modifies this
      ensures Valid()
      ensures saved <==> GetReviews(old(tables.services)[serviceId]).Some?
      ensures saved ==> tables.services == old(tables.services)[serviceId :=
                          old(tables.services)[serviceId].(reviews := AppendReview(old(tables.services)[serviceId].reviews, review).value)]
      ensures saved ==> GetReviews(tables.services[serviceId]) == Some(GetReviews(old(tables.services)[serviceId]).value + [review])
      ensures !saved ==> tables.services == old(tables.services)
      ensures tables.(services := old(tables.services)) == old(tables)
      ensures nextServiceId == old(nextServiceId) && nextCartId == old(nextCartId)
      ensures nextOrderId == old(nextOrderId) && nextFavoriteId == old(nextFavoriteId)
    {
      var service := tables.services[serviceId];
      var stored := DecodeReviews(service.reviews);
      if stored.None? {
        return false;
      }
      var reviews := stored.value + [review];
      DecodeEncode(reviews);
      ServiceWriteValid(tables, nextServiceId, nextCartId, nextOrderId, nextFavoriteId,
                        serviceId, service.(reviews := EncodeReviews(reviews)));
      tables := tables.(services := tables.services[serviceId := service.(reviews := EncodeReviews(reviews))]);
      saved := true;
    }
  }
}
