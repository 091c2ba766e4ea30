# PetCare marketplace — a verified model

PetCare is a pet-services marketplace served as a REST API. Two kinds of user
share one account table: **pet owners** and **service providers**. Providers
publish services with a price, a description, a JSON-encoded list of reviews
and two promotion flags ("deal of the day", "today's special"). Owners put
services in a cart, which snapshots the service's name, price and provider
name. Checkout turns every cart line into an order with status `Placed`.
Owners can cancel their orders, search them by service name, keep favorites
and post reviews. Providers see the orders placed for their services and set
their status to any of `Placed`, `Processed`, `Completed` and `Cancelled`.
Nothing enforces an order between these statuses: any status can follow any
other.

The model has six modules:

- `Common` — options, the outcome kinds a handler answers with, ids, money in
  cents, the queryset `Filter`, the row-collecting loop the listing views run
  (`Collect`), and the decimal numerals `str(int)` writes.
- `OwnerModels` / `ProviderModels` — the rows of each table, their column
  bounds, the order status choices, the `__str__` renderings, and the review
  list codec that `Service.get_reviews` / `Service.add_review` rely on. The
  codec is `json.dumps` and `json.loads` restricted to lists of strings.
- `Store` — class `Marketplace`, one `map` field per table. It holds:
  - the referential and column invariant `Valid()`;
  - account uniqueness (`UniqueAccounts`);
  - the `on_delete=CASCADE` deletions;
  - the store steps that handlers compose: move one cart line to the orders, save a review.
- `OwnerViews` / `ProviderViews` — one member per request handler.
  - Handlers that write are methods with `modifies db`.
  - Read-only handlers are functions with `reads db`.
  - Every method states its outcome for each error path and the exact new contents of the table it writes.
  - Every method states that the other tables are unchanged.

Outcomes are `Ok` (any 2xx), `BadRequest` (400), `NotFound` (404),
`Forbidden` (403) and `InternalError` (500).

A `DoesNotExist` exception is modelled by whether the handler catches it:
- If the handler catches it, the model answers with the status that handler returns.
- If it does not, the exception escapes the handler and the model answers `InternalError`.

The serializer's column checks that the model can see are stated as the `…Fits` predicates. These cover lengths, money digits, status choices and non-negative ages. Everything else the serializer validates is a function parameter `accepts`. That includes e-mail syntax, blank text and date parsing.

The owner serializer's unique-e-mail validator is one of the checks behind `accepts`. If it accepts an address that another user already holds, the save breaks the database's uniqueness constraint and the handler answers 500. `UpdateOwnerProfile` models exactly that, and it proves that account uniqueness is preserved.

## Model

| member | source | states |
|---|---|---|
| Common.Filter | PetCareApp/Apis/Views/Provider_views.py:328 | the filtered table has exactly the rows that satisfy the condition, unchanged |
| Common.Collect | PetCareApp/Apis/Views/Provider_views.py:117-133 | the loop over all rows appends one rendering per kept row: every kept row appears exactly once and nothing else appears |
| Common.DecimalString | PetCareApp/Apis/models/Owner_models.py:59 | `str(n)` of a non-negative id is a non-empty digit string that starts with 0 only for 0 |
| Common.DecimalStringValue | PetCareApp/Apis/models/Owner_models.py:59 | reading the numeral back gives the id |
| Common.DecimalStringInjective | PetCareApp/Apis/models/Owner_models.py:37 | distinct ids render to distinct numerals |
| OwnerModels.StatusLabel | PetCareApp/Apis/models/Owner_models.py:41-46 | every status choice stores as a non-empty text that fits `max_length=20` |
| OwnerModels.ParseStatus | PetCareApp/Apis/models/Owner_models.py:41-46 | a text is accepted as a status exactly when it is the label of a choice, and yields that choice |
| OwnerModels.StatusRoundTrip | PetCareApp/Apis/models/Owner_models.py:41-55 | parsing a choice's label gives the choice back, and different choices have different labels |
| OwnerModels.OrderFromCart | PetCareApp/Apis/Views/Owner_views.py:234-242 | the order copies owner, service id, name, time, provider name and charges from the cart line; its status is `Placed`; a line that fits its columns gives an order that fits |
| OwnerModels.Cancel | PetCareApp/Apis/Views/Owner_views.py:279-284 | only a `Placed` order can be cancelled; cancelling sets `Cancelled` and changes nothing else |
| OwnerModels.CancelTwiceFails | PetCareApp/Apis/Views/Owner_views.py:279-284 | an order just cancelled cannot be cancelled again |
| OwnerModels.OwnerString | PetCareApp/Apis/models/Owner_models.py:17-18 | the text is the e-mail, the separator " - ", then the owner name |
| OwnerModels.FavoriteString | PetCareApp/Apis/models/Owner_models.py:67-68 | the text is the owning profile's name, the separator " - ", then the service name |
| OwnerModels.CartString | PetCareApp/Apis/models/Owner_models.py:36-37 | the text is "Cart ", the id's numeral, " - Service: ", then the service name |
| OwnerModels.OrderString | PetCareApp/Apis/models/Owner_models.py:58-59 | the text is "Order ", the id's numeral, " - Service: ", then the service name |
| OwnerModels.OrderStringIdentifies | PetCareApp/Apis/models/Owner_models.py:58-59 | two orders with the same display text have the same id and service name |
| OwnerModels.CartStringIdentifies | PetCareApp/Apis/models/Owner_models.py:36-37 | two cart lines with the same display text have the same id and service name |
| ProviderModels.NewService | PetCareApp/Apis/models/Provider_models.py:24-32 | a service created from the required columns has no reviews (the stored list decodes to the empty list) and neither flag set |
| ProviderModels.ProviderString | PetCareApp/Apis/models/Provider_models.py:14-15 | the text is the e-mail, the separator " - ", then the provider name |
| ProviderModels.ItemsParse | PetCareApp/Apis/models/Provider_models.py:34-35 | the items of a non-empty encoded list parse back to the same strings |
| ProviderModels.EncodeReviews | PetCareApp/Apis/models/Provider_models.py:40 | the encoded list is a bracketed text, and it is `[]` exactly for the empty list |
| ProviderModels.DecodeReviews | PetCareApp/Apis/models/Provider_models.py:35 | a text that decodes opens a list with `[` after its leading whitespace; an empty or blank text never decodes |
| ProviderModels.GetReviews | PetCareApp/Apis/models/Provider_models.py:34-35 | a service whose column holds the encoding of a list yields exactly that list |
| ProviderModels.DecodeEncode | PetCareApp/Apis/models/Provider_models.py:34-40 | `json.loads(json.dumps(xs)) == xs` for every list of strings, including escapes and surrogate pairs |
| ProviderModels.AppendReview | PetCareApp/Apis/models/Provider_models.py:37-41 | appending succeeds exactly when the stored text decodes, and the new text decodes to the old list plus the review |
| Store.UniqueAccountsShrink | PetCareApp/Apis/models/Users.py:7-8 | deleting a user keeps e-mails and user names unique |
| Store.UniqueAccountsReplaceOwner | PetCareApp/Apis/models/Users.py:7-8 | replacing a profile with one that keeps its user name, and whose e-mail is unchanged or used by no other user, keeps all users unique |
| Store.TablesValid | PetCareApp/Apis/models/Owner_models.py:29-63 | in valid tables, the next id of each sequence is not yet a key of its table, so an insert under it overwrites nothing |
| Store.OwnerCascade | PetCareApp/Apis/models/Owner_models.py:29-63 | deleting an owner removes the profile and exactly the cart lines, orders and favorites that name it; every surviving row is unchanged and the provider side is untouched |
| Store.ProviderCascade | PetCareApp/Apis/models/Provider_models.py:26 | deleting a provider removes the profile and exactly the services that name it; the owner side is untouched |
| Store.OwnerCascadeValid | PetCareApp/Apis/models/Owner_models.py:29-63 | after the owner cascade, every remaining row still names an existing owner, fits its columns and has an id below its sequence |
| Store.ProviderCascadeValid | PetCareApp/Apis/models/Provider_models.py:26 | after the provider cascade, every remaining service still names an existing provider |
| Store.OwnerWriteValid | PetCareApp/Apis/Views/Owner_views.py:48-50 | saving an existing owner profile whose columns fit keeps the invariant |
| Store.ServiceWriteValid | PetCareApp/Apis/Views/Provider_views.py:195-197 | saving an existing service whose columns fit and whose provider exists keeps the invariant |
| Store.CheckoutValid | PetCareApp/Apis/Views/Owner_views.py:243-244 | the next order id is unused, and saving the order built from a cart line under it while deleting the line keeps the invariant with the sequence moved on |
| Store.Marketplace.CartIds | PetCareApp/Apis/Views/Owner_views.py:228 | exactly the ids of the cart lines that belong to the owner |
| Store.Marketplace.ServiceIds | PetCareApp/Apis/Views/Provider_views.py:228 | exactly the ids of the services the provider offers |
| Store.Marketplace.constructor | PetCareApp/Apis/models/Owner_models.py:10-67 | an empty store satisfies the invariant |
| Store.Marketplace.DeleteOwner | PetCareApp/Apis/models/Owner_models.py:29-63 | the tables become the owner cascade of the old ones, no id sequence moves, and the invariant and account uniqueness are kept |
| Store.Marketplace.DeleteProvider | PetCareApp/Apis/models/Provider_models.py:26 | the tables become the provider cascade of the old ones (cart lines and orders stay, since they hold a plain service id), no id sequence moves, and the invariant and account uniqueness are kept |
| Store.Marketplace.CheckoutLine | PetCareApp/Apis/Views/Owner_views.py:243-246 | inserts the order built from the line under the next, unused order id, deletes the line, moves only the order sequence, and keeps the invariant |
| Store.Marketplace.SaveReview | PetCareApp/Apis/Views/Owner_views.py:333-336 | saves only when the stored list decodes; the saved list then decodes to the old list plus the review; no other column or table changes |
| OwnerViews.OwnerProfile | PetCareApp/Apis/Views/Owner_views.py:25-32 | 404 exactly for a caller without an owner profile, otherwise that profile |
| OwnerViews.DropUnchangedEmail | PetCareApp/Apis/Views/Owner_views.py:44-46 | the e-mail is dropped exactly when it equals the stored one; the other fields are kept |
| OwnerViews.ApplyOwnerPatch | PetCareApp/Apis/Views/Owner_views.py:48-50 | a partial update sets each given field and keeps each absent one, never changes the user name, and keeps the column bounds |
| OwnerViews.DropUnchangedEmailHarmless | PetCareApp/Apis/Views/Owner_views.py:44-50 | dropping an unchanged e-mail does not change the saved profile |
| OwnerViews.OwnerPatchIdempotent | PetCareApp/Apis/Views/Owner_views.py:48-50 | an empty patch changes nothing; applying the same patch twice equals applying it once |
| OwnerViews.UpdateOwnerProfile | PetCareApp/Apis/Views/Owner_views.py:37-52 | the answer is one of 200, 400, 404, 500: 404 exactly without an owner profile; 400 exactly when the patch (with an unchanged e-mail dropped) does not fit or is not accepted; 500 exactly when it is accepted but its e-mail belongs to another user; otherwise only that profile is patched; no id sequence moves; account uniqueness is preserved |
| OwnerViews.AddServiceToCart | PetCareApp/Apis/Views/Owner_views.py:116-169 | outcomes in order: 400 for a malformed body or a missing service id, 404 for an unknown service, 500 for a caller without an owner profile; otherwise one fresh cart line snapshots name, price and provider name, scheduled at the given time or now; only the cart sequence moves |
| OwnerViews.DeleteServiceFromCart | PetCareApp/Apis/Views/Owner_views.py:175-182 | 500 without an owner profile; deletes the line only when it exists and belongs to the caller, otherwise 404; nothing else changes; no id sequence moves |
| OwnerViews.ApplyCartPatch | PetCareApp/Apis/Views/Owner_views.py:193-197 | a partial update of a cart line sets each given field and keeps each absent one |
| OwnerViews.UpdateScheduledTime | PetCareApp/Apis/Views/Owner_views.py:188-199 | 500 without an owner profile, 404 for a line not the caller's, 400 for an invalid patch, otherwise exactly that line is patched; no id sequence moves |
| OwnerViews.ListCartItems | PetCareApp/Apis/Views/Owner_views.py:205-209 | 500 without an owner profile, otherwise exactly the caller's cart lines |
| OwnerViews.PendingRows | PetCareApp/Apis/Views/Owner_views.py:226-232 | every line still to be walked is a row of the cart |
| OwnerViews.DistinctPending | PetCareApp/Apis/Views/Owner_views.py:226-232 | distinct lines that are all rows of the cart can all be walked, each once |
| OwnerViews.PlaceLines | PetCareApp/Apis/Views/Owner_views.py:232-246 | the walk makes at most one order per line, so the order sequence moves by at most the number of lines left, and by exactly that number when every line is accepted |
| OwnerViews.PlaceLinesValid | PetCareApp/Apis/Views/Owner_views.py:232-246 | the checkout loop keeps the invariant, with the order sequence past every order it made |
| OwnerViews.PlaceLinesStops | PetCareApp/Apis/Views/Owner_views.py:232-248 | the loop walks the lines in order and stops at the first rejected one: it succeeds exactly when every line is accepted, it never makes more orders than lines, and on failure the line it stopped at is rejected |
| OwnerViews.PlaceLinesCarts | PetCareApp/Apis/Views/Owner_views.py:232-246 | the lines made into orders leave the cart, the lines after the stopping point stay, and every other cart row is kept unchanged |
| OwnerViews.PlaceLinesKeepsOrders | PetCareApp/Apis/Views/Owner_views.py:243 | existing orders are kept unchanged and the new ones take exactly the ids from the sequence's old value up to its new one |
| OwnerViews.PlaceLinesNewOrders | PetCareApp/Apis/Views/Owner_views.py:232-244 | the k-th line made into an order is saved under the k-th new id, as the order built from that cart line |
| OwnerViews.PlaceLinesOthers | PetCareApp/Apis/Views/Owner_views.py:232-246 | checkout changes no owner, provider, service or favorite |
| OwnerViews.PlaceLinesEmptiesCart | PetCareApp/Apis/Views/Owner_views.py:226-250 | when every line is accepted, one order per line is made under consecutive fresh ids, each built from its line, old orders are kept, and no cart line of the owner is left |
| OwnerViews.ConvertLines | PetCareApp/Apis/Views/Owner_views.py:232-248 | the loop's final tables, order sequence and verdict are those of the checkout walk over the same lines; the invariant is kept and the other sequences do not move |
| OwnerViews.PlaceOrder | PetCareApp/Apis/Views/Owner_views.py:219-250 | 404 exactly without an owner profile, and nothing changes; the lines walked are exactly the caller's cart rows, each once; 400 with nothing changed for an empty cart; otherwise the result and the new tables are those of the checkout walk, 201 exactly when every line was accepted; only the order sequence moves |
| OwnerViews.ViewOrderStatus | PetCareApp/Apis/Views/Owner_views.py:257-265 | the order, exactly when it exists and belongs to the caller; otherwise 404 |
| OwnerViews.CancelOrder | PetCareApp/Apis/Views/Owner_views.py:272-284 | 404 unless the order is the caller's; succeeds exactly for a `Placed` order, which becomes `Cancelled`, otherwise 400; no other row changes; no id sequence moves |
| OwnerViews.CancelTwice | PetCareApp/Apis/Views/Owner_views.py:279-284 | after a successful cancel, a second cancel of the same order answers 400 and the order stays `Cancelled` |
| OwnerViews.TrimStart | PetCareApp/Apis/Views/Owner_views.py:292 | removes exactly the leading whitespace |
| OwnerViews.TrimEnd | PetCareApp/Apis/Views/Owner_views.py:292 | removes exactly the trailing whitespace |
| OwnerViews.Strip | PetCareApp/Apis/Views/Owner_views.py:292 | the result is a slice of the input with only whitespace cut off on each side, and neither of its ends is whitespace |
| OwnerViews.LowerChar | PetCareApp/Apis/Views/Owner_views.py:292 | upper-case ASCII letters map to their lower-case letter; every other character is kept |
| OwnerViews.Lower | PetCareApp/Apis/Views/Owner_views.py:292 | lower-cases character by character, keeping the length |
| OwnerViews.LowerIdempotent | PetCareApp/Apis/Views/Owner_views.py:292-294 | lower-casing twice equals lower-casing once |
| OwnerViews.OrdersMatching | PetCareApp/Apis/Views/Owner_views.py:294 | exactly the owner's orders whose service name contains the needle, case-insensitively |
| OwnerViews.SearchOrders | PetCareApp/Apis/Views/Owner_views.py:291-298 | 500 without an owner profile; 404 exactly when no order of the caller matches the stripped, lower-cased query; otherwise exactly the matching orders |
| OwnerViews.OrdersOf | PetCareApp/Apis/Views/Owner_views.py:311 | exactly the owner's orders, unchanged |
| OwnerViews.ViewAllOrders | PetCareApp/Apis/Views/Owner_views.py:305-313 | 404 without an owner profile, otherwise exactly the caller's orders |
| OwnerViews.EmptyNeedleMatches | PetCareApp/Apis/Views/Owner_views.py:294 | the empty needle matches every service name |
| OwnerViews.BlankQueryNeedle | PetCareApp/Apis/Views/Owner_views.py:292 | an absent or blank query becomes the empty needle |
| OwnerViews.EmptyNeedleMatchesAll | PetCareApp/Apis/Views/Owner_views.py:294 | the empty needle selects all of the owner's orders |
| OwnerViews.EmptyNeedleSearch | PetCareApp/Apis/Views/Owner_views.py:291-298 | a search for the empty needle answers all of the caller's orders, or 404 when there are none |
| OwnerViews.BlankSearchListsAll | PetCareApp/Apis/Views/Owner_views.py:291-313 | a search with an empty needle (any absent or blank query) answers what viewing all orders answers, except 404 instead of an empty list |
| OwnerViews.AddReview | PetCareApp/Apis/Views/Owner_views.py:321-338 | the answer is one of 200, 400, 404, 500: 404 exactly for an unknown service; 400 exactly for an absent or empty review; 500 exactly when the stored list does not decode; otherwise the stored list gains exactly the review at its end and nothing else changes; no id sequence moves |
| OwnerViews.AddServiceToFavorites | PetCareApp/Apis/Views/Owner_views.py:347-397 | outcomes in order: 400 for a malformed body or a missing service id, 404 for an unknown service, 500 without an owner profile; otherwise one fresh favorite with the service's name and provider name; only the favorites sequence moves |
| OwnerViews.ListFavoriteItems | PetCareApp/Apis/Views/Owner_views.py:403-418 | 500 without an owner profile, otherwise exactly the caller's favorites |
| OwnerViews.DeleteFavorite | PetCareApp/Apis/Views/Owner_views.py:423-429 | 500 without an owner profile; deletes the favorite only when it exists and is the caller's, otherwise 404; no id sequence moves |
| ProviderViews.ProviderProfile | PetCareApp/Apis/Views/Provider_views.py:22-30 | 404 exactly for a caller without a provider profile, otherwise that profile |
| ProviderViews.ApplyServicePatch | PetCareApp/Apis/Views/Provider_views.py:195-197 | a partial update of a service sets each given field and keeps each absent one |
| ProviderViews.KeepProviderHarmless | PetCareApp/Apis/Views/Provider_views.py:192-195 | filling in the current provider when the patch has none does not change the saved service |
| ProviderViews.ServicePatchIdempotent | PetCareApp/Apis/Views/Provider_views.py:286-288 | applying the same service patch twice equals applying it once |
| ProviderViews.CreateService | PetCareApp/Apis/Views/Provider_views.py:103-110 | 500 exactly for a caller without a provider profile; 400 when name, description or price is missing or invalid; otherwise one fresh service owned by the caller, whatever provider the body names, with the column defaults where fields are absent; only the service sequence moves |
| ProviderViews.YesNo | PetCareApp/Apis/Views/Provider_views.py:157-158 | a flag renders "Yes" exactly when set and "No" exactly when clear |
| ProviderViews.ListServices | PetCareApp/Apis/Views/Provider_views.py:116-133 | one entry per service, each service once, rendered with its provider's name |
| ProviderViews.ListServicesForProvider | PetCareApp/Apis/Views/Provider_views.py:139-162 | 403 exactly for a caller without a provider profile; otherwise one entry per service of the caller, each once, with the flags as Yes/No |
| ProviderViews.GetService | PetCareApp/Apis/Views/Provider_views.py:170-177 | the service, exactly when it exists; otherwise 404 |
| ProviderViews.UpdateService | PetCareApp/Apis/Views/Provider_views.py:183-199 | 404 exactly for an unknown service, 400 exactly for an invalid patch; otherwise exactly that service is patched, with its provider kept unless the patch names one, and it is in each promotion listing exactly when the patch sets that flag, or leaves it and the flag was set; no id sequence moves |
| ProviderViews.DeleteService | PetCareApp/Apis/Views/Provider_views.py:205-212 | succeeds exactly when the service exists, otherwise 404; only that row goes; cart lines and orders stay; no id sequence moves |
| ProviderViews.ViewOrders | PetCareApp/Apis/Views/Provider_views.py:222-245 | 404 exactly for a caller without a provider profile; otherwise one entry per order of one of the caller's services, each once, with the owner's name |
| ProviderViews.UpdateOrderStatus | PetCareApp/Apis/Views/Provider_views.py:250-265 | 404 for an unknown order; 500 without a provider profile; 403 unless the order's service is the caller's; 400 for a status that is not a choice; otherwise only the status changes; no id sequence moves |
| ProviderViews.MarkService | PetCareApp/Apis/Views/Provider_views.py:274-323 | both mark handlers: 403 without a provider profile; 404 for an unknown service; 403 for another provider's service; 400 for an invalid patch; otherwise exactly that service is patched, and it is in each promotion listing exactly when the patch sets that flag, or leaves it and the flag was set; no id sequence moves |
| ProviderViews.DealsOfTheDay | PetCareApp/Apis/Views/Provider_views.py:327-330 | exactly the services flagged deal of the day |
| ProviderViews.TodaysSpecials | PetCareApp/Apis/Views/Provider_views.py:334-337 | exactly the services flagged today's special |
| ProviderViews.NewServiceNotPromoted | PetCareApp/Apis/models/Provider_models.py:31-32 | a service created with the column defaults is in neither promotion listing |
| ProviderViews.PromotionFollowsFlags | PetCareApp/Apis/Views/Provider_views.py:195-197 | after one service is patched, it is in each promotion listing exactly when the patch sets that flag, or leaves it and the flag was set; every other service is in a listing exactly when it was before |

## Left out

- Registration, login, token issue and password hashing (`register_owner`, `login_view`, `register_provider`, `provider_login_view`). These are authentication, not marketplace state. A request is modelled by the caller's already-resolved profiles (`Caller`).
- `update_provider_profile` is not modelled. It gives the provider serializer the plain user record rather than the provider profile, so what it saves depends on framework internals outside this model.
- Parse errors of a JSON request body. The framework answers 400 before the handler changes anything. Only add-to-cart and add-to-favorites inspect the body's shape themselves, and the model covers those two (`ServiceRequest`).
- Serializer checks beyond the column bounds are the `accepts` parameter rather than concrete rules. This covers e-mail syntax, blank strings, date-time parsing, and the decimal places of a price given as text.
- The upper bound of `PositiveIntegerField` (database-dependent) is not modelled. Ages are non-negative integers.
- A `service_id` sent as a numeric string, which the database lookup would coerce, is not modelled. The model takes an integer or nothing.
- OwnerViews.AddReview: a review that is a non-string JSON value is not modelled. A stored review list whose items are not all strings counts as not decodable (500), although `json.loads` would accept it.
- OwnerViews.Lower: only ASCII letters are lower-cased. Python's `str.lower` also maps non-ASCII letters. `Strip` removes exactly the characters `str.isspace` accepts.
- ProviderModels.DecodeReviews: accepts the JSON texts of lists of strings with standard whitespace. Other JSON values make `get_reviews` fail (500), as the source's `append` would.
- ProviderModels.DecodeReviews: a lone surrogate escape such as `"\ud800"` is refused (so `add_review` answers 500), although `json.loads` accepts it. A Dafny character cannot hold a lone surrogate.
- OwnerViews.AddReview: a request body that is a JSON array is not modelled. The source's `data.get` raises on it, a 500. The model takes the `review` field as an option.
- ProviderViews.UpdateService: a request body that is a JSON array is not modelled. The source's `data['provider'] = …` raises on it, a 500. The model takes the parsed patch.
- OwnerViews.UpdateOwnerProfile: the serializer's unique-e-mail validator is part of `accepts` rather than a concrete rule (it compares with every other user account). The model states the concrete 500 for an accepted address that another user holds.
- `Service.__str__` is the service name itself. No handler renders it, so it has no member of its own.
- The order in which querysets return rows is not modelled. Listings are sets or maps, or sequences with each row once in unspecified order.
- OwnerViews.PlaceOrder: the order in which checkout walks the caller's cart rows is the unspecified order `Collect` yields them in, so which orders exist after a rejected line depends on that order, as it does on the database's.
- The clock is the `now` parameter of `AddServiceToCart`.
- Concurrency and transactions are not modelled. Each handler runs alone, and a failed checkout keeps the orders saved before the failure, as the source does.
- The `except ServiceProvider.DoesNotExist` branches that the source cannot reach are not modelled. The cart and favorites handlers never look up a provider profile that way.
- A `create_service` body that is not a JSON object (a 500 in the source) is not modelled. The model takes the parsed fields.
- The `print` logging in `mark_service_deal` is left out.
