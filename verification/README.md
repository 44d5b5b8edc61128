# A verified model of the store backend

This project models the state machines that a mobile store's backend runs over its own tables, and proves what they
are for. Each module is one component; tables are maps, sequences or sets of rows, ids are opaque numbers, times are
milliseconds. A service that updates rows is a class whose methods are proved against specification functions and
predicates, and the properties are lemmas about those. A request is one atomic step unless the code offers something
finer, in which case the finer steps are modelled: the conditional claim of a campaign, the awaits of the token cache,
the single writes of record linking and reconciliation.

| module | component |
|---|---|
| `Schema` | shared vocabulary |
| `Customers`, `Login` | customers, verified identities, Shopify links; merging and login |
| `OwnedRows`, `CustomerMerge` | rows unique per owner; the merge of two customers across all tables |
| `Addresses`, `AddressBook`, `AddressService` | addresses and their default; imports; the service |
| `RecentlyViewed`, `Carts`, `CartRuns` | recently viewed products; carts and runs of requests on them |
| `RefreshTokens` | sessions with rotation and reuse detection |
| `RateLimits`, `OtpCodes` | one-time codes and their limits in Redis |
| `Campaigns`, `Delivery` | push campaigns under concurrency; one delivery |
| `TokenCache`, `TokenLife`, `TokenInvalidation` | the shared Shopify access token; how long it lives; when it is forgotten |
| `Money`, `CartTotals` | decimal strings, minor units and doubles; what a cart shows |
| `CsvExport`, `SearchQuery` | text formats read back by their grammars |
| `Reconcile` | local tables against Shopify after an e-mail is verified |
| `RateVerdicts` | which requests for a code are accepted, told from the history of requests |
| `MergeOutcome`, `LoginOutcome`, `AddressOutcome`, `ViewOutcome`, `SessionOutcome`, `OtpOutcome`, `CampaignOutcome`, `DeliveryOutcome`, `TokenOutcome`, `ReconcileOutcome` | what each request leaves in every row and column, stated without the functions that compute it |

What stands outside is a parameter or an assumption stated where it is used. Hashes are injective, so a message stands
for its hash and a token for its own. Clocks, generated codes and ids come in as arguments. Shopify answers through
parameters: it deletes only order-free records, moves all orders of a merge to one of the two records, and a call that
fails has changed nothing. A push sender is any function of the batch, and may throw. A double operation is a real
operation rounded by some function of which two things are assumed: whole numbers up to 2^53 stay, and a number between
1e-28 and 1e30 in magnitude, well inside the normal range of doubles, gets a relative error of at most 2^-53 (sections
3.6 and 4.3.1 of IEEE 754-2019). Nothing is assumed where doubles underflow or overflow. Currencies have at most 22
decimals, up to which `10 ** d` is a double.

## What the code does otherwise than one might expect

The lemma named gives the exact condition, or shows a concrete case where one is marked.

- A lookup follows at most five merge pointers. A login of a never-verified identifier whose record lies deeper attaches
  the identity to a merged customer, and later logins fail (`Login.DeepLoginLocksOut`, case `Login.DeepChainIsReachable`).
- For the same reason a merge fails to commute with login exactly when the lookup started five merges above its source
  (`Customers.MergeCommutesWithLoginIff`, case `Login.MergeMissesDeepLogin`). Over runs
  none of whose logins starts that deep, merging commutes with every lookup by a verified identity
  (`Login.RunKeepsNoMergedIdentityIff`, `Customers.MergeCommutesForIdentities`).
- Merging takes over a third customer's link to the source's primary Shopify record (`Customers.MergeUnitesVisible`).
- The address book import sets the default flag without clearing others (`AddressBook.BookKeepsInvariantIff`); the sync
  it is part of repairs a missing default but no surplus (`AddressBook.SyncKeepsInvariantIff`).
- A fixed window lets an hour accept up to twice the limit less one, for every limit (`RateLimits.HourBoundIsSharp`).
- The dispatcher claims from a list it read earlier, so a campaign rescheduled in between goes out at the old time
  (`Campaigns.DispatchedIsDueIff`, case `Campaigns.RescheduledIsSentEarly`).
- The token cache reads token and lifetime in two steps; another instance's write in between can make it serve a dead
  token (`TokenLife.ReplacementHarmsIff`, case `TokenLife.ReplacedKeyServesDeadToken`). A load in flight, even one that
  is still waiting for its GET, can bring back an invalidated token (`TokenInvalidation.InvalidateForgetsIff`,
  `TokenInvalidation.DeletionForgetsIff`, case `TokenInvalidation.InvalidatedTokenCanReturn`).
- A cart of currencies with different numbers of decimals can show a subtotal that is not the sum of its lines
  (`CartTotals.MixedSubtotalIff`, case `CartTotals.RupeeAndYenDiffer`).
- Reconciliation can lose order history when the old primary is not linked to the customer, or when the e-mail's record is
  another customer's primary (`Reconcile.NothingLostIff`).

## Model

| member | source | states |
|---|---|---|
| `Customers.ResolveFindsRootIff` | src/auth/identity.service.ts:586-600 | The walk along `mergedIntoId` reaches the min(5, depth)-th ancestor, so it ends at the live root if and only if the customer lies at most five merges deep. |
| `Customers.MergeCommutesWithLoginIff` | src/auth/identity.service.ts:33-64 | Merging s into t commutes with login lookup for every identifier, by identity row or by primary column: what was found as s is found as t and anything else stays. It fails exactly when the lookup started five merges above s and found s. |
| `Customers.MergeCommutesForIdentities` | src/auth/identity.service.ts:33-64 | While no merged customer owns an identity, a lookup by identity row finds its owner itself and commutes with every merge. |
| `Customers.MergeKeepsForest` | src/admin/customers/admin-customer-merge.service.ts:335-338 | A merge keeps the pointers a forest: MERGED exactly with a pointer, every pointer to an existing row, every walk ending at a customer that is not merged. |
| `Customers.MergeKeepsColumns` | src/admin/customers/admin-customer-merge.service.ts:227-237 | Handing the source's Shopify id to a target without one never puts a phone, e-mail or Shopify id on two rows. |
| `Customers.MergeKeepsValid` | src/admin/customers/admin-customer-merge.service.ts:185-238 | All customer-side constraints and references survive a merge. |
| `Customers.MergeKeepsNoMergedIdentity` | src/admin/customers/admin-customer-merge.service.ts:202-205 | After a merge no identity row belongs to a merged customer, if none did before. |
| `Customers.MergeUnitesVisible` | src/orders/orders.service.ts:101-120 | The target sees exactly the Shopify records both customers saw; everyone else sees what they saw, except that a third customer's link to the source's primary record passes to the target. |
| `Login.StepKeepsValid` | src/auth/identity.service.ts:33-160 | Each step keeps the forest, the unique columns and all references: merge, block, unblock, login, linking of an identity, and every single write of record linking and reconciliation. |
| `Login.RunKeepsValid` | src/auth/identity.service.ts:33-160 | So does every run of them. |
| `Login.EveryWalkEndsAlive` | src/admin/customers/admin-customer-merge.service.ts:77-93 | In every reachable state every customer has a finite merge depth and its walk ends at a customer that is not merged. |
| `Login.MergedIsAbsorbing` | src/admin/customers/admin-customers.service.ts:200-242 | Over any run a merged customer stays merged, into the same target. |
| `Login.StepKeepsNoMergedIdentityIff` | src/auth/identity.service.ts:33-114 | The one step that can attach an identity to a merged customer is a login without identity row whose lookup starts more than five merges deep; every other step keeps identities off merged customers. |
| `Login.RunKeepsNoMergedIdentityIff` | src/auth/identity.service.ts:33-114 | Over a whole run no merged customer ever owns an identity if and only if none of its logins starts that deep. |
| `Login.LoginKeepsNoMergedIdentityIff` | src/auth/identity.service.ts:49-64 | The same for the login request, in both directions. |
| `Login.IdentityLoginIff` | src/auth/identity.service.ts:43-47 | The owner of a verified identifier can log in with it if and only if neither merged nor blocked, and is then the customer logged in. |
| `Login.LoginSettles` | src/auth/identity.service.ts:84-160 | A login leaves an active owner of the identity, with the value as primary unless another customer holds it. |
| `Login.LoginIsIdempotent` | src/auth/identity.service.ts:33-160 | Logging in again reaches the same customer and changes nothing. |
| `Login.DeepLoginLocksOut` | src/auth/identity.service.ts:586-600 | In that deep case the first login succeeds on a merged record and every later one fails. |
| `Login.DeepChainIsReachable` | src/auth/identity.service.ts:586-600 | The deep case is reachable: six merges of imported records, each into the next, from a valid table. |
| `Login.MergeMissesDeepLogin` | src/auth/identity.service.ts:586-600 | A reachable merge that does not commute with login: whoever was found as 5 over five merges is still found as 5 after 5 was merged into 6. |
| `LoginOutcome.LoginStartsFrom` | src/auth/identity.service.ts:38-64 | A lookup starts from whoever verified the identifier, else from whoever has it as phone or e-mail, else from nobody. |
| `LoginOutcome.OneMoreHop` | src/auth/identity.service.ts:586-600 | A walk of one more hop follows the pointer of where it got, if it leads anywhere. |
| `LoginOutcome.NewcomerStored` | src/auth/identity.service.ts:66-76 | Someone unknown gets one new row, active, with the identifier as phone or e-mail and nothing else, and the identity. |
| `LoginOutcome.KnownCustomerStored` | src/auth/identity.service.ts:33-160 | Someone known is refused exactly if blocked or if someone else verified the identifier; else only status and an empty, free phone or e-mail change, and the identity is recorded. |
| `LoginOutcome.LinkStores` | src/auth/identity.service.ts:84-160 | The same for linking an identifier to a given customer. |
| `LoginOutcome.MergeRefusedIff` | src/admin/customers/admin-customer-merge.service.ts:60-93 | Which merges are refused, and how: one and the same customer, a missing one, a merged one, a blocked target. |
| `LoginOutcome.StatusAndRecordWrites` | src/admin/customers/admin-customers.service.ts:200-266 | Blocking, unblocking and the single writes on Shopify ids and links, column by column. |
| `Login.IdentityService.ResolveMergeChain` | src/auth/identity.service.ts:586-600 | The bounded loop terminates on any data, dangling and cyclic pointers included, at the five-bounded ancestor. |
| `Login.IdentityService.ResolveOrCreateForLogin` | src/auth/identity.service.ts:33-76 | Finds by identity, then by primary column, else creates; a blocked customer is refused; says whether the customer is new. |
| `Login.IdentityService.ClaimVerifiedIdentity` | src/auth/identity.service.ts:84-114 | An identity is created, confirmed, or refused because someone else owns it; never taken over. |
| `Login.IdentityService.ActivateAndBackfill` | src/auth/identity.service.ts:121-160 | Imported becomes active, and an empty primary is filled only if no other customer holds the value. |
| `Login.IdentityService.LinkVerified` | src/auth/auth.service.ts:350-380 | Claim and activation together, without effect on error. |
| `Login.IdentityService.VerifyLogin` | src/auth/auth.service.ts:96-111 | The login transaction, rolled back on error, keeps the tables valid. |
| `OwnedRows.Partition` | src/admin/customers/admin-customer-merge.service.ts:387-408 | The loop over the source rows splits them into those whose key the target has and those it lacks. |
| `OwnedRows.MoveWithDedupe` | src/admin/customers/admin-customer-merge.service.ts:377-414 | Moves or drops every source row: moved and dropped add up to the source's rows and the table is the merged one. |
| `OwnedRows.MergeKeepsUnique` | src/admin/customers/admin-customer-merge.service.ts:370-414 | No customer has a key twice afterwards. |
| `OwnedRows.MergeUnitesKeys` | src/admin/customers/admin-customer-merge.service.ts:377-414 | The target has the union of both key sets, the source nothing, and no other row changes. |
| `CustomerMerge.ExecuteKeepsValid` | src/admin/customers/admin-customer-merge.service.ts:185-338 | A merge keeps every constraint of every table it rewrites: unique columns and keys, forest, one default address, one line per variant. |
| `CustomerMerge.TargetInheritsEverything` | src/admin/customers/admin-customer-merge.service.ts:202-338 | Afterwards the target has the union of both customers' visible Shopify records, identities, addresses, wishlist, recently viewed and devices, and the source has none of them, no cart and no live session. |
| `CustomerMerge.BystandersUntouched` | src/admin/customers/admin-customer-merge.service.ts:185-338 | Customers outside the merge keep their row, collections, identities, devices, cart and sessions. |
| `MergeOutcome.PlanCountsRows` | src/admin/customers/admin-customer-merge.service.ts:126-173 | The dry run counts the rows of the source, table by table, and its live sessions. |
| `MergeOutcome.AddressesAfter` | src/admin/customers/admin-customer-merge.service.ts:249-271 | Every address stays under its id and key, the source's as the target's, with content and age unchanged, and dropped only where the target had its key; the default flag of an arriving one stays only if the target had no address. |
| `MergeOutcome.TimesAfter` | src/admin/customers/admin-customer-merge.service.ts:273-309 | The same for wishlist and recently viewed, whose times are unchanged. |
| `MergeOutcome.OwnersAfter` | src/admin/customers/admin-customer-merge.service.ts:202-205 | Identities, devices and one-time codes of the source name the target, all others are as before. |
| `MergeOutcome.CustomersAfter` | src/admin/customers/admin-customer-merge.service.ts:213-238 | The two customers' rows, column by column, and no other row changes. |
| `MergeOutcome.LinksAfter` | src/admin/customers/admin-customer-merge.service.ts:207-225 | Which links there are and whose they are. |
| `MergeOutcome.CartAfter` | src/admin/customers/admin-customer-merge.service.ts:423-478 | Per variant the target has what both had, every line of it has variant and price of a line one of them had, and the source has no cart. |
| `MergeOutcome.OtherCartsAfter` | src/admin/customers/admin-customer-merge.service.ts:423-478 | Every other cart, and every line in it, is as it was. |
| `MergeOutcome.SessionsAfter` | src/admin/customers/admin-customer-merge.service.ts:327-333 | Just the source's live sessions end, now, and no other column of any session changes. |
| `CustomerMerge.AdminCustomerMergeService.Merge` | src/admin/customers/admin-customer-merge.service.ts:60-122 | Every refusal in order, the dry run that only counts, and the real run; its report is fulfilled: moved plus skipped equals what the dry run announced, table by table, and skipped is what is gone from the table. |
| `CustomerMerge.AdminCustomerMergeService.Execute` | src/admin/customers/admin-customer-merge.service.ts:185-368 | The transaction carries out all eleven steps on the tables. |
| `Addresses.CreatedKeepsInvariant` | src/addresses/addresses.service.ts:62-87 | `create` keeps exactly one default for every customer with an address. |
| `Addresses.CreatedRow` | src/addresses/addresses.service.ts:66-78 | What is stored: one row per fingerprint, default if asked for or the only one. |
| `Addresses.UpdatedKeepsInvariant` | src/addresses/addresses.service.ts:135-171 | `update` keeps it, when the new content does not collide with another address. |
| `Addresses.RemovedKeepsInvariant` | src/addresses/addresses.service.ts:173-186 | `remove` keeps it by making the newest remaining address the default. |
| `Addresses.SomeDefaultRepairs` | src/addresses/addresses.service.ts:517-529 | `ensureSomeDefault` restores it if and only if there was not more than one default. |
| `Addresses.ImportKeepsInvariant` | src/addresses/addresses.service.ts:324-364 | `importFromPastOrders` keeps it and leaves an existing default alone. |
| `AddressBook.BookKeepsInvariantIff` | src/addresses/addresses.service.ts:254-300 | The import of whole address books keeps it if and only if nothing new was brought, or the old default and the flagged entries with a new fingerprint are one in all. |
| `AddressBook.SyncKeepsInvariantIff` | src/addresses/addresses.service.ts:231-244 | With the import of past orders after it, which sets a missing default, it is kept if and only if they are at most one. |
| `AddressBook.BookAccounts` | src/addresses/addresses.service.ts:254-300 | What the import leaves: the fingerprints known before and those brought, as many defaults as before plus the flagged ones brought, and the rows of everyone else as they were. |
| `Addresses.MergeKeepsInvariant` | src/admin/customers/admin-customer-merge.service.ts:249-271 | A customer merge keeps it, whether or not the target had addresses. |
| `AddressService.AddressesService.Create` | src/addresses/addresses.service.ts:62-87 | The method does what the invariant lemma is about, upsert included. |
| `AddressService.AddressesService.Update` | src/addresses/addresses.service.ts:135-171 | Refuses foreign addresses and fingerprints the customer already has; else updates. |
| `AddressService.AddressesService.SetDefault` | src/addresses/addresses.service.ts:205-221 | Exactly the chosen own address is the default afterwards, however the flags were before. |
| `AddressService.AddressesService.Remove` | src/addresses/addresses.service.ts:173-203 | Removes an own address and passes the default on. |
| `AddressService.AddressesService.ImportFromPastOrders` | src/addresses/addresses.service.ts:324-364 | Inserts one row for each new fingerprint, contents from the first order carrying it, and returns how many. |
| `AddressService.AddressesService.EnsureSomeDefault` | src/addresses/addresses.service.ts:517-529 | Makes the newest address default where there is none. |
| `AddressService.AddressesService.ImportFromAddressBook` | src/addresses/addresses.service.ts:254-316 | The loop over records and entries inserts one row for each new fingerprint and counts them; the default invariant survives exactly under the condition of the lemma. |
| `AddressService.AddressesService.SyncFromShopify` | src/addresses/addresses.service.ts:231-244 | Both imports for a customer with Shopify records, with their counts; else nothing. |
| `AddressOutcome.CreateStores` | src/addresses/addresses.service.ts:62-87 | The row found or new carries the new content, with the age and flag it had; then the default moves to it if asked for or if it is the only one. |
| `AddressOutcome.UpdateStores` | src/addresses/addresses.service.ts:135-171 | The new content is stored under the new fingerprint with the age and flag the row had; then the default moves to it if asked for. |
| `AddressOutcome.RemoveTakesAway` | src/addresses/addresses.service.ts:173-203 | Just that row goes, and if it was the default the one created last takes over. |
| `AddressOutcome.MissingDefaultIsSet` | src/addresses/addresses.service.ts:517-529 | Only where there are addresses and no default, the one created last becomes it. |
| `AddressOutcome.DefaultMoves` | src/addresses/addresses.service.ts:205-221 | Only flags of that customer change. |
| `AddressOutcome.OrdersStore` | src/addresses/addresses.service.ts:338-361 | Past orders bring one row for each fingerprint missing, not default, with the content of the first order carrying it; no row changes. |
| `AddressOutcome.FirstOrderDecides` | src/addresses/addresses.service.ts:338-350 | Which order is the first, order by order. |
| `AddressOutcome.NextEntryStores` | src/addresses/addresses.service.ts:254-300 | Entry by entry: one that parses, is not refused and whose fingerprint is new brings its row with its content and flag. |
| `AddressOutcome.BookStores` | src/addresses/addresses.service.ts:254-300 | Every row an address book brings is that of one of its entries, and no row changes. |
| `AddressService.Deduplicate` | src/addresses/addresses.service.ts:338-350 | The loop keeps the first content of every fingerprint. |
| `AddressService.InsertMissing` | src/addresses/addresses.service.ts:352-361 | `createMany` with `skipDuplicates`. |
| `RecentlyViewed.ViewMovesToFront` | src/wishlist/wishlist.service.ts:87-97 | After a view the customer sees the list with that product moved to the front and cut to 20, even if a merge had left more than 20 rows. |
| `RecentlyViewed.RunRefinesMru` | src/wishlist/wishlist.service.ts:76-97 | Over every run of views by any customers each one's listing is the bounded most-recently-used list of its own views. |
| `ViewOutcome.ListIsRecent` | src/wishlist/wishlist.service.ts:76-97 | That list means: at most 20 products, all viewed, later views first, and one that is missing has 20 others viewed since. |
| `ViewOutcome.RecentIsUnique` | src/wishlist/wishlist.service.ts:76-97 | No other list means that. |
| `ViewOutcome.ViewStores` | src/wishlist/wishlist.service.ts:87-143 | A view stores its time on the product's row, leaves at most 20 rows of the viewer, the latest, and no other row changes. |
| `RecentlyViewed.ShowsUnique` | src/wishlist/wishlist.service.ts:76-85 | With distinct times the listing is determined by the table. |
| `RecentlyViewed.OthersSeeTheSame` | src/wishlist/wishlist.service.ts:130-143 | A view and its trimming leave every other customer's listing alone. |
| `RecentlyViewed.WishlistService.RecordView` | src/wishlist/wishlist.service.ts:87-97 | Upsert and trim realise the view step. |
| `RecentlyViewed.WishlistService.TrimRecentlyViewed` | src/wishlist/wishlist.service.ts:130-143 | Exactly the rows beyond the 20 latest go. |
| `RecentlyViewed.WishlistService.ListRecentlyViewed` | src/wishlist/wishlist.service.ts:76-85 | Returns what the listing predicate describes. |
| `Carts.MergeCarts` | src/admin/customers/admin-customer-merge.service.ts:423-478 | Per variant the target's quantity is the sum of both, the total is conserved, the source has no cart, no cart has two lines of a variant, target lines keep their price, and no other cart changes. |
| `Carts.PourLines` | src/admin/customers/admin-customer-merge.service.ts:451-472 | The loop of upserts places the source lines one after the other in the target cart. |
| `Carts.PouringAdds` | src/admin/customers/admin-customer-merge.service.ts:451-472 | Placing them adds each source line to the target's line of that variant, whatever their order. |
| `Carts.MergingMerges` | src/admin/customers/admin-customer-merge.service.ts:423-478 | From the writes alone, on every branch: one line per variant, per-variant sums, the source without a cart, bystanders untouched. |
| `Carts.MergingKeepsPrices` | src/admin/customers/admin-customer-merge.service.ts:423-478 | On every branch, lines new to the target carry variant and price of a line of the source, and the target's cart keeps its discount code. |
| `Carts.AddingAdds` | src/cart/cart.service.ts:44-73 | From the writes alone: the item's quantity is added to the one line of its variant, and nothing else changes. |
| `Carts.SameCartSameQuantities` | src/cart/cart.service.ts:183-229 | A cart whose rows did not change shows the same quantities. |
| `Carts.PlacedQuantities` | src/cart/cart.service.ts:59-73 | An upsert adds its quantity to its own cart and variant and to no other. |
| `Carts.OneLine` | src/cart/cart.service.ts:59-73 | The quantity of a variant is the quantity on its one line. |
| `CartRuns.StepKeepsValid` | src/cart/cart.service.ts:44-114 | Each of add, update, remove, clear and merge, given only as the writes it makes, keeps one cart per customer and one line per variant. |
| `CartRuns.RunKeepsOneLine` | src/cart/cart.service.ts:44-114 | So does every run of them. |
| `CartRuns.QuantitiesAddUp` | src/cart/cart.service.ts:44-114 | Each of these moves every customer's quantity of every variant by exactly what it says, and nothing else. |
| `Carts.CartService.AddItem` | src/cart/cart.service.ts:44-77 | Refuses missing and sold-out variants; else adds to the one line of the variant, whose first price stays, creating cart and line as needed. |
| `Carts.CartService.UpdateItem` | src/cart/cart.service.ts:79-97 | Sets the quantity of a line in the caller's own cart, and finds no other line. |
| `Carts.CartService.RemoveItem` | src/cart/cart.service.ts:99-109 | Removes a line of the caller's own cart, and finds no other line. |
| `Carts.CartService.Clear` | src/cart/cart.service.ts:111-114 | Empties the caller's cart and nothing else. |
| `RefreshTokens.OneLiveTokenPerFamily` | src/auth/token.service.ts:74-119 | A family has at most one unrevoked token, and it is its newest row. |
| `RefreshTokens.RunKeepsValid` | src/auth/token.service.ts:38-143 | Over every run `replacedById` leads from each row of a family to the next in creation order, one simple path. |
| `RefreshTokens.ReuseEndsFamily` | src/auth/token.service.ts:86-93 | Presenting a revoked token is refused and leaves its family without a live token. |
| `RefreshTokens.DeadFamilyNeverRevives` | src/auth/token.service.ts:86-143 | No later request revives such a family. |
| `RefreshTokens.MergedNeverRotates` | src/auth/token.service.ts:99-101 | No token of a merged customer ever rotates again. |
| `RefreshTokens.LiveTokenRotates` | src/auth/token.service.ts:95-119 | The converse: a live token rotates if and only if it is unexpired and its customer active, into a live token of its family. |
| `SessionOutcome.RotationOutcome` | src/auth/token.service.ts:103-119 | The token rotated is revoked now and points to the new one, which has the same customer and family and lives for the time given; nothing else changes. |
| `SessionOutcome.RotationRefused` | src/auth/token.service.ts:86-101 | A revoked token ends the live sessions of its family, now, and no other; an expired one, or one of a customer who is not active, changes nothing. |
| `SessionOutcome.UnknownIsRefused` | src/auth/token.service.ts:82-84 | A token nobody was given is refused and changes nothing. |
| `SessionOutcome.LoginOutcome` | src/auth/token.service.ts:38-65 | A login adds one session of a family of its own that lives for the time given. |
| `SessionOutcome.LogoutEndsOne` | src/auth/token.service.ts:122-127 | Logging out ends the session presented and no other. |
| `SessionOutcome.LogoutEverywhereEndsAll` | src/auth/token.service.ts:130-136 | Logging out everywhere ends the customer's live sessions and no other. |
| `SessionOutcome.RevokingEndsOne` | src/admin/customers/admin-customers.service.ts:314-321 | An administrator ends one session, of the customer named. |
| `SessionOutcome.StatusRequests` | src/admin/customers/admin-customers.service.ts:197-266 | Blocking, unblocking, activating and merging: which change the status, to what, and whose sessions end. |
| `RefreshTokens.TokenService.Login` | src/auth/token.service.ts:38-65 | A new family with one token. |
| `RefreshTokens.TokenService.Rotate` | src/auth/token.service.ts:74-119 | Every branch of rotation. |
| `RefreshTokens.TokenService.Revoke` | src/auth/token.service.ts:122-127 | Revokes the one token presented. |
| `RefreshTokens.TokenService.RevokeAllForCustomer` | src/auth/token.service.ts:130-136 | Revokes and counts the live tokens of a customer. |
| `RefreshTokens.AdminCustomersService.Block` | src/admin/customers/admin-customers.service.ts:197-235 | Blocks and ends all sessions, or says why not. |
| `RefreshTokens.AdminCustomersService.Unblock` | src/admin/customers/admin-customers.service.ts:237-266 | Only a blocked customer is unblocked, and no session comes back. |
| `RefreshTokens.AdminCustomersService.RevokeSession` | src/admin/customers/admin-customers.service.ts:314-321 | Ends one live session of that customer, and finds no other. |
| `RateLimits.KeysDistinct` | src/auth/otp/otp.service.ts:213-233 | No two limits share a Redis key, and a key determines what it counts. |
| `RateLimits.AcceptedAreSpaced` | src/auth/otp/otp.service.ts:210-222 | Over every timed run two accepted requests for one purpose and identifier are at least the cooldown apart. |
| `RateLimits.WindowAcceptsAtMost` | src/auth/otp/otp.service.ts:227-251 | A fixed window accepts at most its limit: per identifier over both purposes, and per IP address. |
| `RateLimits.HourAcceptsAtMost` | src/auth/otp/otp.service.ts:227-251 | Any half-open hour, wherever it starts, accepts at most twice the limit less one. |
| `RateLimits.HourBoundIsSharp` | src/auth/otp/otp.service.ts:227-240 | For every limit a run attains that bound for an identifier, if the cooldown lets so many codes of one purpose fall into an hour. |
| `RateVerdicts.AcceptedIff` | src/auth/otp/otp.service.ts:205-256 | Over every timed run, told from the requests before it alone: a request is accepted if and only if its identifier is not empty, none for its purpose and identifier got through less than the cooldown before, fewer than the limit were counted in its identifier's open window, and, if it carries an address, in its address's. |
| `RateVerdicts.AddressBoundIsSharp` | src/auth/otp/otp.service.ts:241-251 | For every limit, whatever the cooldown, one address attains the hourly bound. |
| `RateLimits.RedisService.IncrementWithWindow` | src/redis/redis.service.ts:51-60 | A window starts with its first hit and does not slide. |
| `RateLimits.RedisService.AcquireCooldown` | src/redis/redis.service.ts:69-72 | The lock is taken if and only if none is alive. |
| `RateLimits.OtpRateLimiter.EnforceRateLimits` | src/auth/otp/otp.service.ts:205-256 | Cooldown, identifier and IP limits in order; a refusal keeps what was counted before it. |
| `OtpCodes.StepKeepsValid` | src/auth/otp/otp.service.ts:59-81 | Issuing, verifying and merging keep older codes of a key spent and attempts within the limit. |
| `OtpCodes.OneUsableCodePerKey` | src/auth/otp/otp.service.ts:59-69 | At any moment at most one code of an identifier and purpose is usable: the one issued last. |
| `OtpCodes.CodeIsTriedAtMost` | src/auth/otp/otp.service.ts:113-157 | Over any run each comparison of a code is counted in `attempts` or is its one success, there are never more than the attempts left, and none once it is consumed. |
| `OtpCodes.IssuedCodeIsTriedAtMost` | src/auth/otp/otp.service.ts:113-157 | A code a run issues is compared at most `maxAttempts` times and accepted at most once. |
| `OtpCodes.RunKeepsRow` | src/auth/otp/otp.service.ts:160-165 | Consumption is permanent, and a code's owner changes only as merges rename it. |
| `OtpCodes.RunRefinesSlot` | src/auth/otp/otp.service.ts:43-157 | Over every run the table behaves, for each key, as one slot that issuing overwrites, wrong guesses wear out, and success or expiry empties. |
| `OtpCodes.VerdictRefinesSlot` | src/auth/otp/otp.service.ts:106-157 | Every verification is answered as that slot would: with the customer of the latest issue, as merged since, or refused. |
| `OtpCodes.MessagesAgree` | src/auth/otp/otp.service.ts:179-187 | For one key two hashed messages agree if and only if kind and code do. |
| `OtpCodes.IssuedCodeIsAccepted` | src/auth/otp/otp.service.ts:106-157 | Right after an issue exactly its code for exactly its identifier is accepted, until it expires. |
| `OtpOutcome.IssueStores` | src/auth/otp/otp.service.ts:59-81 | The pending codes of the key are consumed now, the new one has no attempts and the time and limit given, and no other row changes. |
| `OtpOutcome.VerifyStores` | src/auth/otp/otp.service.ts:113-157 | The latest pending code: accepted and consumed, or refused at the cost of an attempt, the last of which consumes, or consumed unseen; no other row changes. |
| `OtpOutcome.NothingPending` | src/auth/otp/otp.service.ts:113-126 | Without a pending code every verification is refused and changes nothing. |
| `OtpOutcome.MergeRenames` | src/admin/customers/admin-customer-merge.service.ts:317-321 | A merge renames the source and changes nothing else. |
| `OtpCodes.OtpService.Issue` | src/auth/otp/otp.service.ts:43-99 | A refused request leaves the table alone; an accepted one retires the pending codes and adds one. |
| `OtpCodes.OtpService.Verify` | src/auth/otp/otp.service.ts:106-157 | Every branch of verification, with its effect on the row. |
| `Campaigns.RunKeepsValid` | src/notifications/notifications.service.ts:106-153 | In every interleaving a row is SENDING exactly while one process has it claimed, ids are not reused and audiences stay well-shaped. |
| `Campaigns.ClaimedAtMostOnce` | src/notifications/notifications.service.ts:106-113 | However sends, dispatches and edits interleave, a notification is claimed at most once, and never when it is no longer editable or gone. |
| `Campaigns.StatusTellsClaims` | src/notifications/notifications.service.ts:106-113 | A row still there tells exactly how often it was claimed: once if SENDING, SENT or FAILED, else never. |
| `Campaigns.FinalRowsStay` | src/admin/notifications/admin-notifications.service.ts:359-370 | SENT, FAILED and CANCELLED rows never change again; SENT rows cannot be deleted either. |
| `Campaigns.ClaimsEnd` | src/notifications/notifications.service.ts:133-151 | When nobody is sending any more, every claimed and undeleted notification is SENT or FAILED. |
| `Campaigns.OutcomeIsRecorded` | src/notifications/notifications.service.ts:133-151 | The end of a delivery reaches its row, unless that was deleted meanwhile. |
| `Campaigns.DispatchedIsDueIff` | src/notifications/notifications.service.ts:159-183 | What a dispatcher claims is still due by its listing if and only if the last accepted edit of its time left it due. |
| `Campaigns.RescheduledIsSentEarly` | src/notifications/notifications.service.ts:159-183 | A concrete interleaving in which a campaign moved to a later time is sent at the old one. |
| `Campaigns.SelectedAreIntended` | src/notifications/notifications.service.ts:343-397 | The devices selected for a row are those of just the active customers its columns mean: all, the one named, or by cart time, wishlist, last login or creation. |
| `CampaignOutcome.CreateStores` | src/admin/notifications/admin-notifications.service.ts:94-127 | Which campaigns are accepted and what the new row holds. |
| `CampaignOutcome.UpdateStores` | src/admin/notifications/admin-notifications.service.ts:129-164 | Which edits are accepted and what each column of the row is afterwards, the audience included. |
| `CampaignOutcome.CancelAndRemove` | src/admin/notifications/admin-notifications.service.ts:207-249 | Cancelling changes the status only; removing takes any row that was not sent. |
| `CampaignOutcome.ClaimStores` | src/notifications/notifications.service.ts:106-113 | What a claim does to row and process, and when it fails. |
| `CampaignOutcome.FinishStores` | src/notifications/notifications.service.ts:133-151 | What the end of a delivery writes. |
| `CampaignOutcome.DueAnswerMeans` | src/notifications/notifications.service.ts:160-168 | The list is due rows, each once, by time, all of them unless 20 others are as early. |
| `Campaigns.NotificationsService.Create` | src/admin/notifications/admin-notifications.service.ts:94-127 | Refuses a malformed audience or a time not in the future. |
| `Campaigns.NotificationsService.MustBeEditable` | src/admin/notifications/admin-notifications.service.ts:359-370 | Only drafts and scheduled rows are handed out for editing. |
| `Campaigns.NotificationsService.Update` | src/admin/notifications/admin-notifications.service.ts:129-164 | Edits an editable row if its audience stays well-shaped; a time schedules it. |
| `Campaigns.NotificationsService.Cancel` | src/admin/notifications/admin-notifications.service.ts:207-225 | Cancels an editable row. |
| `Campaigns.NotificationsService.Remove` | src/admin/notifications/admin-notifications.service.ts:227-249 | Deletes any row that was not sent. |
| `Campaigns.NotificationsService.Claim` | src/notifications/notifications.service.ts:107-113 | One conditional update, which succeeds on editable rows only. |
| `Campaigns.NotificationsService.Send` | src/notifications/notifications.service.ts:106-153 | A send without interference targets exactly the devices of those its columns mean, and ends SENT with true counts; or, where the sender throws or a write is refused, FAILED, with what was stored before the refused write kept. |
| `Campaigns.NotificationsService.FindDue` | src/notifications/notifications.service.ts:160-168 | At most 20 due rows, the oldest, oldest first, none passed over. |
| `Campaigns.NotificationsService.DispatchDue` | src/notifications/notifications.service.ts:159-183 | Every listed row ends SENT or FAILED, the SENT ones are counted, and no other row changes. |
| `Delivery.AudiencesAreActive` | src/notifications/notifications.service.ts:343-397 | Only active customers are targeted; every segment is part of everyone; one customer's devices are that one's only. |
| `Delivery.BatchesAreTheTargets` | src/notifications/notifications.service.ts:251-268 | For every batch size the batches concatenate to the target list, all full but the last. |
| `Delivery.CountsAddUp` | src/notifications/notifications.service.ts:270-281 | Whatever the sender answers, sent plus failed is the number of answers that name a token of their batch. |
| `Delivery.DeliveryAccounts` | src/notifications/notifications.service.ts:247-332 | With distinct tokens and one answer each, sent plus failed is the number of targets, no target fails twice, the failures are the failed targets with their reasons, and the tokens to remove are those reported invalid. |
| `Delivery.DeliveredAccounts` | src/notifications/notifications.service.ts:247-332 | The same for what the service stores and for which devices it removes. |
| `Delivery.RemovedAreRecorded` | src/notifications/notifications.service.ts:286-308 | Whichever write the database refuses, no device is removed without a stored failure of its owner. |
| `DeliveryOutcome.ReportIsTrue` | src/notifications/notifications.service.ts:283-332 | With distinct tokens and one answer each, the counts are the targets, those that did not fail, those that failed, and the devices whose token was reported dead. |
| `DeliveryOutcome.StoredIsTrue` | src/notifications/notifications.service.ts:286-308 | Just those devices go, and one failure is stored for each target that failed, with its customer and the first 500 characters of its error. |
| `DeliveryOutcome.RefusedWrite` | src/notifications/notifications.service.ts:286-318 | What a refused write leaves undone, write by write. |
| `DeliveryOutcome.EachBatchIsAsked` | src/notifications/notifications.service.ts:251-268 | The sender is asked batch by batch about the tokens of that batch, in order. |
| `DeliveryOutcome.ThrowsIff` | src/notifications/notifications.service.ts:251-268 | A delivery throws if and only if the sender does for one of the slices of the target list. |
| `Delivery.PushDelivery.FindTargets` | src/notifications/notifications.service.ts:215-222 | The devices of the audience's active customers, once each. |
| `Delivery.PushDelivery.PushAll` | src/notifications/notifications.service.ts:251-282 | The batch loop computes that tally, or throws with the sender. |
| `Delivery.PushDelivery.CountAnswers` | src/notifications/notifications.service.ts:270-281 | The loop over one batch's answers. |
| `Delivery.PushDelivery.Deliver` | src/notifications/notifications.service.ts:205-333 | Targets, counts, failure rows and removed devices of a delivery; nothing stored when the sender throws, and the writes before a refused one kept. |
| `TokenCache.AtMostOneLoad` | src/shopify/shopify-token.service.ts:63-70 | Under every interleaving at await points at most one load runs. |
| `TokenCache.JoinersShareOneAnswer` | src/shopify/shopify-token.service.ts:63-70 | All callers that joined a load are answered together with what it got. |
| `TokenLife.MemoryTokenHasMargin` | src/shopify/shopify-token.service.ts:89-147 | Under every interleaving whose replacements are harmless, a token served from memory has more than its margin of real life left, less the lag of its grant and half a second of rounding; 300 seconds less these when granted for 360 or more. |
| `TokenLife.TtlServesDeadIff` | src/shopify/shopify-token.service.ts:90-95 | When the TTL is answered, a dead token will be served at some moment if and only if the end of whatever the key then holds, rounded, lies after both now and the real expiry of the token read; the margin is kept if and only if that end keeps it. |
| `TokenLife.ReplacementHarmsIff` | src/shopify/shopify-token.service.ts:90-95 | A replacement of the key between GET and TTL makes a dead token be served if and only if its own storing time plus the TTL of its own grant, rounded, passes the real expiry of the token read; likewise for the margin. |
| `TokenLife.ReplacedKeyServesDeadToken` | src/shopify/shopify-token.service.ts:90-95 | A concrete run in which that happens. |
| `TokenInvalidation.NeverAgainIff` | src/shopify/shopify-token.service.ts:56-95 | In every valid state a token is never handed out again, whatever follows, if and only if no load carries it and neither cache is alive with it. |
| `TokenInvalidation.ForgottenForGood` | src/shopify/shopify-token.service.ts:77-81 | The direction that holds over every run. |
| `TokenInvalidation.DeletionForgetsIff` | src/shopify/shopify-token.service.ts:77-81 | At the deletion that ends `invalidate`, whatever ran since its call, the token is never handed out again if and only if at that moment no load carries it and memory does not hold it. |
| `TokenInvalidation.InvalidateForgetsIff` | src/shopify/shopify-token.service.ts:77-81 | From the call on, whatever is interleaved with its two halves in the order of one connection, that holds if and only if at the call no load carried the token and none was waiting for the GET of a key alive with it. |
| `TokenInvalidation.InvalidatedTokenCanReturn` | src/shopify/shopify-token.service.ts:77-95 | In every state that awaits the TTL of a living key: if it is answered before the deletion, the invalidated token is back in memory for its whole life. |
| `TokenOutcome.CallerIsServed` | src/shopify/shopify-token.service.ts:56-71 | A caller is answered from a living memory entry, else joins the load that runs, else starts one; nothing else changes. |
| `TokenOutcome.GetIsAnswered` | src/shopify/shopify-token.service.ts:89-98 | A living key leads to its TTL, any other to Shopify. |
| `TokenOutcome.TtlIsAnswered` | src/shopify/shopify-token.service.ts:92-94 | Memory gets the token for what is left of the key to the nearest second, and just those who joined are answered. |
| `TokenOutcome.FetchIsAnswered` | src/shopify/shopify-token.service.ts:107-136 | The grant is noted; nothing is cached yet. |
| `TokenOutcome.SetIsAnswered` | src/shopify/shopify-token.service.ts:130-147 | Key and memory hold the token until five minutes before the end of its granted life, counted from the SET, or for a minute. |
| `TokenOutcome.FailureIsShared` | src/shopify/shopify-token.service.ts:66-68 | A failing load leaves what is cached and fails just those who joined. |
| `TokenOutcome.OtherWrites` | src/shopify/shopify-token.service.ts:77-79 | The two halves of `invalidate`, and another instance's write. |
| `TokenCache.ShopifyTokenService.GetToken` | src/shopify/shopify-token.service.ts:56-71 | Memory, then the running load, then a new one. |
| `TokenCache.ShopifyTokenService.AfterGet` | src/shopify/shopify-token.service.ts:89-98 | The load after its GET. |
| `TokenCache.ShopifyTokenService.AfterTtl` | src/shopify/shopify-token.service.ts:92-94 | The load after its TTL. |
| `TokenCache.ShopifyTokenService.AfterFetch` | src/shopify/shopify-token.service.ts:107-136 | The load after the grant. |
| `TokenCache.ShopifyTokenService.AfterSet` | src/shopify/shopify-token.service.ts:130-147 | The load after its SET. |
| `TokenCache.ShopifyTokenService.AfterFailure` | src/shopify/shopify-token.service.ts:66-68 | A load that throws still frees the shared promise. |
| `TokenCache.ShopifyTokenService.Invalidate` | src/shopify/shopify-token.service.ts:77-79 | Memory is forgotten before the key. |
| `Money.MinorRoundTrip` | src/common/utils/money.util.ts:57-64 | For 0 <= m <= 2^50 in at most 22 decimals, printing minor units and reading them back gives m, for every rounding of the doubles that keeps to their standard between 1e-28 and 1e30. |
| `Money.MinusRoundTrip` | src/common/utils/money.util.ts:57-64 | The same for negative minor units. |
| `Money.StringRoundTrip` | src/common/utils/money.util.ts:43-64 | A plain decimal that is a whole number of minor units comes back, and is normalized, as the one canonical string of its value. |
| `Money.NumberIff` | src/common/utils/money.util.ts:43-58 | Which strings read as a number: digits, or digits around a point, behind a minus sign or none; `Number` agrees on these. |
| `Money.NegativeRoundTrip` | src/common/utils/money.util.ts:35-64 | A negative amount reads, prints and is normalized as the positive one with a sign. |
| `Money.FixedDenotes` | src/common/utils/money.util.ts:62-64 | What `toFixed` prints has exactly d decimals, no needless zero in front, and exactly that value. |
| `Money.CanonicalIsUnique` | src/common/utils/money.util.ts:43-46 | Two canonical strings of one value are equal. |
| `Money.FractionDigits.Get` | src/common/utils/money.util.ts:20-33 | The cache never changes an answer. |
| `CartTotals.MinorsAreExact` | src/cart/cart.service.ts:186-212 | Within 2^50 minor units the doubles of a cart are exact. |
| `CartTotals.SubtotalIsTheSum` | src/cart/cart.service.ts:183-229 | In a cart of one currency the printed subtotal is exactly the sum of the printed line totals. |
| `CartTotals.LineCosts` | src/cart/cart.service.ts:186-212 | A line shows exactly its price, and exactly price times quantity. |
| `CartTotals.SubtotalCosts` | src/cart/cart.service.ts:205-228 | In a cart of one currency the subtotal shown is exactly the sum of price times quantity, in that currency. |
| `CartTotals.SubtotalIsBill` | src/cart/cart.service.ts:203-228 | In any cart it is the minor units of all lines in the digits of the first one's currency, or of INR if there is none. |
| `CartTotals.PiecesAddUp` | src/cart/cart.service.ts:223-223 | The item count is the sum of the quantities. |
| `CartTotals.MixedSubtotalIff` | src/cart/cart.service.ts:205-222 | In every cart, whatever its currencies, that holds if and only if what the lines in fewer decimals than the first one's lose in the subtotal equals what the lines in more decimals gain. |
| `CartTotals.OneSidedSubtotalIff` | src/cart/cart.service.ts:205-222 | With errors of one direction only, if and only if every line in other decimals is worth nothing. |
| `CartTotals.RupeeAndYenDiffer` | src/cart/cart.service.ts:205-222 | A concrete cart of one rupee and one yen whose subtotal is 1.01. |
| `CartTotals.ErrorsCanCancel` | src/cart/cart.service.ts:205-222 | Three lines in three different decimals whose errors cancel. |
| `CsvExport.CellIsRead` | src/admin/customers/admin-customers.service.ts:572-576 | A quoted cell is read back as its text, whatever it contains. |
| `CsvExport.LineIsRead` | src/admin/customers/admin-customers.service.ts:432-449 | A line is read back as the record of its cells. |
| `CsvExport.ColumnsMatchHeader` | src/admin/customers/admin-customers.service.ts:419-447 | Every value stands under the name of its column. |
| `CsvExport.ExportRoundTrip` | src/admin/customers/admin-customers.service.ts:411-452 | Reading an export by section 2 of RFC 4180 gives the header and exactly the exported rows, absent values as empty fields. |
| `SearchQuery.TwoPassesEscape` | src/products/shopify-product.repository.ts:100-102 | Replacing backslashes and then quotes escapes every character once. |
| `SearchQuery.QuoteReads` | src/products/shopify-product.repository.ts:100-102 | A quoted value is read back whatever it contains. |
| `SearchQuery.QueryRoundTrip` | src/products/shopify-product.repository.ts:83-93 | Reading a query gives `status:ACTIVE` and exactly the filters supplied. |
| `SearchQuery.SuppliedFilters` | src/products/shopify-product.repository.ts:83-93 | The filters supplied are those neither absent nor empty, each under its field, in the source's order. |
| `SearchQuery.BuildSearchQuery` | src/products/shopify-product.repository.ts:83-93 | The method that pushes and joins the parts builds that query. |
| `Reconcile.BestHasMostOrders` | src/auth/identity.service.ts:337-338 | The record chosen has the most orders, and is the first such. |
| `Reconcile.NothingLostIff` | src/auth/identity.service.ts:324-455 | Whatever Shopify answers, every order in sight stays in sight if and only if the old primary has no orders or is linked to the customer; where another customer's primary makes the update fail, the e-mail's record must be linked instead. |
| `Reconcile.PreparedKeepsOrders` | src/auth/identity.service.ts:324-455 | The direction callers rely on, on every branch, failures included. |
| `Reconcile.UnpreparedLoses` | src/auth/identity.service.ts:389-404 | The other direction: the answer that loses an order. |
| `Reconcile.ReconcileCompletes` | src/auth/identity.service.ts:407-446 | A reconciliation that goes through also shows the e-mail record's own orders, leaves a primary that exists and no link to the record deleted or merged away, and writes the phone if and only if there was no old record or it could be deleted. |
| `ReconcileOutcome.EmailReachesOwnRecord` | src/auth/identity.service.ts:341-352 | Without a match the e-mail, and nothing else, is written to the customer's own record, if the update is accepted. |
| `ReconcileOutcome.PrimaryIsFound` | src/auth/identity.service.ts:407-455 | The record found is the primary or there was none: it becomes the primary, and the customer's phone, and nothing else, is written to it if it lacks one and the update is accepted. |
| `ReconcileOutcome.EmptyRecordIsDeleted` | src/auth/identity.service.ts:371-455 | The app's own empty record is deleted, the record found becomes the primary, and the phone is written likewise. |
| `ReconcileOutcome.RecordsAreMerged` | src/auth/identity.service.ts:375-437 | Records merged: which is kept, its orders, e-mail, phone and origin, and that the other and its link are gone. |
| `ReconcileOutcome.OldRecordStays` | src/auth/identity.service.ts:396-437 | In every other case Shopify is unchanged and the record found becomes the primary. |
| `ReconcileOutcome.UnreachableAborts` | src/auth/identity.service.ts:371-373 | No answer to the deletion: nothing is changed anywhere. |
| `ReconcileOutcome.DeletionAnswers` | src/shopify/shopify-customer.service.ts:237-283 | When a record is given up for deletion, and which reason is given otherwise. |
| `Reconcile.MergeKeepsPhone` | src/auth/identity.service.ts:381-388 | When only the app's record had a phone, the survivor of a merge has it, and all orders of both. |
| `Reconcile.OthersSeeTheSame` | src/auth/identity.service.ts:413-422 | Other customers lose nothing but a link to the record that is gone. |
| `Reconcile.ReconcilingIsARun` | src/auth/identity.service.ts:407-437 | What a reconciliation writes locally is a run of the steps of `Login`, so what those keep over every run it keeps. |
| `Reconcile.ReconcileKeepsValid` | src/auth/identity.service.ts:407-437 | Unique columns, forest and references survive. |
| `Reconcile.LinksOnlyGrow` | src/auth/identity.service.ts:186-196 | Records found are linked unless someone holds them, and no link changes hands. |
| `Reconcile.LinkingIsARun` | src/auth/identity.service.ts:175-213 | Linking is such a run, too. |
| `Reconcile.LinkingKeepsValid` | src/auth/identity.service.ts:175-213 | Linking keeps the tables valid. |
| `Reconcile.LinkingShowsRecords` | src/auth/identity.service.ts:175-213 | Linking shows the customer every record found that nobody else had linked and takes nothing from anyone. |
| `Reconcile.ShopifyIdentityService.LinkShopifyRecords` | src/auth/identity.service.ts:175-213 | The request, with the number of links created. |
| `Reconcile.ShopifyIdentityService.SetPrimaryShopifyCustomer` | src/auth/identity.service.ts:513-541 | Sets only an empty primary, to the best match, if no other customer has it. |
| `Reconcile.ShopifyIdentityService.DeleteCustomerIfEmpty` | src/shopify/shopify-customer.service.ts:237-283 | Gives up only an existing, order-free record of the app's own, with the reason otherwise. |
| `Reconcile.ShopifyIdentityService.MergeCustomers` | src/shopify/shopify-customer.service.ts:315-407 | Reports the survivor Shopify chose, or that nothing was merged; it never throws. |
| `Reconcile.ShopifyIdentityService.SettleOrphan` | src/auth/identity.service.ts:366-405 | Shopify's side of reconciliation: delete, merge or leave alone. |
| `Reconcile.ShopifyIdentityService.AdoptPrimary` | src/auth/identity.service.ts:407-437 | The local side: primary, removed link, added link, or a unique-column failure. |
| `Reconcile.ShopifyIdentityService.ReconcileAfterEmailVerified` | src/auth/identity.service.ts:324-465 | The whole request does what the lemmas are about. |

## Left out

- Controllers, validation decorators, guards, modules, interceptors, configuration, logging and audit records: wiring.
- GraphQL and HTTP clients, response mappers and the pushing of addresses to Shopify: foreign calls; their outcomes are parameters.
- Two requests interleaving inside unguarded read-then-write code (two merges, rotations or verifications at once): each is one step here, and the guarantees are stated for that.
- Cryptography, randomness, password hashing, JWT signing and phone parsing: injective, fresh or opaque.
- Prisma and Redis beyond the atomic meaning of the calls used, including deletion of cache keys by pattern and failures of Redis.
- Merging in Shopify is asynchronous there; the model moves the orders at once. The phone a merged record keeps without an override is the survivor's own.
- OtpCodes.OtpService.Verify: takes the submitted code already trimmed; the three readings of the clock within one request are one.
- Money.StringRoundTrip: reads plain decimals with an optional sign; exponents, hexadecimal, blanks, the exponent form of `toFixed` from 10^21 and currencies of more than 22 decimals (`toFixed` itself refuses more than 100) are not modelled.
- CartTotals.SubtotalIsTheSum: a price that is no number gives NaN in the original and counts nothing here, outside what the theorem needs.
- RateLimits.OtpRateLimiter.EnforceRateLimits: the retry time a refusal reports, and the administrator's reset of the limits, are not modelled.
- AddressService.AddressesService.Create: content is one string with its fingerprint; name backfill and the Shopify push are not modelled.
- Carts.CartService.AddItem: title, image and product columns of a line, and the discount requests, are not modelled.
- AddressService.AddressesService.Update: which error the database raises for a fingerprint in use is not modelled; it is `Internal`, as is every error that escapes unmapped.
- AddressService.AddressesService.ImportFromAddressBook: an entry is its fingerprint, content and flag, or one without a usable address; whether the insertion is refused by the database is part of the entry.
- Campaigns.NotificationsService.Send: a database error at the claim, at a read, or at the update that marks FAILED is not modelled.
- Delivery.PushDelivery.Deliver: platform, title, body, links and the masked token of a failure row are not modelled.
- CustomerMerge.AdminCustomerMergeService.Merge: the audit record and the phone and e-mail echoed in the report are not modelled.
- RefreshTokens.TokenService.Login: device, user agent and address of a session are not modelled.
- Reconcile.ShopifyIdentityService.MergeCustomers: preview errors, refusals and exceptions are one answer, because the caller treats them alike.
- Creating a Shopify customer for a new user, filling in names and profile updates: single branches beside what is proved; the local writes of the first are steps of `Login`.
- Wishlist add and remove, CMS content, dashboard counts, list filters, pagination, influencer requests: they would add only easy members.
