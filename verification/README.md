# A verified model of the shop's core

The shop keeps three SQLite databases that share nothing: products, catalog, and orders. Products are
written in one database and shown from another; a transactional outbox, a polling relay and a projection
carry each change across. Carts become orders at checkout. This project models that core in Dafny and proves
what it promises over every run. `dafny verify dfyconfig.toml` checks all of it.

## What is modelled

- **Replication** (`Outbox`, `Relay`, `Projection`, `Products`, `Histories`, `LastWrites`, `Replication`,
  `Protocol`, `Recovery`, `Views`, `DeadLetters`, `Losses`, `Redelivery`, `Limits`, `Sharing`, `Slugs`).
  `ProductRepo` writes rows and events in one transaction. `RelayTick` reads pending events in id order, counts
  failures, dead-letters after ten, and marks the delivered batch only after its loop. `CatalogProjection`
  folds each event into three linked tables. `Protocol` puts the three together as one step system (write,
  fetch, delivered, failed, committed but reported as failed, dead letter, mark, crash), with invariants over
  every run, and `Protocol.TickIsRun` shows that the relay's passes are such runs. The projection does not use
  the inbox table, so convergence rests on the handlers absorbing replay, which `Replication` proves.
  `Recovery` shows that the queue drains once nothing fails, `DeadLetters` and `Losses` what a dead letter
  costs, and `Limits` and `Slugs` that the assumptions of convergence are exactly the ones that are needed.
- **Cart and checkout** (`Cart`, `Orders`, `Checkout`). A keyed collection of clamped quantities is expanded
  into unit order lines by a nested loop and summed in one transaction; another transaction clears the cart.
- **Catalog queries and traversal** (`Ranking`, `Search`, `Paging`, `QueryString`, `Sitemap`). Filters compile
  to relational subqueries with three-valued logic and `GROUP BY … HAVING COUNT(DISTINCT)`; listings are
  paged; pagination links print a query string that the next request parses; the sitemap walks the category
  tree with a queue.

Code that changes state is modelled by classes and loops (`OutboxTable`, `ProductRepo`, `CatalogProjection`,
`CartRepo`, `OrderRepo`, `QueryBuilder`, and the methods of `Relay`, `Checkout`, `Paging`, `QueryString` and
`Sitemap`). Each method is proved equal to a function on values (`Projection.Apply`, `Relay.TickSource`,
`Cart.AddItem`, …), the theorems are about those functions, and what each function means is stated once more on
the tables themselves (`LastWrites.DescribedByEdit`, `Projection.FullTextAfterEvents`, `Paging.CategoryPage`,
`Cart.AddRequestMeaning`, `Checkout.CheckoutAtCatalogPrices`, …). A database transaction is one step that
commits fully or changes nothing, but it may be reported as failed although it has committed; random ids,
clocks, database errors, the text engine and number parsing are parameters.

What convergence assumes is always stated: which product may use which slug, that updates name products that
exist, and one table of attributes (attribute to category) for the whole run. The code reads that table at each
event (crates/catalog/src/projection.rs:104-108), so values set while it is being edited are indexed under the
category that was current when they were delivered.

## What the code does not promise

The proofs settle exactly when some expected properties hold.

- Update and child writes emit an event even when the product does not exist. Delivery at least once is
  harmless if and only if they name existing products (`Limits.UpdateGuardIsExact`,
  `Protocol.GuardedHistoriesAreWellFormed`); `Limits.BlindWriteDiverges` is the run that goes wrong.
- Slugs are unique per seller at the source but globally in the catalog. The in-order replica agrees with the
  source if and only if live slugs are distinct across sellers (`Histories.AgreementThroughout`). For
  redelivery that is not enough (`Slugs.DistinctSlugsAreNotEnough`, `Slugs.TakeoverDiverges`): every run
  converges if and only if no slug is ever permitted to two products of which one may use another slug
  (`Slugs.SlugPolicyIsExact`).
- Draft to archived, and archived to anything, emit no event: the shown status lags exactly then, but nothing
  unpublished is ever shown as published by an up-to-date catalog (`Histories.StatusLagExactly`,
  `Histories.StatusLagsExactlyOnSilence`, `Histories.PublishedSafety`). A product that was never archived is
  always shown as what it is (`Histories.ShownUnlessArchived`).
- A dead letter harms no product but its own (`DeadLetters.ProductConvergence`). If it was never applied, the
  catalog ends up as if it had not been written: a created product is missing (`Losses.CreationLostOrKept`), a
  withdrawn one stays on show (`Losses.WithdrawalLost`), and the catalog is the right one if and only if an
  in-order delivery without the dead letters gives it too (`DeadLetters.SurvivorsDecide`). If it was applied
  before it died, nothing need be lost: the same writes with the same dead letter end either way
  (`Losses.DeadLetterLostOrKept`).
- An EnumAnd filter that repeats a value, which a repeated query parameter produces, matches nothing, and one
  that lists two different values can match nothing, because the index has one row per product and attribute
  (`Search.FaithfulExactly`, `Search.EnumAndOnTwoValuesSelectsNothing`, `QueryString.RequestedListing`).
- The sitemap loop would not end on more than 4294967295 products (`Paging.ProductPaths`), and "next" links
  would repeat rows beyond 4294967304 matches (`Paging.BrowsingShowsEverythingOnce`).
- The slug in a pagination link is not encoded: `QueryString.LinkReadsBackExactly` and
  `QueryString.PathReadsBackExactly` say for which slugs the link leads back.
- `CartRepo` alone does not keep carts in one currency; the handlers do (`Cart.AddKeepsOneCurrencyExactly`,
  `Cart.SingleCurrencyCarts`).
- The order can stand with the cart still full: when the clearing is rolled back, or when the order's commit is
  reported as failed although it was durable (`Checkout.SubmitIsAllOrNothing`).

## Model

| member | source | states |
|---|---|---|
| `Protocol.Convergence` | crates/db/src/relay.rs:45-78 | For every interleaving of product writes, relay steps, failed deliveries and crashes: once nothing is unpublished and nothing was dead-lettered, all three catalog tables are those of a consumer that saw each event once and in order, they agree with the product tables on seller, title, slug, description, price, currency, creation time and known attributes, and nothing unpublished is shown as published. Assumes slug ownership and updates that name existing products. |
| `Protocol.StatusesConverge` | crates/db/src/relay.rs:45-78 | In every such run each product that was never archived is shown with the status it has: published ones as published, drafts as drafts. |
| `DeadLetters.SurvivorsDecide` | crates/db/src/relay.rs:54-70 | Convergence with dead letters, under slug ownership, for all products at once: in every run, once nothing is pending, and unless a dead letter was applied before it died, all three catalog tables are those of an in-order delivery of everything but the dead letters; so it is the catalog of all events if and only if leaving them out of an in-order delivery makes no difference. |
| `DeadLetters.SurvivorsDecideProduct` | crates/db/src/relay.rs:54-70 | The same for the rows of one product, whatever happened to the dead letters of other products. |
| `DeadLetters.GuardedSurvivorsAreReplayable` | crates/db/src/relay.rs:60-64 | Its assumption on the log holds when updates name existing products and no product has lost both a creation and a later deletion. |
| `DeadLetters.DeadIsFinal` | crates/db/src/relay.rs:60-64 | Once an event is dead-lettered nothing that follows applies it. |
| `DeadLetters.ProductConvergence` | crates/db/src/relay.rs:54-70 | In every run, once nothing is pending, each product none of whose own events was dead-lettered has the rows of an in-order delivery, agrees with the product tables and is shown as published only if it is. |
| `Losses.DeadLetterLostOrKept` | crates/db/src/relay.rs:60-64 | What a dead letter costs is not decided by what was written and what is dead: of any history whose events the projection accepts the last event can be the only dead letter of two runs, one that ends with the catalog of the history without it, and one, with a crash after it was applied, that ends with the catalog of the whole history. |
| `Losses.CreationLostOrKept` | crates/catalog/src/projection.rs:68-92 | A created product whose event dies is missing from the catalog in one run and present in the other. |
| `Losses.WithdrawalLost` | crates/catalog/src/projection.rs:176-190 | The failing run for published safety: after any history a product shown as published is taken back by its seller, the event dies, nothing is pending, and the catalog goes on showing the product as published. |
| `DeadLetters.ActStands` | crates/db/src/relay.rs:50-77 | Whatever the relay does, the published events are a prefix of the queue and dead letters, and its batch leaves out nothing but dead letters. |
| `Views.ViewStep` | crates/catalog/src/projection.rs:68-211 | Under slug ownership the rows of a product are moved by its own events alone. |
| `Views.DeliveryKeepsRecoverable` | crates/catalog/src/projection.rs:68-211 | Replay absorption for a product log with holes, creations and deletions among them: as long as no edit that finds the product missing is followed by a creation without a deletion in between, each delivery, first or repeated, leaves the rows recoverable by a replay up to the highest event. |
| `Views.HolesAreReplayable` | crates/catalog/src/projection.rs:68-211 | That holds for a well-formed log whatever is missing from it, unless some product has lost both a creation and a later deletion. |
| `Recovery.HealthyPassesConverge` | crates/db/src/relay.rs:83-94 | Eventual consistency for every batch size: after any run without dead letters, crashes and failed deliveries included, n passes in which no database call fails, with n times the batch size at least the number of pending events, leave nothing pending and the catalog in agreement with the product tables. |
| `Recovery.HealthyPassesRecover` | crates/db/src/relay.rs:83-94 | The same after a run with dead letters: nothing stays pending, every product without a dead letter of its own agrees with the product tables, and unless a dead letter had been applied the catalog is that of an in-order delivery of everything but the dead letters. |
| `Recovery.HealthyPassesAreRun` | crates/db/src/relay.rs:83-94 | Any number of such passes is a run of the protocol that writes nothing and dead-letters nothing, and each takes a full batch from the queue unless it empties it. |
| `Recovery.HealthyTickDelivers` | crates/db/src/relay.rs:52-75 | A pass in which no database call fails delivers its whole batch in order, counts no failure, dead-letters nothing and publishes exactly the fetched events. |
| `Protocol.OrderAndNoSilentLoss` | crates/db/src/relay.rs:50-77 | In every run with crashes an event is dispatched only after every earlier event was dispatched successfully or dead-lettered, and an event is published only if it was dispatched successfully or has failed at least ten times. |
| `Protocol.NoEventIsRefused` | crates/catalog/src/projection.rs:100-174 | Under slug ownership the projection refuses no event that the relay ever offers it, so only failures of the database around it can dead-letter one. |
| `Protocol.RunConverges` | crates/db/src/relay.rs:45-78 | The invariant behind convergence, at every moment of every run without dead letters in which each offered event is accepted and absorbed by replay: the published events are a prefix, the batch follows on without a gap, and replaying from the relay position up to the highest event ever applied restores the in-order catalog. |
| `Protocol.OwnedIsDeliverable` | crates/catalog/src/projection.rs:68-211 | Under slug ownership and updates that name existing products, that is so at every point of every run. |
| `Protocol.ReplayIsAbsorbed` | crates/catalog/src/projection.rs:68-211 | Folding a window of a well-formed log again over the state it led to changes none of the three tables. |
| `Protocol.GuardedHistoriesAreWellFormed` | crates/product/src/repository.rs:119-166 | A history of writes leaves a well-formed event log if and only if no update or child write names a product that does not exist. |
| `Protocol.RunIsHistory` | crates/db/src/outbox.rs:13-30 | Whatever the relay does in between, the outbox holds exactly the events of the writes made so far, in their order, and the product tables are theirs. |
| `Protocol.TickIsRun` | crates/db/src/relay.rs:45-78 | Refinement: each relay pass over the product outbox, completed or broken off by a failing database call, before or after the failing write became durable, is a run of the protocol steps and writes nothing to the product tables. |
| `Protocol.DeliverIsActions` | crates/db/src/relay.rs:54-70 | Each event of a pass is at most four protocol steps that leave table, catalog and relay memory as the pass does, commits that are durable but reported as failed included. |
| `Replication.WellFormedLogsAreReplaySafe` | crates/catalog/src/projection.rs:68-211 | Replay absorption: with S_b the state after the first b events, replaying any window a..b on S_b gives S_b back, products deleted and created again included. |
| `Replication.Absorb` | crates/catalog/src/projection.rs:68-211 | From any state at all, delivering one event early is undone by a later replay of a window that contains it; only a creation needs a well-formed log for that. |
| `Replication.AnyDeliveryConverges` | crates/db/src/relay.rs:52-75 | At-least-once delivery with any number of restarts, each from any earlier event, some inside a replay, ends in the in-order catalog whenever it stands at its highest point. |
| `Replication.StepIsPointwise` | crates/catalog/src/projection.rs:68-211 | Under slug ownership an event acts on each product row and each attribute row by itself. |
| `Limits.AssumptionsSuffice` | crates/db/src/relay.rs:45-78 | Guarded updates and slug ownership suffice: every settled run of the writes, whatever the interleaving, ends in the catalog of an in-order delivery. |
| `Limits.ReplayableSuffices` | crates/product/src/repository.rs:119-166 | Updates of missing products do no harm as long as no such product is created afterwards without a deletion in between. |
| `Limits.UpdateGuardIsExact` | crates/product/src/repository.rs:119-166 | After a guarded history an update or child write is harmless, whatever guarded writes follow and however they are delivered, if and only if its product exists; `update_product` does not check that. |
| `Limits.BlindWriteDiverges` | crates/product/src/repository.rs:119-166 | The failing input, as a run: a write for a missing product, the creation of a draft of that product, one crash between delivery and mark. Everything is delivered, nothing dead-lettered, and the catalog is not the in-order one; after an update it disagrees with the product tables. |
| `Slugs.SlugPolicyIsExact` | migrations/catalog/0003_projection.sql:26 | For every policy saying which product may use which slug: every clash-free well-formed log absorbs replay, and every run of a history with distinct live slugs converges, if and only if no slug is permitted to two products of which one may use another slug; where products are free to change their slug, if and only if no slug is permitted to two products. |
| `Slugs.SharedConvergence` | crates/db/src/relay.rs:45-78 | End-to-end convergence without slug ownership, in all three tables: products may share a slug as long as those that do may use no other and live slugs are distinct. |
| `Sharing.AbsorbShared` | crates/catalog/src/projection.rs:68-211 | Replay absorption from any state for products that take turns with one slug. |
| `Sharing.SharedLogsAreReplaySafe` | crates/catalog/src/projection.rs:68-211 | For such a policy every clash-free well-formed log gives each state back when a window is replayed on it. |
| `Slugs.DistinctIsClashFree` | migrations/catalog/0003_projection.sql:26 | A history whose live slugs are distinct throughout leaves a log in which no event, in order, meets a taken slug. |
| `Slugs.DistinctSlugsAreNotEnough` | migrations/product/0002_product.sql:22 | The failing log, written by the repository: its slugs are two, live slugs are distinct throughout, no event clashes in order, and replay loses a product. |
| `Slugs.TakeoverDiverges` | crates/catalog/src/projection.rs:68-92 | The same as a run with one crash: everything is delivered, nothing dead-lettered, and the catalog lacks a product that the source has. |
| `Redelivery.DeliveredTwice` | crates/db/src/relay.rs:55-75 | For writes whose events the projection accepts there is a run that delivers some of them once and the others twice, because of a crash before the batch mark, and ends quiet with the catalog of exactly that delivery. |
| `Histories.AgreementThroughout` | crates/product/src/repository.rs:84-262 | In-order replica and product tables agree at every point of a history if and only if all live slugs are distinct at every point of it; the source checks slugs per seller only. |
| `Histories.PublishedSafety` | crates/product/src/repository.rs:169-219 | After every history, silent transitions and clashing slugs included, each product the catalog shows as published is published at the source. |
| `Histories.StatusLagsExactlyOnSilence` | crates/product/src/repository.rs:367-378 | One write keeps the shown statuses right if and only if it is not a silent change (draft to archived, or archived to anything) of a projected product. |
| `Histories.NoSilenceNoLag` | crates/product/src/repository.rs:367-378 | With event-emitting transitions only, both sides show the same status after every history. |
| `Histories.StatusLagExactly` | crates/product/src/repository.rs:169-219 | After every history the catalog shows of each product the status it last announced, by creation or by an event-emitting change, and so the true one if and only if that is still its status. |
| `Histories.ShownUnlessArchived` | crates/product/src/repository.rs:169-219 | After every history a projected product that was never archived shows exactly the status it has at the source. |
| `Histories.SellersHaveDistinctSlugs` | migrations/product/0002_product.sql:22 | After every history no two live products of one seller share a slug. |
| `LastWrites.ExistsByBirth` | crates/product/src/repository.rs:84-113 | After every history a product exists if and only if the last accepted creation or deletion of it is a creation, and seller and time of creation are those of that creation. |
| `LastWrites.DescribedByEdit` | crates/product/src/repository.rs:119-166 | Title, slug, description, price and currency are those of the last accepted update or creation. |
| `LastWrites.StatusByMove` | crates/product/src/repository.rs:169-219 | The status is the one last set, or that of the creation; the time of the last change is that of the last update or real change of status, or that of the creation. |
| `LastWrites.ValueBySetting` | crates/product/src/extras.rs:212-288 | A product has a value for an attribute if and only if the last write that set it, cleared it or deleted the product is one that set it, and then it is that value. |
| `LastWrites.ShownStamp` | crates/catalog/src/projection.rs:68-190 | Where live slugs are distinct the catalog shows as the time of the last change that of the last update, child write or announced change of status, or of the creation; attribute values do not count. |
| `Histories.ReplicaFollows` | crates/catalog/src/projection.rs:31-61 | A write that is refused leaves the replica alone; any other moves it by exactly the change it meant. |
| `Products.PayloadRoundTrip` | crates/product/src/repository.rs:382-395 | The consumer reads from the event of any write exactly the change that was meant; a write without an event means no change. |
| `Products.StatusEvents` | crates/product/src/repository.rs:367-378 | Which change of status is announced, by which event type and with which payload; the other changes are not announced. |
| `Products.RefusedExactly` | migrations/product/0002_product.sql:22 | A creation is refused if and only if its id is taken or the seller has another product of that slug, an update if and only if the seller has; a value or a child if and only if the product it refers to is missing. |
| `Products.WriteKeepsAgreement` | crates/product/src/repository.rs:84-262 | One write and its event keep both sides in agreement if and only if the write leaves all live slugs distinct. |
| `Products.WriteKeepsValuesOwned` | migrations/product/0002_product.sql:51-58 | No write leaves an attribute value whose product does not exist. |
| `Products.ProductRepo.constructor` | crates/product/src/repository.rs:75-77 | A new repository has empty tables and an empty outbox of its own. |
| `Products.ProductRepo.CreateNewProduct` | crates/product/src/repository.rs:84-113 | The row and its creation event commit together, or a constraint refuses both. |
| `Products.ProductRepo.Update` | crates/product/src/repository.rs:119-166 | The edited row and the update event commit together; the event is written even when no row matched. |
| `Products.ProductRepo.ChangeStatus` | crates/product/src/repository.rs:169-219 | An unknown product or an unchanged status is a no-op; a real change sets status and time, and emits ProductPublished for a draft that is published, ProductArchived or ProductUnpublished for a published product that is archived or taken back, and nothing for any other pair. |
| `Products.ProductRepo.Remove` | crates/product/src/repository.rs:225-262 | Deleting removes the product with its attribute values and emits one event if it existed. |
| `Products.ProductRepo.SetValue` | crates/product/src/extras.rs:212-253 | The upserted value and its event commit together, or the foreign key refuses both. |
| `Products.ProductRepo.ClearValue` | crates/product/src/extras.rs:256-288 | The value is removed and the event emitted, whether or not there was one. |
| `Products.ProductRepo.Child` | crates/product/src/extras.rs:346-362 | Any other child write, as far as the catalog can see it: one update event with its reason, unless a foreign key refuses the write. |
| `Projection.IndexCoherence` | crates/catalog/src/projection.rs:36-60 | After any events with any payloads, in any order, refused ones included, `product_fts` has exactly one row per projected product, with the title and description of the projection and the multiset of its non-empty indexed texts, and no other row. |
| `Projection.FullTextAfterEvents` | crates/catalog/src/projection.rs:220-259 | The same row by row: after any events each projected product has exactly one full-text row, whose title and description are those of its card and which holds each non-empty text as often as the product’s values have it; every row belongs to a projected product. |
| `Projection.TextsCount` | crates/catalog/src/projection.rs:237-245 | The concatenation holds each non-empty text as often as there are rows with it, and the empty one never. |
| `Projection.FieldMeaning` | crates/catalog/src/projection.rs:272-274 | A missing payload field, or one of the wrong type, reads as empty text or as zero. |
| `Projection.StrangeEvents` | crates/catalog/src/projection.rs:43-174 | An event of an unknown type is skipped, a second creation or one under a taken slug is dropped, an update for another reason moves the time of an existing row at most, and only a creation adds a row. |
| `Projection.ApplyKeepsCoherent` | crates/catalog/src/projection.rs:220-270 | Each single event keeps that coherence. |
| `Projection.CoherentIndexIsDetermined` | crates/catalog/src/projection.rs:220-270 | Equal keyed tables leave only one possible content of the full-text table. |
| `Projection.TextsOfRemove` | crates/catalog/src/projection.rs:237-245 | The concatenated texts do not depend on the order in which rows are visited. |
| `Projection.OtherProductsKeepFtsRow` | crates/catalog/src/projection.rs:68-211 | An event never reaches a row of another product. |
| `Projection.FoldKeepsCardSlugsDistinct` | migrations/catalog/0003_projection.sql:26 | No log of events breaks the unique slug index. |
| `Projection.CatalogProjection.constructor` | crates/catalog/src/projection.rs:25-27 | A new consumer has empty tables. |
| `Projection.CatalogProjection.Dispatch` | crates/catalog/src/projection.rs:31-61 | One event commits on all three tables or leaves all three unchanged; it fails exactly on a database error, which a commit may report after it became durable, or a refused slug. |
| `Projection.CatalogProjection.ApplyCreated` | crates/catalog/src/projection.rs:68-92 | Insert-or-ignore, then the full-text row. |
| `Projection.CatalogProjection.ApplyUpdated` | crates/catalog/src/projection.rs:94-174 | The four kinds of update by reason; refused exactly when the new slug belongs to another product, and then nothing is written. |
| `Projection.CatalogProjection.ApplyStatusChanged` | crates/catalog/src/projection.rs:176-190 | Status and time of an existing row change, and nothing else. |
| `Projection.CatalogProjection.ApplyDeleted` | crates/catalog/src/projection.rs:192-211 | The product disappears from all three tables. |
| `Projection.CatalogProjection.UpsertFtsRow` | crates/catalog/src/projection.rs:220-259 | The last full-text row is the product’s, with its title, its description and the texts of its values, and its old rows are gone; or nothing happens if the product is not projected. |
| `Projection.CatalogProjection.GroupConcat` | crates/catalog/src/projection.rs:237-245 | The multiset of the non-empty texts of one product, whatever the order of the rows. |
| `Relay.TickAccounting` | crates/db/src/relay.rs:52-75 | However a pass over one source ends, writes that are durable but reported as failed included: rows only grow, a dead letter has ten failures, the pass publishes exactly as many events as it adds to the total, dead-letters, or marks by a batch mark that was reported as failed, and without such a mark a broken pass publishes dead letters only. |
| `Relay.TickTotals` | crates/db/src/relay.rs:50-77 | Over all sources, however the tick ends: every source reached has only grown, the others are as they were, and the newly published events number the total plus the dead letters, plus those of a batch mark that ended the tick although it was durable. |
| `Relay.FreshEventsDrain` | crates/db/src/relay.rs:45-78 | Drain bound: with no new events, n fresh events are all published once 10·n passes have completed, whatever the dispatcher does and however many other passes break off. |
| `Relay.TenAttempts` | crates/db/src/relay.rs:54-70 | Ten attempts: an event at the head of the queue whose delivery always fails has n failures after n passes, is still pending after nine, with every other row as it was, and is published as a dead letter by the tenth. |
| `Relay.TickLowersWeight` | crates/db/src/relay.rs:54-75 | No pass raises the sum over unpublished events of max(1, 10 − attempts); a completed pass over a non-empty queue lowers it. |
| `Relay.CompletedPassesDrain` | crates/db/src/relay.rs:45-78 | While something is pending, completed passes plus remaining weight never exceed the weight at the start. |
| `Relay.PassKeepsInv` | crates/db/src/relay.rs:53-71 | At every point of a batch each event seen is delivered or dead, never both, untouched unless its delivery failed. |
| `Relay.EarlyExitEndsTick` | crates/db/src/relay.rs:51-76 | The first failing source ends the tick: later sources keep their tables. |
| `Relay.BrokenPassStays` | crates/db/src/relay.rs:64-69 | After a transient failure or an early return, the rest of the batch is not touched. |
| `Relay.DispatchOne` | crates/db/src/relay.rs:55-69 | One delivery: success, transient failure, dead letter, or early return at either database call, before or after it became durable. |
| `Relay.DispatchBatch` | crates/db/src/relay.rs:53-71 | The loop over the fetched events computes the specified pass. |
| `Relay.DrainSource` | crates/db/src/relay.rs:52-75 | Fetch, batch and final mark over one source; early exits leave delivered events unmarked, except for a mark that was durable all the same. |
| `Relay.DrainNth` | crates/db/src/relay.rs:51-76 | One of several sources changes its own table only. |
| `Relay.RelayTick` | crates/db/src/relay.rs:45-78 | The loop over the sources: final tables, dispatcher state and total, or no total after an early return; a returned total plus the dead letters is the number of newly published events. |
| `Outbox.FetchMeaning` | crates/db/src/outbox.rs:33-55 | The batch holds exactly the smallest unpublished ids, in order, up to the limit. |
| `Outbox.MarkAllMeaning` | crates/db/src/outbox.rs:71-86 | Marking publishes the listed rows and leaves events, attempts and errors alone. |
| `Outbox.OutboxTable.constructor` | migrations/product/0001_outbox.sql:2-12 | A new outbox is empty. |
| `Outbox.OutboxTable.Enqueue` | crates/db/src/outbox.rs:13-30 | Appends one unpublished row with no attempts and no error, and returns its id. |
| `Outbox.OutboxTable.FetchUnpublished` | crates/db/src/outbox.rs:33-55 | Returns the smallest unpublished ids in order and changes nothing. |
| `Outbox.OutboxTable.RecordFailureAt` | crates/db/src/outbox.rs:59-68 | Counts one failure of one event, stores the error and returns the new count. |
| `Outbox.OutboxTable.MarkPublished` | crates/db/src/outbox.rs:71-86 | Publishes exactly the listed events. |
| `Search.WhereMeaning` | crates/catalog/src/search.rs:220-331 | Over a coherent catalog the compiled WHERE selects exactly the published products that match text, category and every filter, unless some EnumAnd list has a duplicate, when it selects nothing. |
| `Search.QueryMeaning` | crates/catalog/src/search.rs:220-244 | What a query asks for, on the tables: the product is published, its full-text row is hit if the text has a search term, it has an indexed attribute of the category, and it satisfies the filters. |
| `Search.FilterSays` | crates/catalog/src/search.rs:246-331 | Each compiled filter, in terms of the product’s own index row and price. |
| `Search.FilterMeaning` | crates/catalog/src/search.rs:246-331 | A compiled filter, with its three-valued comparisons, keeps a product if and only if the product satisfies the filter and an EnumAnd list is free of duplicates. |
| `Search.FaithfulExactly` | crates/catalog/src/search.rs:277-295 | A filter means what it says on every catalog if and only if it is not an EnumAnd filter that repeats one value. |
| `Search.EnumAndOnTwoValuesSelectsNothing` | migrations/catalog/0003_projection.sql:31-38 | One row per product and attribute: an EnumAnd filter on two different values selects nothing, in any catalog. |
| `Search.CountDecidesAllPresent` | crates/catalog/src/search.rs:281-294 | For any set of texts: COUNT(DISTINCT) equals the length of the value list if and only if all values are present and the list has no duplicates. |
| `Search.TestAllMeaning` | crates/catalog/src/search.rs:308-328 | A conjunction is true only when every conjunct is true: NULL never selects a row. |
| `Search.TextMeaning` | crates/catalog/src/search.rs:223-230 | In a coherent index the text condition looks at the product’s own title, description and texts. |
| `Search.CategoryMeaning` | crates/catalog/src/search.rs:232-239 | A product is in a category if and only if one of its indexed attributes belongs to it. |
| `Search.FilterOrderIsIrrelevant` | crates/catalog/src/search.rs:241-243 | Reordering or repeating filters changes neither the selection nor the listing. |
| `Search.ListingMeaning` | crates/catalog/src/search.rs:110-115 | A listing is the only strictly ordered list of all matches, each once. |
| `Search.ListingIsSorted` | crates/catalog/src/search.rs:110-115 | Cheapest first, dearest first, or newest first, ties by id; relevance is ordered like newest. |
| `Search.Search` | crates/catalog/src/search.rs:89-145 | `total` is the exact number of matches and `items` the clamped slice of the sorted listing, with the cards of the projection. |
| `Search.CountResults` | crates/catalog/src/search.rs:333-347 | The count is the size of the compiled selection. |
| `Search.MapRows` | crates/catalog/src/search.rs:128-138 | Each row becomes the card of its product, in order. |
| `Search.ListingCard` | crates/catalog/src/search.rs:128-138 | A listed card shows the product’s own title, slug, price and currency. |
| `Search.QueryBuilder.constructor` | crates/catalog/src/search.rs:338-339 | A new statement has no conditions. |
| `Search.QueryBuilder.PushWhere` | crates/catalog/src/search.rs:220-244 | Appends the status, text, category and filter conditions in that order. |
| `Search.QueryBuilder.PushHead` | crates/catalog/src/search.rs:221-239 | Appends the conditions that are not filters. |
| `Search.QueryBuilder.PushFilterCond` | crates/catalog/src/search.rs:246-331 | Appends what each kind of filter compiles to; empty value lists and absent bounds append nothing. |
| `Ranking.SortedMeaning` | crates/catalog/src/search.rs:110-115 | Sorting by rank, then id, yields a strictly ascending list of every entry, each once. |
| `Ranking.SortedIsTheOnlyListing` | crates/catalog/src/search.rs:110-115 | There is no other such list: the id breaks every tie. |
| `Ranking.LessMeaning` | crates/catalog/src/search.rs:110-115 | Ids are compared as text: a proper prefix first, otherwise by the first place where they differ. |
| `Paging.ProductPaths` | crates/web/src/routes/sitemap.rs:78-111 | The sitemap loop ends if and only if the number of published products fits a u32; whenever it ends, it has listed the address of every published product once, newest first, ties by id. |
| `Paging.BrowsingShowsEverythingOnce` | crates/web/src/routes/category.rs:85-91 | Following "next" from page 1 shows every match once, in order, and then stops, if and only if there are at most 4294967304 of them. |
| `Paging.CategoryPage` | crates/web/src/routes/category.rs:51-171 | Page n shows positions (n-1)·24 up to n·24, as far as the offset fits a u32, of the published products that have an indexed attribute of the category and satisfy every filter, newest first, each once; nothing at all if an EnumAnd filter repeats a value. `has_next` if and only if something follows, `has_prev` if and only if n > 1; page 0 or no page means page 1. |
| `QueryString.RequestedListing` | crates/web/src/routes/category.rs:91-103 | From the request to the listing: the published products of the category that every configured filter lets through, newest first, each once; but nothing at all when the request ticks one box of an EnumAnd filter twice. |
| `Paging.CategoryListingIs` | crates/web/src/routes/category.rs:91-103 | What the query of a category page selects, without mentioning it: published, in the category, past every filter, newest first, each once. |
| `Paging.AllPublishedMeaning` | crates/web/src/routes/sitemap.rs:78-111 | What the query of the sitemap selects: all published products, newest first, each once. |
| `Paging.SaturatedPagesRepeat` | crates/web/src/routes/category.rs:86-91 | Past the ceiling of the offset a walk that stops has shown more rows than were left: something twice. |
| `QueryString.NextRequestReads` | crates/web/src/routes/category.rs:457-476 | The next request reads the parameters other than `page`, in order, and then the new page number exactly once. |
| `QueryString.LinkKeepsTheListing` | crates/web/src/routes/category.rs:226-307 | For a slug whose bytes mean themselves in a path, the address of the link is read as that slug and as parameters that ask for the named page, and so, whatever the categories and filters, it pages through the same listing. |
| `QueryString.PathReadsBackExactly` | crates/web/src/routes/category.rs:475 | The path of the link leads back to the slug, which is not encoded, if and only if the slug is not empty, is not a dot segment, and has no `/`, no `?`, no `#` and no percent escape. |
| `QueryString.ParseUndoesPrint` | crates/web/src/routes/category.rs:482-490 | Percent-encoding any list of parameters (section 2.1 and section 2.3 of RFC 3986) and parsing it (section 5.1 of the WHATWG URL Standard) gives the list back. |
| `QueryString.DecodeUndoesEncode` | crates/web/src/routes/category.rs:482-490 | Percent-decoding undoes the encoding of every byte string. |
| `QueryString.PageRoundTrip` | crates/web/src/routes/category.rs:474 | Every u32 page number is read back as itself. |
| `QueryString.AskedPageMeaning` | crates/web/src/routes/category.rs:33-36 | A request asks for no page if it has no `page`, for page n if it has one that reads as n, and is refused if `page` is malformed or repeated. |
| `QueryString.ParseU32Meaning` | crates/web/src/routes/category.rs:33-36 | What reads as a page number: at most one plus sign, zeros, and the number as it is printed, up to the largest u32. |
| `QueryString.ParseUndoesForm` | crates/web/src/routes/category.rs:322-377 | What the visitor enters into the filter form, sent as section 5.2 of the WHATWG URL Standard has it, is read as it was entered. |
| `QueryString.EncodedByte` | crates/web/src/routes/category.rs:478-485 | Each byte but letters, digits, `-`, `.`, `_` and `~` is written as `%` and two upper-case hexadecimal digits. |
| `QueryString.SameFilters` | crates/web/src/routes/category.rs:302-307 | Filter conditions do not depend on `page`. |
| `QueryString.BuiltFiltersMeaning` | crates/web/src/routes/category.rs:302-307 | The conditions built from a request let a product through if and only if every configured filter does; free-text and number filters are never asked for. |
| `QueryString.RepeatsExactly` | crates/web/src/routes/category.rs:242-278 | The conditions repeat a value of an EnumAnd filter if and only if the request ticks that box twice. |
| `QueryString.TickedValuesMeaning` | crates/web/src/routes/category.rs:242-278 | The boxes a visitor ticked let through the products that have one of the values, or all of them; no box means no filter. |
| `QueryString.RangeFieldsMeaning` | crates/web/src/routes/category.rs:279-288 | A range filter lets through the products whose number lies within the bounds that parse, each read from the first value of its own field. |
| `QueryString.PriceFieldsMeaning` | crates/web/src/routes/category.rs:289-295 | A price filter compares the price with the converted bounds, lower with `price_min`, upper with `price_max`. |
| `QueryString.EncodedIsClean` | crates/web/src/routes/category.rs:478-485 | Encoded text holds nothing but unreserved bytes and `%`. |
| `QueryString.LinkReadsBackExactly` | crates/web/src/routes/category.rs:475 | The query part of the link is the printed query string for all parameters if and only if the slug, which is not encoded, has no `?` and no `#`. |
| `QueryString.PaginationHref` | crates/web/src/routes/category.rs:457-476 | The loop over the parameters builds the specified address. |
| `Sitemap.CategoryPaths` | crates/web/src/routes/sitemap.rs:52-74 | The walk ends on every category table and emits the address, under `/c/`, of exactly the categories whose parent chain reaches a root, each once, parents before children, in order of depth, siblings by position and id. |
| `Sitemap.FinishedWalkIsBreadthFirst` | crates/web/src/routes/sitemap.rs:57-71 | What the queue discipline guarantees when the queue is empty. |
| `Sitemap.WalkStep` | crates/web/src/routes/sitemap.rs:57-71 | Expanding the head of the queue keeps the order, the uniqueness and the completeness of the walk. |
| `Sitemap.WalkFits` | crates/web/src/routes/sitemap.rs:57-71 | A walk never emits more categories than there are: the measure that bounds the loop. |
| `Sitemap.Emit` | crates/web/src/routes/sitemap.rs:64-70 | The inner loop emits and queues every child, in order. |
| `Sitemap.ListByParentMeaning` | crates/catalog/src/repository.rs:164-203 | The children of a parent, each once, by position and id. |
| `Cart.CallsKeepInv` | migrations/orders/0003_cart.sql:9-28 | In every run of cart calls each (cart, product, variant or none) has at most one row, quantities stay in 1..999, and rows are in insertion order. |
| `Cart.ListMeaning` | crates/orders/src/cart_repo.rs:177-186 | A listing has all rows of the cart and only those, in order of first insertion. |
| `Cart.CallsAreIsolated` | crates/orders/src/cart_repo.rs:127-205 | A call on one cart never changes items or timestamp of another, whatever item id it names. |
| `Cart.AddsAccumulate` | crates/orders/src/cart_repo.rs:89-120 | Accepted adds to one new key leave one row with min(999, sum of the quantities) and the other rows alone. |
| `Cart.AddMeaning` | crates/orders/src/cart_repo.rs:89-120 | An add leaves one row for its key, with the new snapshot, the clamped sum and the time of the call; an existing row keeps its id, its place and its variant, all others are as they were. |
| `Cart.UpdateMeaning` | crates/orders/src/cart_repo.rs:127-154 | Setting a quantity changes the named row of this cart only; zero deletes it. |
| `Cart.DeletionMeaning` | crates/orders/src/cart_repo.rs:160-205 | A deletion drops the named row of this cart, clearing drops all rows of the cart, and no other row goes. |
| `Cart.RemovalMeaning` | crates/orders/src/cart_repo.rs:160-174 | Removing an item, or setting its quantity to zero, leaves every row but the one with that id in that cart, in its order, and stamps the cart; without such a row nothing changes. |
| `Cart.ClearMeaning` | crates/orders/src/cart_repo.rs:192-205 | Clearing leaves every row of other carts, in order, and stamps the cart; without rows nothing changes. |
| `Cart.AddSucceedsExactly` | crates/orders/src/cart_repo.rs:89-120 | An add is accepted if and only if the quantity is between 1 and 999, the variant is not the empty text and the cart exists; it stamps the cart. |
| `Cart.ChangesAreStamped` | crates/orders/src/cart_repo.rs:209-220 | A call that changes the items of a cart stamps it with the time of the call; nothing changes when it was created. |
| `Cart.ClearEmpties` | crates/orders/src/cart_repo.rs:192-205 | Clearing leaves nothing of the cart. |
| `Cart.AddKeepsOneCurrencyExactly` | crates/orders/src/cart_repo.rs:89-120 | The repository alone keeps a cart in one currency if and only if the new item has the currency of every other row. |
| `Cart.SingleCurrencyCarts` | crates/web/src/routes/cart.rs:145-184 | In every run of handlers executed one at a time all items of a cart share one currency, although only the first item is compared. |
| `Cart.AddRequestMeaning` | crates/web/src/routes/cart.rs:145-184 | The answer to POST /cart/add on every path, and what it leaves: on success one row with the card’s title, price and currency and min(999, old + asked) units, in the place of the old row or behind all others; every other row as it was; the cart stamped, or opened if the visitor had none. |
| `Cart.UpdateRequestMeaning` | crates/web/src/routes/cart.rs:209-221 | POST /cart/update sets the named row of the visitor’s own cart, or deletes it at zero; out of range or without a cart nothing changes. |
| `Cart.RemoveRequestMeaning` | crates/web/src/routes/cart.rs:245-257 | POST /cart/remove deletes the named row of the visitor’s own cart and nothing else. |
| `Cart.AddWithTakenToken` | crates/web/src/routes/cart.rs:274-283 | A new cart whose token is already taken is not opened. |
| `Cart.CartRepo.constructor` | crates/orders/src/cart_repo.rs:41-43 | A new repository has no carts. |
| `Cart.CartRepo.Create` | crates/orders/src/cart_repo.rs:47-63 | Creates an empty cart under a new token hash; a clash is refused. |
| `Cart.CartRepo.Add` | crates/orders/src/cart_repo.rs:89-120 | Adds or merges one row with the clamped quantity and the new snapshot, or fails and changes nothing. |
| `Cart.CartRepo.Update` | crates/orders/src/cart_repo.rs:127-154 | Sets or deletes the row of this cart only, and touches the cart only if a row was affected. |
| `Cart.CartRepo.Remove` | crates/orders/src/cart_repo.rs:160-174 | Deletes the row with this id if it belongs to this cart, and no other row. |
| `Cart.CartRepo.List` | crates/orders/src/cart_repo.rs:177-186 | Returns the rows of one cart in id order. |
| `Cart.CartRepo.ClearAll` | crates/orders/src/cart_repo.rs:192-205 | Deletes all rows of one cart. |
| `Cart.GetOrCreateCart` | crates/web/src/routes/cart.rs:274-283 | The cart of the cookie, or a new one under a fresh token. |
| `Cart.RenderAdd` | crates/web/src/routes/cart.rs:145-184 | The handler’s effect and answer on every path: unknown product, foreign currency, refused quantity, success. |
| `Cart.RenderUpdate` | crates/web/src/routes/cart.rs:209-221 | Updates the visitor’s own cart if there is one; answers with the refused quantity exactly when it is out of range and there is a cart, and goes back to the cart otherwise. |
| `Cart.RenderRemove` | crates/web/src/routes/cart.rs:245-257 | Removes from the visitor’s own cart if there is one. |
| `Orders.LedgerInvariant` | crates/orders/src/repository.rs:62-245 | In every reachable state, rolled-back calls included, each total is the sum of its items’ prices, each item belongs to an order, and each order was announced exactly once. |
| `Orders.CheckoutEffect` | crates/orders/src/repository.rs:147-245 | Everything a successful checkout changes: one order whose total is the sum of the prices and fits an i64, its items, its contact, its event, one currency. |
| `Orders.CheckoutSucceedsExactly` | crates/orders/src/repository.rs:147-245 | A checkout succeeds if and only if there is something to order, in one currency, under ids that are free and distinct, at prices whose partial sums fit an i64, for an email address of more than spaces. |
| `Orders.CheckoutRefusal` | crates/orders/src/repository.rs:147-245 | Which error refuses it: nothing to order, the first item in another currency, a sum that overflows, or a constraint. |
| `Orders.CreateOrderEffect` | crates/orders/src/repository.rs:62-92 | Refused if and only if the id is taken; otherwise one order with its buyer, currency and time and total zero, and its event. |
| `Orders.AddItemEffect` | crates/orders/src/repository.rs:95-131 | Refused if and only if the item id is taken, the order is missing or the sum overflows; otherwise the item is stored last and its order’s total grows by its price. |
| `Orders.InsertMeaning` | crates/orders/src/repository.rs:179-202 | The inserts append the items under the order, keep ids unique and move no other order’s sum. |
| `Orders.OrderRepo.constructor` | crates/orders/src/repository.rs:53-55 | A new repository has no orders. |
| `Orders.OrderRepo.Create` | crates/orders/src/repository.rs:62-92 | One empty order and its event, or neither. |
| `Orders.OrderRepo.Add` | crates/orders/src/repository.rs:95-131 | One item and the recomputed total, or neither. |
| `Orders.OrderRepo.Total` | crates/orders/src/repository.rs:204-213 | The sum over the items of one order, refused on integer overflow. |
| `Orders.OrderRepo.CheckOut` | crates/orders/src/repository.rs:147-245 | All inserts of a checkout or none: the first failing statement, or a commit that is rolled back, leaves nothing; a commit that is durable but reported as failed leaves everything and returns an error. |
| `Orders.OrderRepo.Statements` | crates/orders/src/repository.rs:166-241 | The statements inside the transaction, with the error of the first that fails. |
| `Orders.OrderRepo.InsertItems` | crates/orders/src/repository.rs:179-202 | The loop over the items inserts all of them, or stops at a taken id. |
| `Checkout.CheckoutConserves` | crates/web/src/routes/checkout.rs:149-234 | A successful submit files exactly q unit rows per cart line of quantity q, with current catalog data and the line’s variant, a total equal to the sum of current price × q, one currency, one contact and one event, and empties the cart; no other order and no other cart changes. |
| `Checkout.CheckoutAtCatalogPrices` | crates/catalog/src/search.rs:51-66 | The same against the tables of the projection: after a successful submit every line’s product has a row with status published, every new order row has the seller, title, price and currency of that row, and the total is the sum over the lines of the row’s price × quantity. |
| `Checkout.SubmitSucceedsExactly` | crates/web/src/routes/checkout.rs:149-234 | A submit succeeds if and only if the visitor has a cart with something in it, the contact is valid, every line is for sale, its units can be ordered, and no database call or commit fails. |
| `Checkout.UnavailableIsRefused` | crates/web/src/routes/checkout.rs:171-186 | The first line whose product is missing from the catalog or not published is refused by name, and nothing changes. |
| `Checkout.MixedIsRefused` | crates/web/src/routes/checkout.rs:211-219 | Lines for sale in different currencies are refused, and nothing changes. |
| `Checkout.EarlyAnswers` | crates/web/src/routes/checkout.rs:154-165 | No cart or an empty one leads back to the cart, an invalid contact back to the form, and nothing changes. |
| `Checkout.SubmitIsAllOrNothing` | crates/web/src/routes/checkout.rs:149-234 | On every path, database errors included, commits that are durable but reported as failed among them: the orders are as they were or hold one complete order for the whole cart; the carts are as they were or that cart alone is empty and its order stands; success is answered if and only if the cart was cleared by a commit reported as such; and the order stands with the cart still full if and only if the clearing was rolled back or the order’s commit was reported as failed although it was durable. |
| `Checkout.ExpandSucceedsExactly` | crates/web/src/routes/checkout.rs:171-186 | The expansion succeeds if and only if every line is still for sale. |
| `Checkout.ExpandCounts` | crates/web/src/routes/checkout.rs:191-203 | The expansion has as many units of a product and variant as the cart asks for. |
| `Checkout.ExpandSums` | crates/web/src/routes/checkout.rs:191-203 | The unit prices add up to the current price times quantity over the cart. |
| `Checkout.ShownTotalIsExactToTheBound` | crates/web/src/routes/checkout.rs:63-66 | For non-negative prices the saturating fold is min(Σ price × qty, 2^63 − 1). |
| `Checkout.OrderCostsWhatWasShown` | crates/web/src/routes/cart.rs:57-60 | When the snapshots match the catalog and the sum fits, the order costs what the page showed. |
| `Checkout.SumShown` | crates/web/src/routes/checkout.rs:63-66 | The loop computes the saturating fold. |
| `Checkout.BuildOrderItems` | crates/web/src/routes/checkout.rs:170-204 | The nested loops build the expansion, or stop at the first line that is not for sale or whose lookup fails. |
| `Checkout.RenderSubmit` | crates/web/src/routes/checkout.rs:149-234 | The handler’s effect on carts and orders, and its outcome, on every path, with database errors of the cart and the catalog and with every ending of the commits of order and clearing. |

## Left out

- DeadLetters.SurvivorsDecide: for runs in which no dead letter was applied before it died; otherwise the outcome depends on the run (`Losses.DeadLetterLostOrKept`). It also needs a log in which no edit of a missing product is followed by its creation; without that even runs without dead letters diverge (`Limits.BlindWriteDiverges`).
- DeadLetters.SurvivorsDecideProduct: under slug ownership, since a product that shares a slug is affected by the dead letters of the products it shares it with.
- Protocol.TickIsRun: for one source, the product outbox, which is the only one that the program relays to the projection; `Relay.TickTotals` and `Relay.RelayTick` cover several sources.
- Protocol.Convergence: the attribute table that the projection joins values with does not change during the run.
- Protocol: the relay is a single process and its steps do not overlap; a second relay on the same outbox is not modelled.
- Outbox.OutboxTable.Enqueue: an event's id is its position in the table, because AUTOINCREMENT never reuses an id and rows are never deleted; `created_at` and the value of `published_at` are not kept.
- Projection.CatalogProjection.Dispatch: `category_id` and `thumb`, which no event sets, are not columns of the model.
- Projection.CatalogProjection.GroupConcat: the order of concatenated texts is not promised by SQLite, so texts are a multiset.
- Products.PayloadRoundTrip: the JSON text between the two databases; a payload is a map from keys to JSON values, numbers are exact and never NaN.
- Products.ProductRepo.SetValue: errors of the database itself around the seller's own writes; a write commits with its event or neither does.
- Products.ProductRepo.Child: variants, media, digital configuration and translations only through the event they emit; their own tables, and constraint errors inside them, are not modelled.
- Search.WhereMeaning: the text engine is an arbitrary relation between search terms and rows; tokenising, prefix matching and ranking are not modelled, and neither is `build_fts_query` beyond dropping an empty term.
- Search.Search: count and page are read from the same state of the catalog; the code reads them one after the other.
- `SqliteCatalogSearch::upsert` and `remove`: a second write path whose search text comes from the caller, outside index coherence.
- Paging.ProductPaths: the number of rounds is a parameter, since the loop need not end.
- QueryString: number parsing and the conversion of major to minor units are arbitrary functions, so the filter results hold for any; UTF-8 is any codec that decodes what it encodes and leaves ASCII alone.
- QueryString.PathReadsBackExactly: addresses are read as RFC 3986 has it; what browsers do beyond that (backslashes, tabs and newlines in an address) is not modelled.
- Sitemap.CategoryPaths: the table does not change during the walk; translated names and XML escaping are not modelled.
- Cart.SingleCurrencyCarts: for handlers executed one at a time; two concurrent adds to one cart check and write in separate transactions.
- Cart.CartRepo.Create: a token is known by its hash; token generation and hashing are not modelled.
- Checkout.RenderSubmit: contact validation is a parameter (a contact or none), and the catalog does not change while the cart is expanded; responses are outcomes without their HTML and cookies.
- Orders: status and configuration snapshots of orders, and `list_by_buyer`, whose order has no tie-break.
- SQL engine, pools, locking, async tasks and the polling loop `run_relay` around a tick.
- Identity, payments, scanner, layout, structured data, internationalised names, and enum parsing: no state or arithmetic beyond lookups.
- `inbox`: not used by the projection.
