# Newsroom theme core, modelled in Dafny

This project models the three pieces of logic in a newsroom website theme that
are not view code:

- **The self-expiring memory store** (`theme-kit/api/cache/store.ts`). It is a
  key/value cache over a backing store. It keeps a side table with the handle
  of the last timer started for each key. `set` cancels the key's old timer,
  starts one that deletes the key `ttl` ms later (1000 ms by default), and
  writes the value. `del` cancels the key's timer and deletes the key. `clear`
  cancels the timer of every key in the side table and empties the store. In
  the model (`store.dfy`, module `ExpiringStore`) this is a class. Its fields
  are the backing store, the side table, the host's queue of pending callbacks
  (handle to key and deadline), the next handle and a logical clock.
  `setTimeout` and `clearTimeout` become updates of that queue. The method
  `Advance(t)` moves the clock to `t` and runs every callback that is due, so it
  plays the role of the event loop. The invariant `Consistent` states:
  - every pending callback is the one the side table records for its key;
  - a key is in the backing store exactly when it has a pending deletion;
  - every deadline lies between now and now + ttl.

  `store_scenarios.dfy` holds clients that use only the method contracts.
  They show expiry at exactly `ttl`, that a second `set` pushes expiry back,
  and that `del` and `clear` leave no deletion pending.
- **The content-delivery client** (`theme-kit/api/lib/createContentDeliveryClient.ts`).
  It is a read-only query layer over the Prezly SDK. In `content_delivery.dfy`
  (module `ContentDelivery`) every SDK call is a function parameter. It takes
  the request record the client builds and returns the SDK's response: a
  value, an `ApiError` with an HTTP status, or any other error. The lookups
  (`defaultLanguage`, `language`, `languageOrDefault`, `category`) are
  functions over the fetched lists. They are built on one `FindFirst`, the
  scan of `Array.prototype.find`. Sort specifications are sequences of
  (key, direction) terms. The predicate `Precedes` says what such a
  specification asks for. The filter records of `stories`, of the slug lookup
  of `story` and of `galleries` are datatypes. Each has an `...Admits`
  predicate that reads `$in` and `$any` as membership. These predicates state
  what the records request. They make no claim about what the server returns.
  `content_delivery_examples.dfy` works through small catalogues.
- **The tracking-consent decision**
  (`hooks/useCookieConsent/lib/isPrezlyTrackingAllowed.ts`). In
  `tracking_consent.dfy` it is a function of the tracking policy, the user's
  consent and the browser's preference. `boolean | null` becomes
  `Option<bool>`.

Behaviour of the code that is easy to misread, which the model follows:

- `story` tests whether `uuid` is truthy, not which of `uuid` and `slug` was
  given. A request with an empty `uuid` therefore runs the slug search with no
  slug filter (`SlugSearchFor`, `GetStory`).
- `theme()` treats an empty theme id like a missing one.
- `defaultLanguage` and `language` take the first match in list order. They
  do not rely on there being exactly one default language.
- The side table of the store never shrinks. `del`, `clear` and an expiry
  cancel or consume a timer but keep its stale handle in the table. The model
  keeps it too, and the invariant accounts for stale handles.

## Model

| member | source | states |
|---|---|---|
| `ExpiringStore.SelfExpiringStore.constructor` | theme-kit/api/cache/store.ts:10-12 | a new store is empty, has no timers, and its ttl is the one given or 1000 ms |
| `ExpiringStore.SelfExpiringStore.Has` | theme-kit/api/cache/store.ts:15-17 | true exactly when the key is in the backing store, which is exactly when it has a pending deletion; nothing is modified |
| `ExpiringStore.SelfExpiringStore.Get` | theme-kit/api/cache/store.ts:18-20 | the stored value, present exactly when the key has a pending deletion; the expiry is not extended and nothing is modified |
| `ExpiringStore.SelfExpiringStore.Set` | theme-kit/api/cache/store.ts:21-28 | writes the value, cancels the key's earlier timer and schedules one deletion at now + ttl; every other key keeps its value and deadline; the invariant is kept |
| `ExpiringStore.SelfExpiringStore.Del` | theme-kit/api/cache/store.ts:29-32 | removes the key at once and cancels its timer, so no deletion of that key is pending; other keys keep their deadlines |
| `ExpiringStore.SelfExpiringStore.Clear` | theme-kit/api/cache/store.ts:33-36 | cancels every pending timer and empties the backing store; the side table is left as it was |
| `ExpiringStore.SelfExpiringStore.Advance` | theme-kit/api/cache/store.ts:25 | running the due callbacks deletes exactly the keys whose deadline is at most `t`; every other key keeps its value and deadline |
| `ExpiringStore.AtMostOneLiveTimer` | theme-kit/api/cache/store.ts:21-26 | while timers are tracked, a key has at most one pending deletion, and it is the one the side table records |
| `ExpiringStore.PresentIffOneLiveTimer` | theme-kit/api/cache/store.ts:14-37 | under the invariant, a key is present exactly when it has one pending deletion, and an absent key has none |
| `ExpiringStore.SetKeepsConsistent` | theme-kit/api/cache/store.ts:21-28 | `set` keeps the invariant, gives the key the deadline now + ttl, and changes no other key's deadline |
| `ExpiringStore.FireKeepsConsistent` | theme-kit/api/cache/store.ts:25 | a callback deleting its own key keeps the invariant |
| `ExpiringStoreScenarios.ExpiresAfterTtl` | theme-kit/api/cache/store.ts:21-28 | an entry is present 1 ms before `ttl` has passed and absent once it has |
| `ExpiringStoreScenarios.DefaultTtlIsOneSecond` | theme-kit/api/cache/store.ts:10 | without a ttl option an entry lives for 1000 ms |
| `ExpiringStoreScenarios.SetAgainPushesExpiryBack` | theme-kit/api/cache/store.ts:22-26 | a second `set` restarts the timer, so the new value survives the first deadline and expires at the second |
| `ExpiringStoreScenarios.DelCancelsPendingDeletion` | theme-kit/api/cache/store.ts:29-32 | after `del` the key is absent, and a later value is not deleted when the cancelled timer would have fired |
| `ExpiringStoreScenarios.ClearCancelsAllTimers` | theme-kit/api/cache/store.ts:33-36 | after `clear` the store is empty, and values written later are not deleted by the earlier timers |
| `ExpiringStoreScenarios.ExpiryTouchesOnlyItsKey` | theme-kit/api/cache/store.ts:25 | when one key's timer fires, another key keeps its value |
| `ContentDelivery.CreateClient` | theme-kit/api/lib/createContentDeliveryClient.ts:11-19 | formats default to SLATEJS_V4 alone, and pinning is on only when asked for |
| `ContentDelivery.FindFirst` | theme-kit/api/lib/createContentDeliveryClient.ts:38 | the index of the first element satisfying the test, or none when no element does |
| `ContentDelivery.DefaultLanguage` | theme-kit/api/lib/createContentDeliveryClient.ts:35-46 | the first default language; throws the missing-default error exactly when no language is default |
| `ContentDelivery.LanguageFor` | theme-kit/api/lib/createContentDeliveryClient.ts:48-54 | the first language that is default when the code is empty or has that locale code; undefined exactly when none does |
| `ContentDelivery.LanguageOrDefault` | theme-kit/api/lib/createContentDeliveryClient.ts:56-61 | the first match when there is one, otherwise the first default language; throws exactly when nothing matches and no language is default |
| `ContentDelivery.CategoryBySlug` | theme-kit/api/lib/createContentDeliveryClient.ts:69-76 | the first category, in list order, with a defined translation of that slug; undefined exactly when none has one |
| `ContentDelivery.CategoryFoundByAnyTranslation` | theme-kit/api/lib/createContentDeliveryClient.ts:69-76 | the slug of any defined translation finds its category when no earlier category has that slug |
| `ContentDelivery.IsNotAvailable` | theme-kit/api/lib/createContentDeliveryClient.ts:194-204 | true exactly for 403, 404 and 410, all of them client-error (4xx) statuses |
| `ContentDelivery.NullIfNotAvailable` | theme-kit/api/lib/createContentDeliveryClient.ts:143-154 | an `ApiError` with status 403, 404 or 410 becomes `null`; every other error is rethrown unchanged; a value is kept |
| `ContentDelivery.GetGallery` | theme-kit/api/lib/createContentDeliveryClient.ts:101-110 | the fetched gallery; `null` exactly for a not-available `ApiError`; every other error is rethrown unchanged |
| `ContentDelivery.GetTheme` | theme-kit/api/lib/createContentDeliveryClient.ts:25-29 | undefined when the client has no theme id (or an empty one); otherwise the fetched theme, with its errors propagated |
| `ContentDelivery.Chronologically` | theme-kit/api/lib/createContentDeliveryClient.ts:184-192 | the last term is `published_at` in the given direction, preceded by a descending `is_pinned` term when pinning is on and alone when it is off; what the terms ask for is stated by `ChronologicallyMeans` |
| `ContentDelivery.ChronologicallyMeans` | theme-kit/api/lib/createContentDeliveryClient.ts:184-192 | the sort order asks for pinned stories first when pinning is on, then `published_at` ascending for ASC and descending otherwise |
| `ContentDelivery.PrecedesIsStrictOrder` | theme-kit/api/lib/createContentDeliveryClient.ts:184-192 | every composite sort specification is irreflexive and transitive |
| `ContentDelivery.StoriesQueryFor` | theme-kit/api/lib/createContentDeliveryClient.ts:112-137 | the listing admits exactly published, public stories of this newsroom, filtered by locale and category only when given; chronological DESC order; client formats; thumbnail included |
| `ContentDelivery.SlugSearchFor` | theme-kit/api/lib/createContentDeliveryClient.ts:157-175 | limit 1; admits exactly stories with that slug in this newsroom, published or embargoed, public, private or embargoed; extended fields |
| `ContentDelivery.GetStory` | theme-kit/api/lib/createContentDeliveryClient.ts:139-178 | a non-empty uuid is fetched directly, with not-available errors as `null`; otherwise the first slug-search hit or `null`, with search errors propagated |
| `ContentDelivery.SlugScopeCoversListing` | theme-kit/api/lib/createContentDeliveryClient.ts:129-134 | every story the public listing admits is admitted by the slug lookup for its own slug |
| `ContentDelivery.SlugSearchErrorsPropagate` | theme-kit/api/lib/createContentDeliveryClient.ts:157-177 | an `ApiError` from the slug search is rethrown, even a 404 |
| `ContentDelivery.GalleriesQueryFor` | theme-kit/api/lib/createContentDeliveryClient.ts:86-99 | the gallery search admits exactly public, non-empty galleries, of the given type when there is one; pagination passed through |
| `ContentDeliveryExamples.LanguageOrDefaultOnTwoLanguages` | theme-kit/api/lib/createContentDeliveryClient.ts:56-61 | with `en` default and `fr`: `""` gives `en`, `fr` gives `fr`, `de` gives `en` |
| `ContentDeliveryExamples.NoDefaultIsFatal` | theme-kit/api/lib/createContentDeliveryClient.ts:35-46 | without a default language, `defaultLanguage` throws, and so does `languageOrDefault` for an unknown code |
| `ContentDeliveryExamples.CategoryLookupBySlug` | theme-kit/api/lib/createContentDeliveryClient.ts:69-76 | `team` finds category 1; `missing` finds nothing |
| `ContentDeliveryExamples.PinnedStoriesComeFirst` | theme-kit/api/lib/createContentDeliveryClient.ts:184-192 | with pinning, the order is C, B, A for the three-story example |
| `ContentDeliveryExamples.StoryByUuidStatuses` | theme-kit/api/lib/createContentDeliveryClient.ts:142-155 | a 404 from the uuid fetch gives `null`; a 500 propagates |
| `TrackingConsent.IsPrezlyTrackingAllowed` | hooks/useCookieConsent/lib/isPrezlyTrackingAllowed.ts:11-27 | DISABLED gives false whatever the inputs; otherwise an answer is returned as given; with no answer, false when the navigator says exactly false and null otherwise; true exactly when not DISABLED and consent is true |

## Left out

- Real timers and the event loop are replaced by the logical clock and `Advance`. Due callbacks run in an unspecified order within one `Advance`. Each deletes a different key, so the order does not change the result.
- `ExpiringStore.SelfExpiringStore.Set`: the opaque `date` argument, which is only passed through to the backing store, is not modelled.
- The host's clamping of timer delays, such as a ttl of `Infinity` or above 2^31 - 1 ms, is not modelled. The ttl is a natural number of milliseconds.
- The backing store from `@y_nk/cached-fetch` is a plain map. The memoizing wrapper that uses this store is not part of this model.
- `newsroom()`, `languages()`, `categories()` (sorted `+order`) and `featuredContacts()` are single SDK calls with no logic of their own. They are not modelled. The lookups take their results as inputs.
- `ContentDelivery.LanguageOrDefault`: the source fetches the language list twice, once for `language` and once for `defaultLanguage`. The model uses one list, as memoization gives.
- The Prezly SDK, HTTP transport and server behaviour are not modelled. This includes how the server applies filters, pagination, free-text search and sort order, and whether that sort is stable.
- Async and promise interleaving are not modelled. Each client operation is a single function.
- `getTrackingPolicy` and `isNavigatorTrackingAllowed` are browser-dependent readers. They become parameters. Only the DISABLED value of the policy enumeration is named.
- The enumerations of story formats, statuses, visibilities and gallery types list the values used here. They are not the SDK's full definitions.
