# farmIT request throttling, farm slugs, addresses and delivery quotes in Dafny

This project models the sequential core of the farmIT Django marketplace and
proves properties of that model:

- **Per-action throttle** (`check_throttle` in `farmIT/farmIT/throttling.py`).
  A fixed-window counter is kept in the Django cache under
  `th:<key>:<bucket>`. It tries `incr` first; on failure it does `get`, then
  `add` for a new key or `set` for an existing one. The result has three
  parts: allowed, remaining, and seconds until the window resets.
- **Site-wide rate-limit middleware** (`RateLimitMiddleware` in
  `farmIT/farmIT/middleware.py`). Requests are counted per client IP and
  minute under `rl:<ip>:<minute>`. The limit is 60 for anonymous users and
  240 for authenticated ones. The middleware reads the count, refuses with
  429 at the limit, and otherwise stores count + 1 and passes the request on.
  The client IP is the first entry of `X-Forwarded-For`, stripped; without
  that header it is `REMOTE_ADDR`, or `"unknown"`.
- **Farm slugs** (`Farm.save` in `farmIT/products/models.py` and the data
  migration `0006_backfill_farm_slugs`). A farm without a slug gets the first
  of `base`, `base-2`, `base-3`, … that no other farm holds. When `base` is
  empty, the first candidate is `farm-<farmer id>`, but the later ones are
  still built from the empty base: `-2`, `-3`, …. The model keeps that.
- **Addresses** (`Address.full_address` and `Address.save`). The one-line
  address is `line1` and then each non-empty optional field, joined by
  `", "`. Saving a default address clears the default flag on the same
  user's other addresses, so each user has at most one default.
- **Delivery quotes** (`estimate_distance_and_fee`):
  - the coordinate checks come first;
  - the ETA is minutes at 25 km/h, rounded half-even, and at least 1;
  - the fee is `base + distance * per_km`, rounded half-even, with base 50
    and per-km 10 by default.

State is explicit:

- The cache is a class `KeyValueCache.Cache` holding maps of values and
  timeouts. Its `Incr`, `Get`, `Add` and `Set` follow Django's local-memory
  backend on the values it stores, except for expiry and eviction (see
  "Left out").
- The farm and address tables are classes holding a `seq` of rows and the
  next primary key.
- The clock is an integer parameter. `check_throttle` reads the clock twice,
  so its model takes two readings.

Files:

- `wrappers.dfy`: Option and Result.
- `text.dfy`: Python's `str(int)`, `strip`, `split` and `join`, with their
  round trips.
- `cache.dfy`: the cache.
- `throttling.dfy`, `middleware.dfy`, `orm.dfy` (table upsert and key
  invariant), `farms.dfy`, `addresses.dfy`, `delivery.dfy`.

Behaviour of the code the model keeps:

- With `limit <= 0` or `window_seconds <= 0`, `check_throttle` returns
  `remaining = limit`. That value is negative when the limit is negative, and
  is not clamped to 0.
- The middleware always trusts `X-Forwarded-For`. Nothing reads a setting
  that would switch this off. A header whose first entry is blank yields the
  empty string as the client IP (see `Middleware.BlankForwardedEntry`); it
  does not fall back to `REMOTE_ADDR`.
- Neither the throttle nor the middleware catches a failing cache to let
  requests through. `check_throttle` catches only the exception from
  `incr`.

## Model

| member | source | states |
|---|---|---|
| KeyValueCache.CountOf | farmIT/farmIT/middleware.py:29 | `cache.get(key, 0)`: the stored count, or 0 for a missing key |
| KeyValueCache.Cache.Incr | farmIT/farmIT/throttling.py:30 | increments and returns the new value only for a present key on a backend that supports it; otherwise fails and changes nothing; timeouts are untouched |
| KeyValueCache.Cache.Get | farmIT/farmIT/throttling.py:33 | returns the stored value, or None when the key is absent |
| KeyValueCache.Cache.Add | farmIT/farmIT/throttling.py:35 | stores value and timeout only when the key is absent, and reports whether it did |
| KeyValueCache.Cache.Set | farmIT/farmIT/throttling.py:39 | overwrites the value and the timeout of the key |
| Text.NatToString | farmIT/farmIT/throttling.py:26 | decimal digits of a natural number, one digit exactly for numbers below 10 |
| Text.IntToString | farmIT/farmIT/throttling.py:26 | `str(int)`: non-empty, no `:` or `,`, and it starts with `-` exactly for negative numbers |
| Text.ParseNatToString | farmIT/farmIT/throttling.py:26 | parsing the digits of `str(n)` gives back `n` |
| Text.ParseIntToString | farmIT/farmIT/throttling.py:26 | parsing `str(n)` gives back `n`, for negative `n` too |
| Text.IntToStringInjective | farmIT/farmIT/throttling.py:26 | distinct integers render to distinct strings, and conversely |
| Text.NatToStringInjective | farmIT/products/models.py:60 | distinct counters give distinct suffixes, and conversely |
| Text.AfterLastColon | farmIT/farmIT/throttling.py:26 | the part after the last `:` holds no `:` and ends the string |
| Text.AfterLastColonOfKey | farmIT/farmIT/throttling.py:26 | for `k + ":" + s` with no `:` in `s`, the part after the last colon is `s` |
| Text.TaggedKeyInjective | farmIT/farmIT/throttling.py:26 | `prefix + k + ":" + s` keys are equal exactly when both the key and the colon-free suffix are |
| Text.TrimStart | farmIT/farmIT/middleware.py:39 | the result is a suffix of the input that starts with a non-space character when non-empty |
| Text.TrimStartDropsSpace | farmIT/farmIT/middleware.py:39 | what is removed at the start is whitespace only |
| Text.TrimEnd | farmIT/farmIT/middleware.py:39 | the result is a prefix of the input that ends with a non-space character when non-empty |
| Text.TrimEndDropsSpace | farmIT/farmIT/middleware.py:39 | what is removed at the end is whitespace only |
| Text.Strip | farmIT/farmIT/middleware.py:39 | `str.strip()`: the result is no longer than the input, and neither starts nor ends with whitespace |
| Text.StripTrimsSpace | farmIT/farmIT/middleware.py:39 | the result is a contiguous piece of the input, and only whitespace is cut off on either side |
| Text.StripAddsNothing | farmIT/farmIT/middleware.py:39 | every character of the result occurs in the input |
| Text.StripPadded | farmIT/farmIT/middleware.py:39 | stripping space-padded text whose ends are non-space gives the text back |
| Text.TrimStartOfSpace | farmIT/farmIT/middleware.py:39 | an all-space string trims to the empty string |
| Text.TrimStartPadded | farmIT/farmIT/middleware.py:39 | leading space before a non-space start is exactly what is removed |
| Text.TrimEndPadded | farmIT/farmIT/middleware.py:39 | trailing space after a non-space end is exactly what is removed |
| Text.FirstSegment | farmIT/farmIT/middleware.py:39 | `split(',')[0]`: the longest comma-free prefix, stopping at the first comma |
| Text.FirstSegmentUpToComma | farmIT/farmIT/middleware.py:39 | for a comma-free `a` followed by nothing or a comma, the first segment is `a` |
| Text.SplitAfterPiece | farmIT/products/models.py:219 | text `p` free of the separator's first character is glued to the first piece of what follows it, and the other pieces are unchanged |
| Text.SplitJoin | farmIT/products/models.py:219 | splitting the `join` of one or more parts gives the parts back, when no part holds the separator's first character |
| Text.Join | farmIT/products/models.py:219 | `str.join`: empty for no parts, starts with the first part, and with the first part and the separator when there are two or more |
| Throttling.Bucket | farmIT/farmIT/throttling.py:25 | `now // window` is the window number containing `now` |
| Throttling.StoreKey | farmIT/farmIT/throttling.py:26 | the key starts with `th:` and the bucket number reads back after its last colon |
| Throttling.StoreKeyInjective | farmIT/farmIT/throttling.py:26 | two throttle keys coincide exactly when the caller key and the bucket do |
| Throttling.SameCounterWithinWindow | farmIT/farmIT/throttling.py:25-26 | two times share a counter exactly when they fall in the same window |
| Throttling.WindowEnd | farmIT/farmIT/throttling.py:43 | `(bucket + 1) * window`, the first second after the window of `now`: later than `now`, by at most one window |
| Throttling.MulMonotone | farmIT/farmIT/throttling.py:25 | multiplying by a positive window size keeps the order of window numbers, so later windows start later |
| Throttling.Decide | farmIT/farmIT/throttling.py:41-45 | allowed iff the count is within the limit. Remaining is `limit - count` when allowed and 0 otherwise, never negative. The reset is `(bucket + 1) * window - later` whenever that is not negative, and 0 otherwise. |
| Throttling.ThrottleSpec | farmIT/farmIT/throttling.py:14-46 | with limit or window <= 0, the call is allowed with `remaining = limit` and the store is untouched. Otherwise the counter of this window goes up by one. The call is allowed iff the new count is at most the limit. Remaining is `limit - count` when allowed and 0 when not, never negative. The reset is the seconds from the second clock reading to the window's end (`WindowEnd - later`) while that reading is inside the window, and 0 once it has passed the end. So the reset is between 0 and the window, and at least 1 when the clock has not moved. |
| Throttling.CheckThrottle | farmIT/farmIT/throttling.py:22-46 | the incr / get / add / set sequence on the cache yields exactly the result and store of `ThrottleSpec`; the window timeout is set only when the counter is created or rewritten |
| Throttling.CallsInFreshWindow | farmIT/farmIT/throttling.py:25-42 | calls made at any seconds within one window whose counter does not exist yet: the i-th of n calls is allowed iff i < limit, with `remaining = max(0, limit - i - 1)`. The counter ends at n and no other key changes. |
| Throttling.ThreePerMinute | farmIT/farmIT/throttling.py:41-42 | with limit 3 per 60 s, four calls at any seconds of one window give allowed T, T, T, F and remaining 2, 1, 0, 0 |
| Throttling.NewWindowStartsOver | farmIT/farmIT/throttling.py:25-26 | after a window ends, the next call counts from 1 again, however many calls the old window saw at whatever seconds |
| Throttling.IsolatedCounters | farmIT/farmIT/throttling.py:26 | a call for one caller key leaves the counter of every other caller key unchanged, in every window |
| Throttling.Isolation | farmIT/farmIT/throttling.py:26 | a call for one caller key does not change the result of a later call for another caller key |
| Throttling.SameCountSameResult | farmIT/farmIT/throttling.py:41-45 | the result of a call depends on the store only through the counter of its key and window |
| Throttling.ResetCountsDown | farmIT/farmIT/throttling.py:43-45 | within one window, a later second clock reading gives a strictly smaller reset |
| Middleware.ClientIp | farmIT/farmIT/middleware.py:35-40 | with a non-empty `X-Forwarded-For`, a comma-free text with non-space ends: the stripped first comma segment (exactly so by `ForwardedIdentity`); otherwise `REMOTE_ADDR`, or `"unknown"` |
| Middleware.ForwardedIdentity | farmIT/farmIT/middleware.py:37-39 | a header `pre + ip + post + rest`, where `pre` and `post` are spaces, `ip` is comma-free and `rest` is empty or starts with a comma, resolves to exactly `ip` |
| Middleware.BlankForwardedEntry | farmIT/farmIT/middleware.py:37-39 | a header whose first entry is blank resolves to the empty string, not to `REMOTE_ADDR` |
| Middleware.MaxRequests | farmIT/farmIT/middleware.py:25-27 | the ceiling is 240 exactly for authenticated requests and 60 otherwise |
| Middleware.GateKey | farmIT/farmIT/middleware.py:24 | the key starts with `rl:` and the minute number `now // 60` reads back after its last colon |
| Middleware.GateKeyInjective | farmIT/farmIT/middleware.py:24 | two middleware keys coincide exactly when the IP and the minute do |
| Middleware.GateSpec | farmIT/farmIT/middleware.py:29-32 | a request is admitted iff the stored count of its key (0 when absent) is below its ceiling; an admitted one changes only its own key, to count + 1, which stays within the ceiling; a refused one changes nothing |
| Middleware.RateLimitMiddleware.constructor | farmIT/farmIT/middleware.py:19-20 | keeps the downstream handler; nothing has been passed on yet |
| Middleware.RateLimitMiddleware.Call | farmIT/farmIT/middleware.py:22-33 | the cache changes as `GateSpec` says: a request is admitted iff the stored count for its IP and minute is below 60 (anonymous) or 240 (authenticated), and only an admitted one stores count + 1. An admitted request gets the handler's response, is appended to the passed-on requests, and its key gets the 60 s timeout. A refused one gets 429 "Too many requests, slow down." and nothing else changes. |
| Middleware.OneClassOneClient | farmIT/farmIT/middleware.py:24-32 | requests from one client in one class, arriving at any seconds of one minute whose counter does not exist yet: the i-th is admitted iff i < the class limit, and the counter ends at `min(n, limit)` |
| Middleware.AppendDecision | farmIT/farmIT/middleware.py:29-32 | one more request of the client in the same minute extends "exactly the first `limit` admitted, counter at `min(n, limit)`" from n to n + 1 requests |
| Middleware.OneClientStep | farmIT/farmIT/middleware.py:24-32 | a request in the same minute after n earlier ones from the client is admitted iff n is below the class limit, and the counter moves from `min(n, limit)` to `min(n + 1, limit)` |
| Middleware.AdmitFirst | farmIT/farmIT/middleware.py:30-32 | a decision that admits exactly while fewer than `limit` came before keeps "exactly the first `limit` are admitted" |
| Middleware.SharedCounterAcrossClasses | farmIT/farmIT/middleware.py:24-30 | the key ignores the user class, so between 60 and 239 stored requests an anonymous request is refused while an authenticated one from the same IP is admitted |
| Middleware.CounterBounded | farmIT/farmIT/middleware.py:29-32 | over any cache, including one whose other counters exceed 240, and requests at any seconds, every counter the gate writes ends at or below 240 |
| Orm.FindPk | farmIT/products/models.py:58 | finds the row holding a primary key, or reports that none does |
| Orm.Upsert | farmIT/products/models.py:62 | the written row is in the table afterwards. The table grows by at most one row, and when it grows the old rows stay in front unchanged. |
| Orm.UpsertKeepsKeys | farmIT/products/models.py:62 | writing a row keeps keys distinct and below the next key. The written row is present. Rows with other keys keep their place and value. |
| Orm.UpdateKeepsKeys | farmIT/products/models.py:62 | replacing the row with the same key keeps the keys valid, and every row with another key is unchanged |
| Orm.InsertKeepsKeys | farmIT/products/models.py:62 | appending a row with a new key below the next key keeps the keys valid |
| Farms.SlugTaken | farmIT/products/models.py:58 | a slug is taken exactly when some farm with another key holds it |
| Farms.FallbackSlug | farmIT/products/models.py:55 | `farm-` followed by the farmer id, which holds no colon or comma |
| Farms.FallbackSlugInjective | farmIT/products/models.py:55 | different farmers get different fallback slugs |
| Farms.Candidate | farmIT/products/models.py:54-60 | every candidate slug is non-empty |
| Farms.CandidatesDistinct | farmIT/products/models.py:55-60 | the search never tries the same slug twice, even when the base is empty |
| Farms.FindFreeSlug | farmIT/products/models.py:55-60 | returns the first candidate, in order, held by no other farm: every earlier candidate is taken and the returned one is free |
| Farms.BackfillStep | farmIT/products/migrations/0006_backfill_farm_slugs.py:11-15 | writing the free candidate into the next farm in query order keeps the keys valid. Every farm handled so far, this one included, holds a slug no other row holds. |
| Farms.BackfillSkip | farmIT/products/migrations/0006_backfill_farm_slugs.py:7 | a farm that already has a slug is not among those the query returns, and is left as it is |
| Farms.SaveBase | farmIT/products/models.py:54 | the slug of the farm's name, or of the farmer's username when the name is empty |
| Farms.BackfillBase | farmIT/products/migrations/0006_backfill_farm_slugs.py:8 | the same base as `Farm.save` whenever the name or the username is non-empty, and the slug of `farm-<farmer id>` when both are empty |
| Farms.SearchStep | farmIT/products/models.py:58-60 | a taken candidate is new to the search, so the finite set of taken slugs still unseen shrinks |
| Farms.FarmTable.constructor | farmIT/products/models.py:51 | an empty table satisfies the key invariant |
| Farms.FarmTable.Persist | farmIT/products/models.py:62 | `super().save()`: the table is upserted by key, a new farm gets a fresh key, and the key invariant holds |
| Farms.FarmTable.SaveFarm | farmIT/products/models.py:51-62 | a farm with a slug keeps it. A farm without one gets the first free candidate from its name, or else its farmer's username. Its slug is then held by no other row. Nothing but slug and key differs from the input. The new table is the old one with this farm upserted by key, so every other farm is kept, and a new farm gets the next key. |
| Farms.FarmTable.BackfillFarmSlugs | farmIT/products/migrations/0006_backfill_farm_slugs.py:5-15 | the farms are processed in the query's order, given as a permutation of the rows. Rows with a slug are unchanged. Each row with an empty slug changes only in its slug, which becomes a non-empty candidate from its name, username or fallback. That slug is held by no other row afterwards. Keys and the row count are unchanged. |
| Addresses.NonEmpty | farmIT/products/models.py:209-218 | keeps at most as many strings as it is given |
| Addresses.AppendEach | farmIT/products/models.py:209-218 | the list only grows: the old parts stay in front, and at most one part is added per field |
| Addresses.AppendEachAddsNonEmpty | farmIT/products/models.py:209-218 | appending each field when it is non-empty, one field after the other, adds exactly the non-empty fields in order |
| Addresses.NonEmptyMembers | farmIT/products/models.py:209-218 | a string is kept iff it is non-empty and among the fields |
| Addresses.AppendIfSet | farmIT/products/models.py:209-210 | the list only grows, by one element exactly when the field is non-empty, and never by an empty string |
| Addresses.AddressParts | farmIT/products/models.py:208-218 | the list starts with `line1` and holds at most the five optional fields besides |
| Addresses.AddressPartsAreNonEmptyFields | farmIT/products/models.py:208-218 | the appended list is `line1` followed by exactly the non-empty optional fields, in the order barangay, city, province, postal code, country |
| Addresses.FullAddress | farmIT/products/models.py:207-219 | the text starts with `line1`, and is `line1` alone when every optional field is empty |
| Addresses.FullAddressFields | farmIT/products/models.py:207-219 | when no field holds a comma, splitting the full address at `", "` recovers `line1` and the non-empty fields in order |
| Addresses.ClearOtherDefaults | farmIT/products/models.py:224 | the user's rows with another key lose the default flag; every other row is unchanged |
| Addresses.ClearedFor | farmIT/products/models.py:223-224 | saving a non-default address changes no other row; otherwise each row is unchanged or is a row of the same user under another key with its flag cleared |
| Addresses.SaveKeepsOneDefault | farmIT/products/models.py:221-225 | saving keeps at most one default per user and keeps the keys valid; a saved default is its user's only default |
| Addresses.UntouchedDefaultsDistinct | farmIT/products/models.py:224-225 | two default rows the save did not write belong to different users, as they did before |
| Addresses.OthersNotDefault | farmIT/products/models.py:223-225 | after a default is saved, no other address of the same user is a default |
| Addresses.AddressBook.constructor | farmIT/products/models.py:221 | an empty address table satisfies the key invariant |
| Addresses.AddressBook.SaveAddress | farmIT/products/models.py:221-225 | a default address of a user first clears the flag on that user's other rows, then is upserted under its key, or a fresh one when it has none |
| Delivery.RoundHalfEven | farmIT/products/models.py:315 | `quantize(Decimal("1"))`: an integer within 1/2 of the value, and even on an exact tie |
| Delivery.RoundHalfEvenUnique | farmIT/products/models.py:315 | any integer within 1/2 of the value that is even on a tie is the rounding, so half-even rounding is determined by those two properties |
| Delivery.RoundHalfEvenMonotone | farmIT/products/models.py:315 | rounding never reverses the order of two values |
| Delivery.RoundHalfEvenOfInt | farmIT/products/models.py:319 | a whole amount is not changed by rounding |
| Delivery.EtaMinutes | farmIT/products/models.py:313-315 | at least 1 minute. Exactly 1 for distance 0 or a trip of at most half a minute at 25 km/h. Otherwise within half a minute of the travel time at 25 km/h, and even on an exact tie. |
| Delivery.EtaMonotone | farmIT/products/models.py:313-321 | a longer trip never gets a shorter ETA |
| Delivery.QuotedFee | farmIT/products/models.py:319 | the fee is within 1/2 of `base + distance * per_km`, and even on an exact tie |
| Delivery.FeeMonotone | farmIT/products/models.py:319 | with a non-negative per-km rate, a longer trip never costs less |
| Delivery.FeeOfWholeAmounts | farmIT/products/models.py:319 | whole base, rate and distance give exactly `base + distance * per_km` |
| Delivery.Given | farmIT/products/models.py:317-318 | the caller's amount when given, the default otherwise |
| Delivery.EstimateDistanceAndFee | farmIT/products/models.py:288-321 | fails with the farm error iff the farm lacks a coordinate. Fails with the address error iff the farm has both coordinates and the address lacks one. Otherwise the distance is the rounded haversine distance in hundredths divided by 100, the ETA is `EtaMinutes` of that distance (so at least 1, and exactly 1 at distance 0), and the fee is `QuotedFee` of the given or default (50, 10) tariff. |
| Delivery.FartherCostsNoLess | farmIT/products/models.py:313-321 | under the default tariff, a farther destination gets neither a shorter ETA nor a smaller fee |
| Delivery.ZeroDistanceQuote | farmIT/products/models.py:314-321 | at distance 0 the ETA is 1 minute and, with the default base, the fee is 50 |

## Left out

- Cache expiry is not modelled: entries never expire, and timeouts are only recorded. Window rollover is modelled through the bucket in the key, which is what decides the count in the source.
- Concurrency is not modelled. Two requests racing between the middleware's `get` and `set` can both be admitted; the model runs requests one at a time.
- Cache eviction is not modelled. Django's local-memory backend culls entries once it holds its maximum number of keys (300 by default, and the settings set no other), which can drop a counter in mid-window. The model keeps every entry.
- Cache backends other than local memory are not modelled. The flag `incrSupported` covers a backend whose `incr` always raises.
- The clock (`time.time()`) is not modelled as a real-valued float. It is an integer parameter, and `int()` of the float difference is taken on whole seconds.
- Throttling.Calls: each call in a run reads the clock once, so its two readings (for the bucket and for the reset) are equal. A single call with two different readings is covered by `ThrottleSpec`, `ResetCountsDown` and `Isolation`.
- `_haversine_km` is left out because it uses floating-point trigonometry. Its result, rounded to two decimals, is a function parameter giving hundredths of a kilometre. The `float()` conversion of the coordinates is left out with it.
- Delivery.EstimateDistanceAndFee: computes Decimal arithmetic exactly as reals. It does not model Decimal's 28-digit context precision, or the `InvalidOperation` that `quantize` raises when a result has more digits than that.
- `slugify` is Django's; it is a function parameter, and nothing is assumed about it.
- The database `unique` constraint on `Farm.slug` is not modelled. The properties show the slug search alone keeps slugs distinct when writes happen one at a time.
- Primary keys are idealised: a new row gets the next unused integer.
- Farms.FarmTable.BackfillFarmSlugs: the query's order (by `name`, under the database's collation) is not computed; it is a parameter, any permutation of the rows, and the contract holds for every one.
- Farms.FarmTable.BackfillFarmSlugs: states that each new slug is a candidate for that farm and is unique afterwards. It does not state that the slug was the first free candidate at the moment that farm was processed. (FindFreeSlug states that for each single search.)
- Addresses.AddressBook.SaveAddress: `self.user_id` is tested for truthiness, so a user id of 0 does not clear other defaults. The model keeps that test, and the invariant lemma assumes a default address has a non-zero user id.
- The views that call `check_throttle` with their own keys and limits, the settings, storage, forms and templates are not part of this model.
- Middleware.RateLimitMiddleware.Call: the downstream handler is a pure function of the request; whatever it does to other state is not modelled.
