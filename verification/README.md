# Weather bot subscriber table, command handlers and broadcast run

A model in Dafny of the core of a Telegram weather bot. The bot keeps a table of subscribers.
Each row has a generated `id`, a unique `telegramId`, an `isSubscribed` flag and an optional
`preferredCity`. The bot handles four commands:
- `/start` sends a welcome message.
- `/subscribe` upserts the row with the flag set.
- `/unsubscribe` clears the flag of an existing row.
- `/setcity <city>` overwrites the city of an existing row.

A periodic run sends every subscribed user who has a city the current weather for that city.

Files and modules:

- `wrappers.dfy` (`Wrappers`): the `Option` type for nullable values.
- `user_entity.dfy` (`UserEntity`): the `User` row as a datatype.
- `user_service.dfy` (`UserService`): the repository.
  - `UserStore` is a class whose `users` field is a map from `telegramId` to row, so one row per
    Telegram user holds by construction.
  - The class also keeps `order`, the keys in primary-key order, and `nextId`, the next
    generated key.
  - Its methods `SubscribeUser`, `UnsubscribeUser`, `SetPreferredCity` and
    `GetAllSubscribedUsersWithPreferredCity` update or read these fields in place.
  - The pure functions `Subscribed`, `Unsubscribed`, `WithCity` and `EligibleRows` specify them.
  - The lemmas prove the table invariant `WellFormed`, identity, idempotence and "nothing else
    changes".
- `telegram_service.dfy` (`TelegramService`): the service class.
  - It holds the store and an `outbox` sequence; every `sendMessage` call appends one `Send`.
  - It has the four command handlers and the broadcast loop `SendDailyWeatherUpdate`.
  - Pure functions cover the weather text (`FetchWeatherDataForCity`), the `/setcity (.+)`
    capture (`SetCityArgument`) and the sends of one run (`BroadcastSends`), with lemmas
    about them.

Environment, as parameters:

- A failing repository call is a `storeFault` or `queryFault` flag. The only write of each
  store operation is one atomic `save`, so a failing call leaves the table as it was.
- The weather provider is an oracle `fetch: (nat, string) -> FetchResult`. `fetch(n, city)` is
  the provider's response to the n-th request of a run, made for `city`: `Failed`, or a body
  whose `data` array may be empty. The run makes one request per recipient, so two recipients
  with the same city can get different outcomes. With an empty array, `data.data[0]` is
  `undefined` and reading its `weather` field throws, so the fallback text is used, as for any
  other failure.
- `sendMessage` appends to `outbox`.

Quirks of the code, kept as written:

- `subscribeUser` always returns the saved row. So `/subscribe` always answers "now
  subscribed" when the store call succeeds. The "already subscribed" reply is never sent.
  `HandleSubscribe`'s contract states this.
- `/unsubscribe` answers "now unsubscribed" whenever a row exists, also when it was already
  unsubscribed. It answers "already unsubscribed" only when no row exists.
- `/setcity` confirms the city whenever the store call succeeds, also when no row exists and
  nothing was stored.
- A failing eligibility query ends the run with nothing sent. The error is swallowed.
  No fetch failure skips a recipient: the fallback text is sent instead.
- The run is scheduled with `* * * * *`, i.e. every minute, not daily. One run is one call of
  `SendDailyWeatherUpdate`.

## Model

| member | source | states |
|---|---|---|
| `UserService.Subscribed` | src/user/user.service.ts:14-24 | Upsert. The key is present afterwards with the flag set. An existing row keeps its id, telegramId and city. A new row is `(freshId, telegramId, true, no city)`. The key set grows by at most this key. Every other row is unchanged. |
| `UserService.Unsubscribed` | src/user/user.service.ts:26-33 | Same key set. An unknown key leaves the table unchanged. A known row has its flag cleared and its id, telegramId and city kept. Every other row is unchanged. |
| `UserService.WithCity` | src/user/user.service.ts:35-42 | Same key set, so no row is created for an unknown user. An unknown key leaves the table unchanged. A known row gets `preferredCity = city` and keeps its id, telegramId and flag. Every other row is unchanged. |
| `UserService.EligibleRows` | src/user/user.service.ts:44-51 | The query result holds exactly the table rows with the flag set and a present, non-empty city. A NULL city is excluded, as SQL `<> ''` excludes it. |
| `UserService.EligibleRowsSorted` | src/user/user.service.ts:44-51 | Rows listed in increasing primary-key order come back in increasing primary-key order, so no row is returned twice. |
| `UserService.UniqueKeys` | src/user/user.entity.ts:9-20 | In a well-formed table, one row exists per telegramId, and distinct rows have distinct generated ids. |
| `UserService.SubscribeKeepsWellFormed` | src/user/user.service.ts:15-21 | Subscribing keeps the table invariant. A new row goes last in key order and consumes one generated id. An existing row changes neither. |
| `UserService.SameIdentitiesKeepWellFormed` | src/user/user.service.ts:20-21 | A save that keeps every key and every row's id and telegramId keeps the table invariant, with the same key order and id counter. |
| `UserService.NewRowKeepsWellFormed` | src/user/user.service.ts:16-18 | Creating the row for an unknown user, with the next generated id and placed last in key order, keeps the table invariant. |
| `UserService.UnsubscribeKeepsWellFormed` | src/user/user.service.ts:26-33 | Unsubscribing keeps the table invariant with the same key order and id counter. |
| `UserService.SetCityKeepsWellFormed` | src/user/user.service.ts:35-42 | Setting the city keeps the table invariant with the same key order and id counter. |
| `UserService.Idempotent` | src/user/user.service.ts:14-42 | Applying any of the three store operations twice with the same arguments yields the same table as applying it once. This holds for redelivered commands. |
| `UserService.UserStore.SubscribeUser` | src/user/user.service.ts:14-24 | The new table is `Subscribed(old table, telegramId, old nextId)`. `order` and `nextId` grow only for a new user. The invariant is kept. The returned row is always present and subscribed. |
| `UserService.UserStore.UnsubscribeUser` | src/user/user.service.ts:26-33 | The new table is `Unsubscribed(old table, telegramId)`. The returned row is present exactly when the user had a row, and it is the updated row. |
| `UserService.UserStore.SetPreferredCity` | src/user/user.service.ts:35-42 | The new table is `WithCity(old table, telegramId, city)`. The returned row is present exactly when the user had a row, and it is the updated row. |
| `UserService.UserStore.GetAllSubscribedUsersWithPreferredCity` | src/user/user.service.ts:44-51 | Returns exactly the query result `EligibleRows` of the current table, and every returned row is eligible. What that result holds is stated by `EligibleRows`, `EligibleRowsSorted` and `QueryRowsAreTableRows`. |
| `TelegramService.FetchWeatherDataForCity` | src/telegram/telegram.service.ts:132-147 | Gives the fallback text exactly when the request failed or returned no `data[0]`. Otherwise it gives the report for `city` from `data[0]`, so a fallback is never mistaken for a report. |
| `TelegramService.LineRun` | src/telegram/telegram.service.ts:44 | The greedy `.+`: the longest prefix without a line terminator. |
| `TelegramService.FirstMatch` | src/telegram/telegram.service.ts:44 | The leftmost position at or after `from` where `/setcity ` is followed by a non-terminator, or none if no such position exists. |
| `TelegramService.SetCityArgument` | src/telegram/telegram.service.ts:110-116 | `match[1]` is absent exactly when the unanchored pattern matches nowhere. When present it is non-empty and has no line terminator. It follows the leftmost `/setcity ` that has an argument and reaches the end of that line. |
| `TelegramService.LineRunWhole` | src/telegram/telegram.service.ts:44 | A text without line terminators is captured whole. |
| `TelegramService.SetCityRoundTrip` | src/telegram/telegram.service.ts:44 | `/setcity <city>` with a one-line, non-empty city yields exactly that city. |
| `TelegramService.BareSetCityIgnored` | src/telegram/telegram.service.ts:44 | `/setcity` and `/setcity ` yield no argument, so the handler does not fire. |
| `TelegramService.BroadcastSends` | src/telegram/telegram.service.ts:157-165 | One send per user: no user is skipped, not even when the fetch fails. |
| `TelegramService.BroadcastSendsAt` | src/telegram/telegram.service.ts:157-165 | The sends follow the users' order. The i-th send is addressed to user i's telegramId and carries the weather text for user i's city, from the run's i-th weather request. |
| `TelegramService.BroadcastStep` | src/telegram/telegram.service.ts:157-165 | One more loop iteration appends exactly that user's message to the sends so far. |
| `TelegramService.QueryRowsAreTableRows` | src/user/user.service.ts:44-51 | On a well-formed table, every queried row is the table's row for its telegramId, every eligible user's row is among them, and no telegramId appears twice. |
| `TelegramService.RunReachesExactlyEligible` | src/telegram/telegram.service.ts:151-170 | A run messages a telegramId exactly when that user is eligible. It messages each user once, with the weather text for that user's own city, or the fallback text when the fetch failed. |
| `TelegramService.SetCityThenRun` | src/telegram/telegram.service.ts:153-164 | After setting a non-empty city on a subscribed user, the next run sends that user the weather text for the new city. |
| `TelegramService.TelegramService.HandleStart` | src/telegram/telegram.service.ts:54-58 | Appends exactly the welcome message to `chatId` and does not touch the store. |
| `TelegramService.TelegramService.HandleSubscribe` | src/telegram/telegram.service.ts:60-83 | Appends exactly one reply to `chatId`. On a store fault the reply is the failure reply and the store is unchanged. Otherwise the table becomes `Subscribed(...)`, a new user's key is appended to the key order and consumes one generated id, an existing user leaves both as they were, and the reply is always "now subscribed". |
| `TelegramService.TelegramService.HandleUnsubscribe` | src/telegram/telegram.service.ts:85-108 | Appends exactly one reply. On a fault it is the failure reply and the store is unchanged. Otherwise it is "now unsubscribed" exactly when the sender had a row, else "already unsubscribed", and the table becomes `Unsubscribed(...)`. |
| `TelegramService.TelegramService.HandleSetCity` | src/telegram/telegram.service.ts:110-130 | The city is the regex capture. Appends exactly one reply. On a fault it is the failure reply and the store is unchanged. Otherwise the confirmation for that city is sent even when no row exists, and the table becomes `WithCity(...)`. |
| `TelegramService.TelegramService.SendDailyWeatherUpdate` | src/telegram/telegram.service.ts:149-171 | A failing query appends nothing. Otherwise the loop appends exactly `BroadcastSends` of the current table's `EligibleRows`, in query order, and the store is not changed. |

## Left out

- Scheduling: the `node-cron` job (src/telegram/telegram.service.ts:173-179) is a timer side effect. One run is modelled as one method call.
- The HTTP request to the weather provider, its URL and `encodeURIComponent`: network I/O. They are replaced by the `fetch` oracle, and an encoding error is one of its `Failed` outcomes.
- The temperature's number-to-text rendering: JavaScript number formatting is not modelled. `Observation.temp` is the rendered text.
- Bot construction, polling, the `message`/`polling_error` listeners and the `onText` registration and routing: library plumbing. In particular the model does not capture that every registered pattern matching a message fires its handler. Each handler is modelled given one message.
- Requests that never settle: `axios.get` is called without a timeout (src/telegram/telegram.service.ts:136-140) and awaited inside the loop (src/telegram/telegram.service.ts:159-161). A request that hangs stalls the run, and the users after it get no message in that run. The `fetch` oracle always answers, so `RunReachesExactlyEligible` and `SendDailyWeatherUpdate` hold only for runs whose requests all settle.
- Logging and `console` output: they have no observable state.
- Delivery failures of `sendMessage`: the call is not awaited, so its rejection never reaches the handler or the loop. A send is an outbox append.
- Integer width of `telegramId`: the model's `int` is unbounded. The entity's `number` column (src/user/user.entity.ts:19-20) is a 32-bit `integer` on the default PostgreSQL database (src/app.module.ts:18-20). For a Telegram id outside that range every repository call fails, so that user only ever gets the failure replies and never a broadcast. The model covers this only as an arbitrary `storeFault`, not as a condition on the id.
- Concurrency: handlers and runs are atomic, so interleavings and the database's unique-constraint behaviour under races are not modelled.
- The query's order: SQL without `ORDER BY` leaves it unspecified. The model returns rows in primary-key (creation) order, and the run's properties hold for the order given.
- `TelegramService.TelegramService.constructor`: only stores the injected store and starts with an empty outbox. Creating the bot, its token and its listeners is left out, as described above.
- `UserService.UserStore.constructor`: models an empty repository whose generated keys start at 1. That is the database's behaviour, not code in the core.
- src/user/user.controller.ts, src/telegram/telegram.controller.ts, src/app.module.ts and src/interface/env.interface.ts: transport and configuration. They are not part of this model.
