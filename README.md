# Echo chat client: session store and route guard

A Dafny model of the two pieces of logic in a small React chat client:

- **The chat page's session store** (`src/pages/Chat.jsx`). The page keeps chat
  sessions in an IndexedDB object store with auto-incremented numeric keys.
  Each record holds an ordered list of messages. The page also tracks:
  - the list of session buttons;
  - the current session;
  - the messages on screen;
  - the set of message ids already seen;
  - the id of the last session used, remembered in `localStorage`.

  Its handlers are load, create, switch, delete (with a fallback), save, send
  and receive. Each is modelled as a method of the class
  `Chat.ChatComponent` and runs to completion as one sequential step.
- **The route guard** (`src/components/ProtectedRoute.jsx`). It reads the
  stored token, decodes it and compares its `exp` claim with the clock. It then
  either renders the chat route or redirects to `/`, removing a token it
  rejects. It is modelled as the pure function `ProtectedRoute.Guard`, which
  returns the view and the token left in storage.

Files:

- `wrappers.dfy`: `Option`.
- `js_text.dfy`: the JavaScript built-ins the page relies on. These are
  `trim()`, `String(n)` for an integer, and `Number(s)`.
- `indexed_db.dfy`: the object store as a value. It is a map from key to
  record plus the store's key generator, with the `add`, `put`, `delete`,
  `get` and `getAll` semantics the page uses.
- `chat.dfy`: the messages, the records and the page's state and handlers.
- `protected_route.dfy`: the guard.

The class invariant `Chat.ChatComponent.Valid` says four things:

- every stored key is below the key generator;
- the listed sessions are distinct;
- every listed session is a stored record;
- the seen-id set is exactly the set of ids of the messages on screen.

Every handler preserves it.

Behaviour the model makes explicit:

- **Received frames are not written to the store.** The `onmessage` handler
  is installed once, by an effect with no dependencies. It therefore calls the
  `saveMessagesToDB` of the first render, whose `currentSession` is `null`.
  So `ReceiveMessage` only appends in memory, and a received message reaches
  the store only with the next send. The handler's own code reads as if every
  inbound frame were written back to the current session, but it never is.
- **The guard compares with a strict `<`.** It redirects only when `exp` is
  strictly before the current time, so a token is still accepted at its
  expiry instant. `GuardRendersAtExpiryInstant` shows that this is looser
  than section 4.1.4 of RFC 7519.
- **`currentSession` is falsy for both `null` and 0.** So saving does nothing
  in either case.
- **`Number(x) || first` has two falsy results, NaN and 0.** Either one falls
  back to the first listed session.

## Model

| member | source | states |
|---|---|---|
| JsText.TrimStart | src/pages/Chat.jsx:127 | the result is a suffix of the input, everything dropped is white space, and it does not start with white space |
| JsText.TrimEnd | src/pages/Chat.jsx:127 | the result is a prefix of the input, everything dropped is white space, and it does not end with white space |
| JsText.Trim | src/pages/Chat.jsx:127 | `trim()` is empty exactly when the input is all white space; otherwise it starts and ends with a visible character; it is the identity on an already trimmed string |
| JsText.TrimIsSlice | src/pages/Chat.jsx:127 | `trim()` is a slice of the input with only white space before and after it; with the visible ends stated by `Trim`, this fixes the result |
| JsText.ShowNat | src/pages/Chat.jsx:177 | the decimal numeral of a natural number is a non-empty run of digits without a leading zero |
| JsText.ShowInt | src/pages/Chat.jsx:177 | `String(id)` is non-empty, has no surrounding white space, and is all digits exactly when the id is not negative |
| JsText.DigitsValueOfShowNat | src/pages/Chat.jsx:44-45 | reading back the digits written for `n` gives `n` |
| JsText.Number | src/pages/Chat.jsx:45 | `Number(s)` is 0 for a blank string, the value of a plain run of digits, and NaN only when some character is visible |
| JsText.NumberOfItem | src/pages/Chat.jsx:45 | a missing `localStorage` item reads as `null`, which `Number` turns into 0 |
| JsText.NumberOfShowInt | src/pages/Chat.jsx:44-45 | `Number(String(n)) == n` for every integer: a remembered id reads back unchanged |
| IndexedDb.MinExists | src/pages/Chat.jsx:36 | every non-empty finite set of keys has a least element |
| IndexedDb.MinKey | src/pages/Chat.jsx:36 | the key returned is in the set and is at most every key in it |
| IndexedDb.AscendingKeys | src/pages/Chat.jsx:36 | the order `getAll` lists records in: every key exactly once, strictly ascending |
| IndexedDb.Store.Add | src/pages/Chat.jsx:170-173 | `add` stores the record under the generator's current number, a key not previously in the store, and advances the generator past it |
| IndexedDb.Store.Put | src/pages/Chat.jsx:157-161 | `put` replaces or creates only the record under the given key and keeps the generator above every key |
| IndexedDb.Store.Delete | src/pages/Chat.jsx:210 | `delete` removes only the given key; every other record is unchanged; the generator never goes back |
| IndexedDb.Store.Get | src/pages/Chat.jsx:194 | `get` returns the stored record exactly when the key is present |
| IndexedDb.Store.AllKeys | src/pages/Chat.jsx:36 | `getAll` visits every stored key once, in ascending order |
| Chat.IdsOf | src/pages/Chat.jsx:50-52 | `new Set(messages.map(m => m.id))` holds exactly the ids that occur in the list |
| Chat.IdsOfAppend | src/pages/Chat.jsx:137-144 | appending one message adds exactly its id to the id set |
| Chat.Without | src/pages/Chat.jsx:211 | `filter(s => s.id !== id)` keeps exactly the other ids and is the identity when `id` is absent |
| Chat.WithoutDistinct | src/pages/Chat.jsx:211 | filtering keeps the session list free of duplicates |
| Chat.WithoutRemovesOne | src/pages/Chat.jsx:211 | on a duplicate-free list, filtering removes exactly the one matching entry and keeps the order of the rest |
| Chat.InitialSession | src/pages/Chat.jsx:44-45 | the opened session is the remembered number whenever it parses to a non-zero number, and the first listed one when it is NaN or 0 or nothing is remembered |
| Chat.RememberedSessionReopens | src/pages/Chat.jsx:44-46 | a session remembered with `String(id)` is the one reopened on the next load, unless its id is 0 |
| Chat.ChatComponent.constructor | src/pages/Chat.jsx:24-31 | the first render has no sessions listed, no current session, no messages, an empty seen set and empty input, over the existing store and `localStorage` |
| Chat.ChatComponent.CreateNewSession | src/pages/Chat.jsx:167-181 | inserts an empty record under a fresh key, the key generator's current number, and advances the generator; appends that key to the list; makes it current and remembered; empties the messages and the seen set |
| Chat.ChatComponent.SwitchSession | src/pages/Chat.jsx:188-201 | makes `id` current and remembered; shows the stored messages with the seen set equal to exactly their ids, or empties both when there is no record |
| Chat.ChatComponent.DeleteSession | src/pages/Chat.jsx:207-224 | removes only `id` from the store and the list, and never moves the key generator back, so a deleted key is not handed out again. A non-current `id` leaves current, messages, seen set, remembered id and generator unchanged. Deleting the current session leaves current on a stored, listed session: the first remaining one, or else a fresh empty one that is then the only listed session |
| Chat.ChatComponent.SaveMessagesToDB | src/pages/Chat.jsx:153-161 | overwrites only the current session's record with the given list, never moving the key generator back, and does nothing when the current session is `null` or 0 |
| Chat.ChatComponent.SetInput | src/pages/Chat.jsx:297 | the input field holds the typed text and nothing else changes |
| Chat.ChatComponent.SendMessage | src/pages/Chat.jsx:125-151 | sends and records something exactly when the trimmed input is non-empty and the socket is open. It then sends the untrimmed input, appends exactly one outbound message at the end, adds its id to the seen set, saves the list to the current record (the key generator never goes back) and clears the input. Otherwise nothing changes |
| Chat.ChatComponent.ReceiveMessage | src/pages/Chat.jsx:69-95 | appends exactly one received message at the end and adds its id exactly when the id was not seen; otherwise nothing changes; the store is never written |
| Chat.ChatComponent.LoadSessions | src/pages/Chat.jsx:34-55 | an empty store gets exactly one new session, which becomes current. Otherwise the list is every stored key in ascending order, current is the remembered id when it parses to a non-zero number or else the first listed id, and the messages and seen set are loaded only when that record exists; the key generator never goes back |
| ProtectedRoute.Guard | src/components/ProtectedRoute.jsx:4-25 | the result is always either the redirect to `/` or the nested route, and the token is kept or removed, never written. With no token, redirects and leaves storage alone. On a decode failure, redirects and removes the token. Otherwise renders exactly when `exp` is not strictly before now, and removes the token exactly when it redirects |
| ProtectedRoute.GuardAcceptsRfcPlusBoundary | src/components/ProtectedRoute.jsx:13-20 | the guard renders exactly the tokens section 4.1.4 of RFC 7519 accepts plus those expiring at this instant, and clears exactly the others |
| ProtectedRoute.GuardRendersAtExpiryInstant | src/components/ProtectedRoute.jsx:13-20 | at `exp == now` the guard renders and keeps the token although RFC 7519 counts it expired |
| ProtectedRoute.GuardRendersWithoutExp | src/components/ProtectedRoute.jsx:15-20 | a decodable token without `exp` is rendered and kept, because `undefined < t` is false |

## Left out

- The WebSocket lifecycle is left out: opening, `onopen`, `onclose` and the unconditional 3000 ms reconnect timer. These are I/O and timing. Whether the socket is open is the `socketOpen` parameter of `SendMessage`, and the frame sent is its result.
- Decoding Blob frames to text is left out because it is I/O. `ReceiveMessage` takes the text.
- Opening the database and its upgrade callback belong to the idb library, so they are left out. The store is `IndexedDb.Store` from the first call on.
- Storage and socket errors are left out. The page catches them and only logs them, including `createNewSession` returning `null`. Every operation is modelled as succeeding.
- Generating message ids from `Date.now()` and `Math.random()` is left out because it is nondeterministic. Ids are method parameters, so the dedup check in `ReceiveMessage` is modelled in full even though the page's own ids rarely collide.
- Wall-clock values are left out. Message timestamps and the record's `lastUpdated` come from a `now` parameter. `lastUpdated` is modelled as a number, not an ISO string.
- React's asynchronous state updates and batching are left out. Each handler runs to completion in order. In that order, the `sessions` that `deleteSession` reads equals the `prev` passed to its updater.
- JSX rendering, `scrollToBottom` and `logout` are UI and navigation, so they are left out.
- The login and sign-up pages and the route table are left out. They are network calls and router configuration.
- JsText.Number: reads only blank strings and optionally signed decimal digit runs. Fractions, exponents, hex/octal/binary prefixes and `Infinity` all read as NaN here. This is weaker than JavaScript, but the page only ever stores `String` of an integer.
- JsText.ShowInt: writes plain decimal for every integer. JavaScript switches to exponent notation from 10^21 and is exact only up to 2^53. Session keys are integers, so fractional keys are not modelled.
- IndexedDb.Store.Add: has no upper limit on keys. A real key generator refuses to go past 2^53.
- ProtectedRoute.Guard: `exp` is absent, `null`, or a whole number of seconds. A string, boolean or fractional `exp` is not modelled.
- The guard's clock is whole milliseconds compared exactly, `exp * 1000 < nowMs`. The source divides `Date.now()` by 1000 in floating point.
- `jwtDecode` is an arbitrary function parameter. It either fails or yields claims. Signatures are not checked, and neither does the page check them.
