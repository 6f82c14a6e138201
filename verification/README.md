# Telegram mini-app role backend, modelled in Dafny

The backend (a single TypeScript file, `src/index.ts`) does two things worth modelling:

- **Launch-data verification** (`verifyInitData`). The mini-app's launch payload (`initData`) is a
  query string. The verifier takes every field except `hash`, formats each as `key=value`, sorts
  the strings, joins them with line feeds and signs that *data-check string* with HMAC-SHA256
  (RFC 2104). The key is derived from the bot token. The lower-case hex digest is then compared
  with the payload's first `hash` value.
- **Role resolution** (`POST /api/get-role`). The handler rejects a missing payload and reads the
  user id from the payload's `user` JSON field. It looks the user up by that platform id
  (`telegramId`). An unknown user is created with role `"admin"` when the id equals the configured
  administrator id and `"user"` otherwise. The answer is `{ id, telegramId, role }`.

Modules:

- `StringOrder` (`string_order.dfy`): the order JavaScript's default `sort()` uses for strings.
  It gives a reference sort and proves that a sorted permutation is unique. So the result does not
  depend on the engine's sorting algorithm or on the input order.
- `Lines` (`lines.dfy`): `join` with a one-character separator, and the split that inverts it.
- `InitData` (`init_data.dfy`): the data-check string and the verifier. HMAC-SHA256, hex rendering
  and UTF-8 encoding are the three function-valued fields of a `Crypto` value. Nothing is assumed
  about them.
- `RoleEndpoint` (`role_endpoint.dfy`): the user table as a class `UserStore`. It holds a map from
  platform id to `Row(id, role)` and a counter for fresh ids. The handler is the method `GetRole`.
  It is proved equal to the function `Resolve`, and the handler's promises are stated on `Resolve`.
- `Wrappers` (`wrappers.dfy`): `Option`, standing for JavaScript's `null`/`undefined`.

The derived key follows the code at `src/index.ts:43`. That line computes HMAC-SHA256 keyed by the
bot token over an empty message. The platform's published scheme instead keys HMAC-SHA256 with
the constant `"WebAppData"` over the bot token. The model reproduces the code, and
`InitData.VerifyInitData`'s contract spells out the nested HMAC the code computes.

The signature check inside the handler is commented out (`src/index.ts:61-63`). `GetRole` and
`Resolve` therefore never consult `VerifyInitData`.

## Model

| member | source | states |
|---|---|---|
| StringOrder.Le | src/index.ts:41 | the comparison of default `sort()`: the first differing character decides, a proper prefix sorts first |
| StringOrder.LeReflexive | src/index.ts:41 | every string sorts no later than itself |
| StringOrder.LeTotal | src/index.ts:41 | any two strings are comparable in the default sort order |
| StringOrder.LeAntisymmetric | src/index.ts:41 | two strings that each sort no later than the other are equal |
| StringOrder.LeTransitive | src/index.ts:41 | the default sort order is transitive |
| StringOrder.Sort | src/index.ts:41 | the result is sorted ascending and is a permutation of the input |
| StringOrder.SortedUnique | src/index.ts:41 | two sorted sequences with the same elements (as multisets) are identical, so any correct sort gives the same array |
| StringOrder.SortIgnoresOrder | src/index.ts:38-41 | sorting two reorderings of the same strings gives the same array |
| Lines.Join | src/index.ts:42 | joining nothing gives `""`; the joined string starts with the first entry and ends with the last, with no leading or trailing separator; two or more entries put a separator in it |
| Lines.SplitJoin | src/index.ts:42 | splitting the joined string at the separator gives back the entries, when no entry contains the separator |
| InitData.FirstValue | src/index.ts:37 | `params.get('hash')`: none exactly when no pair has the key; otherwise a value of a pair with that key |
| InitData.FirstValueAt | src/index.ts:37 | the value reported is that of the earliest pair with the key |
| InitData.WithoutHash | src/index.ts:38-39 | no `hash` pair survives, and every other pair survives as often as it occurs in the input, duplicates included |
| InitData.WithoutHashAppendHash | src/index.ts:38-39 | appending a `hash` pair does not change the filtered pairs |
| InitData.FormatPairLayout | src/index.ts:40 | a formatted pair is the key, one `=`, then the value |
| InitData.FormatAll | src/index.ts:40 | one formatted string per pair, in the same order |
| InitData.FormatAllPermutation | src/index.ts:40 | formatting two reorderings of the same pairs as `key=value` yields two reorderings of the same strings |
| InitData.CheckEntries | src/index.ts:38-41 | the entries are sorted ascending and are a permutation of the `key=value` strings of the non-`hash` pairs; a string is an entry exactly when some non-`hash` input pair formats to it |
| InitData.CheckString | src/index.ts:42 | `dataCheckString`: the sorted entries joined by single line feeds; it is `""` exactly when every pair is a `hash` pair, and otherwise starts with the first entry and ends with the last, with no separator before or after |
| InitData.CheckStringLines | src/index.ts:42 | when keys and values hold no line feed, splitting the data-check string at line feeds gives the sorted entries |
| InitData.CheckStringPermutation | src/index.ts:38-42 | reordering the non-`hash` pairs, or adding, removing or changing `hash` pairs, leaves the data-check string unchanged |
| InitData.SecretKey | src/index.ts:43 | the derived key: HMAC-SHA256 keyed by the UTF-8 bot token over an empty message (not the published `"WebAppData"` derivation) |
| InitData.ExpectedHash | src/index.ts:44-47 | `computedHash`: the lower-case hex of HMAC-SHA256 keyed by the derived key over the UTF-8 data-check string |
| InitData.VerifyInitData | src/index.ts:35-49 | true exactly when the first `hash` value equals hex(HMAC(key = HMAC(key = bot token, message = ""), message = data-check string)); false when there is no `hash` field |
| InitData.SignedVerifies | src/index.ts:35-49 | a payload without a `hash` field, with the expected digest appended as `hash`, is accepted |
| InitData.VerifyPermutation | src/index.ts:37-48 | the verdict depends only on the non-`hash` pairs as a multiset and on the first `hash` value |
| InitData.VerifyIgnoresLaterHash | src/index.ts:37-48 | once a `hash` field is present, appending another `hash` pair changes neither the data-check string nor the verdict |
| RoleEndpoint.StatusCode | src/index.ts:57-99 | 200 exactly for success, 400 exactly for a missing payload, 500 exactly for the two server-side failures |
| RoleEndpoint.ErrorMessage | src/index.ts:57-99 | the `error` text: "No initData provided", "Failed to create user" or "Server error"; none on success |
| RoleEndpoint.RoleFor | src/index.ts:76 | `"admin"` exactly when the id equals the configured administrator id (never when that is unset); otherwise `"user"` |
| RoleEndpoint.UserId | src/index.ts:66-68 | a non-empty `user` field is handed to the JSON id extraction and its result is the id; a missing or empty `user` field yields no id (the `'{}'` fallback has no `id`) |
| RoleEndpoint.Present | src/index.ts:56 | the `!initData` test: the payload is present and not the empty string |
| RoleEndpoint.Resolve | src/index.ts:52-101 | BadRequest exactly for an absent or empty payload; ServerError when no id can be extracted or the lookup throws; a known user is returned as stored with the store untouched; an unknown user gets a fresh id and the role decided by the administrator id, and exactly that one record is added, unless the insert throws (CreateFailed); no failure changes the store; no existing record ever changes; the id invariant is kept |
| RoleEndpoint.ResolveIdempotent | src/index.ts:71-96 | after a successful request, any later request whose payload carries the same user id (other fields such as `auth_date` or `hash` may differ) returns the same id and role and leaves the store as it was |
| RoleEndpoint.UserStore.FindUnique | src/index.ts:71-73 | finds the record for the platform id, or none; changes nothing; reports a thrown lookup |
| RoleEndpoint.UserStore.Create | src/index.ts:79-84 | adds exactly one record under a fresh id and advances the counter; a thrown insert or an existing platform id (the unique index) leaves the store unchanged |
| RoleEndpoint.GetRole | src/index.ts:52-101 | the handler, run on the store, returns `Resolve`'s response and leaves the store in `Resolve`'s state; keeps the id invariant |

## Left out

- The bot's `/start` handler and its polling client (`src/index.ts:14`, `20-33`). They are network I/O that sends a fixed message.
- Express, `cors`, `body-parser` and `app.listen` (`src/index.ts:16-18`, `103-105`). This is HTTP plumbing. A response is modelled by `Response`, `StatusCode` and `ErrorMessage`.
- HMAC-SHA256, hex encoding and UTF-8 encoding. They are parameters (`InitData.Crypto`), not definitions. No property of SHA-256 is used or proved.
- `URLSearchParams` decoding (percent and `+` decoding). The verifier takes decoded `(key, value)` pairs. The handler gets the decoder as `Env.parseQuery`.
- `JSON.parse(user).id.toString()`. It is the parameter `Env.userIdOf`, which yields none where the code throws. The `|| '{}'` fallback is modelled directly.
- Database specifics, and faults other than "this call throws". Whether the lookup or the insert throws is an input (`Faults`). Generated ids are modelled as a counter.
- Concurrency. Requests are handled one after another. So the handler's create never meets the unique-index violation that two concurrent first requests would cause. `UserStore.Create` still refuses a duplicate platform id.
- The type of `initData`: it is modelled as absent or a string. The body is parsed JSON and the cast at `src/index.ts:54` is not checked, so a JSON number, boolean, object or array can arrive there. Such values take other paths (`0` and `false` are rejected at line 56, other numbers and `true` become query strings, an object is read by `URLSearchParams` as a record of fields); the model does not express them.
- Environment loading (`dotenv`) and `console.error` logging. The administrator id is `Env.adminId`, and none models an unset variable.
- StringOrder.Le: compares Dafny characters (Unicode code points). JavaScript compares UTF-16 code units. The two orders agree on strings inside the Basic Multilingual Plane but can differ for characters beyond it.
