# Coach login code and session flag, modelled in Dafny

This project models the coach authentication module (`auth.js`) of a small
booking site for a fitness class. The module keeps three string values in the
browser's `localStorage`:

- `coachLoginCode` is a pending one-time login code.
- `coachLoginExpires` is that code's expiry, in milliseconds since the epoch, written as a decimal string.
- `isCoachLoggedIn` is the session flag. It holds `"true"` or is absent.

`setPendingLoginCode` issues a code. `validateLoginCode` checks an entered code in a fixed order:

1. no usable code;
2. expired, which also clears the code;
3. incorrect;
4. accepted.

`markLoggedIn` sets the flag and clears the code. `logout` removes the flag. Every storage access goes through
`safeGetItem`, `safeSetItem` or `safeRemoveItem`. These turn a thrown exception into a missing value or
a no-op.

Layout:

- `wrappers.dfy` (`Wrappers`): `Option`. `None` is JavaScript's `null` / `undefined`.
- `js_number.dfy` (`JsNumber`): the two JavaScript conversions the module uses.
  - `Number.parseInt(text, 10)` is `ParseInt`. `None` stands for NaN.
  - `String(n)` for an integral number is `IntToString`.
  - The lemmas say that `parseInt` reads back what `String` wrote, skips leading white space, and gives NaN for text without digits.
- `web_storage.dfy` (`WebStorage`): the store as a value (`Store`) and as the shared mutable object (`LocalStorage`).
  - The store is a `map<string, string>` with two flags.
  - When `accessible` is false, every access throws (storage disabled or access denied).
  - When `full` is true, every `setItem` throws (quota exceeded), while reads and removals still work.
- `coach_auth.dfy` (`CoachAuth`): the module's operations.
  - Read-only queries are functions of the store's value: `SafeGetItem`, `GetPendingLoginCode`, `IsLoggedIn`.
  - Each writing operation is a module-level method of `CoachAuth` with the source's name; it takes the `LocalStorage` object as its parameter `st` and modifies it.
  - Each such method is proved to leave the store equal to a function of its old value: `Cleared`, `MarkedLoggedIn`, `LoggedOut`, `WithPendingCode`, `Validate`.
  - The current time `now` is a parameter.
- `coach_auth_properties.dfy` (`CoachAuthProperties`): lemmas relating several calls.
  - An issued code is accepted up to and including its expiry instant.
  - One millisecond later it is expired and cleared.
  - A mismatch keeps the code.
  - What `markLoggedIn` and `logout` do.
  - What unusable storage does.

Facts about `auth.js` that the model makes explicit:

- The error strings are the French messages of `auth.js:94`, `auth.js:99` and `auth.js:103`.
- When the writes of `setPendingLoginCode` throw for quota, an earlier pending code stays in place.
  - Validation then compares against that older code (`FullStorageKeepsPreviousCode`).
- `setPendingLoginCode("")` stores an empty code.
  - `!savedCode` treats it as no code (`EmptyCodeMeansNoCode`).
  - So only a non-empty code is ever accepted (`SetThenValidateSucceeds`).

## Model

| member | source | states |
|---|---|---|
| JsNumber.ParseIntOfIntToString | auth.js:118 | `parseInt` of `String(n)` is `n`, also with non-digit text after it, so the stored expiry is read back exactly |
| JsNumber.ParseIntSkipsWhiteSpace | auth.js:63 | leading white space and line terminators do not change what `parseInt(raw, 10)` reads |
| JsNumber.ParseIntWithoutDigits | auth.js:63 | a stored expiry without any decimal digit parses as NaN |
| JsNumber.NatToString | auth.js:118 | `String` of a non-negative integer is a non-empty digit string, with no leading zero, whose value is the integer |
| JsNumber.IntToString | auth.js:118 | `String(n)` is non-empty and starts with `-` exactly for negative `n` |
| CoachAuth.KeysDistinct | auth.js:27-34 | the three storage keys are pairwise different, so each operation's writes stay on its own keys |
| CoachAuth.SafeGetItem | auth.js:36-42 | a read yields a value exactly when storage is accessible and holds the key, and then it is the stored value |
| CoachAuth.SafeSet | auth.js:44-50 | a write is seen by the next read of that key when storage is writable; other keys read the same; a throwing write leaves the store as it was |
| CoachAuth.SafeSetItem | auth.js:44-50 | the storage object afterwards is `SafeSet` of its old value; nothing escapes the catch |
| CoachAuth.SafeRemove | auth.js:52-58 | after a removal the key reads as absent; other keys read the same; inaccessible storage is left as it was |
| CoachAuth.SafeRemoveItem | auth.js:52-58 | the storage object afterwards is `SafeRemove` of its old value |
| CoachAuth.ExpiresAt | auth.js:62-63 | a missing or empty expiry is 0; otherwise the parsed integer, with NaN as 0 |
| CoachAuth.GetPendingLoginCode | auth.js:60-65 | the saved code is what a safe read of `coachLoginCode` yields; a missing expiry and inaccessible storage give expiry 0 |
| CoachAuth.IsLoggedIn | auth.js:81-83 | true exactly when storage is readable and `isCoachLoggedIn` holds `"true"` |
| CoachAuth.Cleared | auth.js:67-70 | no code and expiry 0 are pending afterwards, both keys are gone on accessible storage, every other key and the session flag read as before |
| CoachAuth.ClearPendingLoginCode | auth.js:67-70 | the storage object afterwards is `Cleared` of its old value |
| CoachAuth.MarkedLoggedIn | auth.js:72-75 | on writable storage the flag holds `"true"` afterwards; on full storage the flag entry is as it was; no code pending and both code keys gone on accessible storage; all other keys unchanged; logged in exactly when storage was writable or the coach was already logged in |
| CoachAuth.MarkLoggedIn | auth.js:72-75 | the storage object afterwards is `MarkedLoggedIn` of its old value |
| CoachAuth.LoggedOut | auth.js:77-79 | logged out afterwards, the pending code is unchanged and only `isCoachLoggedIn` is removed |
| CoachAuth.Logout | auth.js:77-79 | the storage object afterwards is `LoggedOut` of its old value |
| CoachAuth.Ttl | auth.js:116 | a lifetime that is not a finite number becomes 600000 ms; a finite one is kept |
| CoachAuth.WithPendingCode | auth.js:115-119 | on writable storage the code key holds the new code and the expiry key holds `String(now + ttl)`, overwriting both; nothing else changes; a failing write changes nothing |
| CoachAuth.SetPendingLoginCode | auth.js:115-119 | the storage object afterwards is `WithPendingCode` of its old value |
| CoachAuth.InputText | auth.js:102 | a missing input compares as the empty string, a string input as itself |
| CoachAuth.Decide | auth.js:93-106 | each of the four outcomes happens exactly under its condition in the source's order: no usable code, then strictly past expiry, then mismatch, else accepted |
| CoachAuth.Validate | auth.js:89-107 | the result is one of the four `{ ok, error }` objects, `ok` exactly when `error` is empty, and only the expired outcome changes the store, by clearing the code |
| CoachAuth.ValidateLoginCode | auth.js:89-107 | the returned object and the storage object afterwards are those `Validate` gives for the old store |
| CoachAuthProperties.ExpiresAtOfIntToString | auth.js:62-63 | an expiry written as `String(n)` is read back as `n` |
| CoachAuthProperties.PendingAfterSet | auth.js:115-119 | on writable storage the pending code read back after `setPendingLoginCode` is exactly the code and `now + ttl` |
| CoachAuthProperties.SetThenValidateSucceeds | auth.js:97-106 | a non-empty code with a non-zero expiry is accepted at every instant up to and including the expiry, and accepting changes nothing |
| CoachAuthProperties.ExpiredCodeIsCleared | auth.js:97-100 | a usable code validated strictly after its expiry reports "expired" and is cleared, and every later validation reports "no code" |
| CoachAuthProperties.SetThenExpire | auth.js:115-119 | a code just issued and validated one instant past its expiry reports "expired", then "no code" |
| CoachAuthProperties.NoCodeExactlyWhenUnusable | auth.js:93-95 | "no code" is reported exactly when the code is missing or empty or the expiry is 0, and then the store is untouched even past the expiry |
| CoachAuthProperties.UnusableExpiryMeansNoCode | auth.js:60-65 | a missing, digit-free or `"0"` expiry gives "no code" and leaves the store as it was |
| CoachAuthProperties.EmptyCodeMeansNoCode | auth.js:117 | after `setPendingLoginCode("")` validation reports "no code" |
| CoachAuthProperties.MismatchKeepsCode | auth.js:102-104 | a wrong input before the expiry is "incorrect", the store is untouched and the right code is still accepted later up to the expiry |
| CoachAuthProperties.MissingInputNeverMatches | auth.js:102 | a missing or empty input is never accepted while a usable code is pending |
| CoachAuthProperties.AcceptsExactly | auth.js:89-107 | validation accepts exactly a non-empty input equal to the stored code while the expiry is non-zero and not passed |
| CoachAuthProperties.MarkLoggedInThenValidate | auth.js:72-75 | after `markLoggedIn` on writable storage the coach is logged in and validation reports "no code" |
| CoachAuthProperties.LogoutIdempotent | auth.js:77-79 | `logout` twice equals `logout` once, leaves the coach logged out, and does not change the validation outcome |
| CoachAuthProperties.UnavailableStorage | auth.js:36-58 | with storage that throws on every access nobody is logged in, validation reports "no code", and every operation leaves the store as it was |
| CoachAuthProperties.FullStorageKeepsPreviousCode | auth.js:44-50 | when writes throw, issuing a code writes nothing and validation is as before; `markLoggedIn` does not log in but still clears the code |
| CoachAuthProperties.FreshStoreHasNoCode | auth.js:93-95 | a store that never held a code reports "no code" and stays as it is |
| CoachAuthProperties.LoginCycle | auth.js:72-119 | code `"482913"` issued at `t0` for ten minutes is accepted one second later; `markLoggedIn` logs in and `logout` logs out |

## Left out

- `requestPasswordReset` (`auth.js:125-137`) is left out. It is an asynchronous placeholder that always throws "Not implemented" and refers to external services.
- The `window.CoachAuth` export and `Object.freeze` (`auth.js:139-149`) are left out. They are packaging with no behaviour.
- `Date.now()` is left out. The current time is the parameter `now`.
- `script.js` is not part of this model. It is view code that reads and writes `isCoachLoggedIn` directly with the same key and values.
- Concurrency is left out: several tabs sharing one store, and a torn update between the two writes of `setPendingLoginCode`. The model is sequential.
- Quota failure is all or nothing: `full` makes every `setItem` throw. A quota failure that hits only the second write of `setPendingLoginCode` is not modelled.
- Numbers are mathematical integers. Left out with them are floating-point rounding above 2^53, the exponent form `String` uses from 1e21 on, `parseInt` overflowing to Infinity on very long digit strings, and non-integral lifetimes such as `1.5`.
- SetPendingLoginCode takes the code as a string. The `String(code)` coercion of other values is not modelled. For example, a missing code is stored as `"undefined"`.
- ValidateLoginCode takes the input as a string or `None`. Non-string inputs are not modelled. For example, `String(0 || "")` is `""`.
- Strings are sequences of Unicode scalar values, while JavaScript strings are UTF-16 code units.
