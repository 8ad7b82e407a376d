# Menu administration console: stores and form validators in Dafny

This project models the logic-bearing core of a browser-only restaurant menu console.
It has two in-memory stores and the pure form validators placed in front of them.

- **Catalog store** (`menu_slice.dfy`, module `Catalog`). It holds an ordered list of menu items and an ordered list of category names. Five reducers change it: add, edit and delete an item, add and delete a category. Most of them write a snapshot of the whole state under the `menuState` storage key. The store is the class `MenuStore`. Its fields `items` and `categories` are sequences. A ghost field `persisted` is assigned exactly where the source calls `saveMenuState`. `Valid()` states the two invariants every reducer keeps:
  - `categories` has no duplicates;
  - every item's category is registered, or is `''` (an item whose category was deleted).
- **Credential store** (`auth_slice.dfy`, module `Credentials`). It holds the session (`isAuthenticated`, `currentUser`, `error`) and the user registry. Its reducers are `register`, `login`, `logout` and `clearAuthError`. The source keeps the registry only in storage and re-reads it inside `register` and `login`; `logout` and `clearAuthError` never touch it. Here the registry is the explicit field `users`. The two storage writes are the ghost fields `savedUsers` and `savedSession`. `RegistryStored()` states that `users` is what a reducer would read back: the last registry written, or empty when none was stored. The constructor establishes it and every reducer keeps it. `SessionConsistent()` states that an authenticated session has a current user. `Valid()` adds that this user is registered. Every reducer keeps both, and `login` and `logout` establish `Valid()` outright.
- **Validators** (`validation.dfy`, `validate_auth.dfy`, `validate_category.dfy`, `validate_menu.dfy`). These are the shared helpers `isBlank`, `capitalize` and `validateLength`, and the form rules `validateAuth`, `validateRegister`, `validateCategoryName` and `validateMenu`. `strings.dfy` supplies the JavaScript `length` (counted in UTF-16 code units), `trim` (the ECMAScript whitespace and line-terminator set, written out), an ASCII upper-casing and the decimal rendering of integers used in the messages (exact for magnitudes below 2^53).

Modelling choices:

- `validateLength` fills a record that its caller passes in, and returns that same record. It is a method over the class `ErrorRecord`, with `r == errors` in its contract. `validateAuth` and `validateRegister` build a fresh record, so they return a `map<string, string>`.
- `validateMenu` always returns a record with the same seven possible properties. It is modelled as the datatype `MenuErrors`, with one optional message per property (an absent key is `None`). Each property's rules, including the overwrite order, are one function.
- A menu form's fields are optional. `price` is the number the field holds; `available` is `None` unless it is a genuine boolean.
- A store's constructor takes the snapshot loaded from storage as an `Option`. `None` stands for a missing or unreadable snapshot and gives the default state. The source does not check a loaded snapshot, so the reducers have no `requires`. Each reducer states its invariant as `old(Valid()) ==> Valid()`.

Behaviour of the code worth noting:

- Every length is JavaScript's `.length`, the number of UTF-16 code units, modelled by `Strings.Utf16Length`. A character outside the Basic Multilingual Plane counts twice, so a one-emoji menu name is long enough (`MenuValidation.EmojiNameAccepted`).
- The username minimum counts the untrimmed length. Trimming only decides blankness, so `"  a"` passes.
- The name and description upper bounds (64 and 256) count the untrimmed length. The "at most" message overwrites the "required" one.
- A password of spaces only is rejected as blank.
- A duplicate `register` only sets the error: `isAuthenticated` and `currentUser` keep the values they had before the call.
- `deleteMenuItem` removes every item with the id, not just one.

## Model

| member | source | states |
|---|---|---|
| Strings.Trim | src/utils/validation.ts:2 | `trim` leaves no whitespace at either end, never lengthens, and returns `""` exactly when the string is all whitespace |
| Strings.TrimIsSlice | src/utils/validation.ts:2 | `trim` returns a slice of the input with only whitespace before and after it, so it removes a leading and a trailing whitespace run and nothing else |
| Strings.Utf16Length | src/utils/validation.ts:18 | `.length` lies between the number of characters and twice that, and is 0 exactly for `""` |
| Strings.Utf16LengthOfChar | src/utils/validation.ts:18 | a single character has `.length` 1, or 2 exactly when it lies above U+FFFF |
| Strings.Utf16LengthOfBmp | src/utils/validation.ts:18 | on text inside the Basic Multilingual Plane `.length` is the number of characters |
| Strings.Utf16LengthAppend | src/utils/validation.ts:18 | `.length` of a concatenation is the sum of the lengths |
| Strings.NatToDecimal | src/utils/validation.ts:14 | for a non-negative integer below 2^53, `${min}` is a non-empty string of digits with no leading zero except in "0" |
| Strings.NatToDecimalValue | src/utils/validation.ts:14 | for a non-negative integer below 2^53, reading back the digits that `${min}` writes gives that integer |
| Strings.IntToDecimalValue | src/utils/validation.ts:14 | for an integer of magnitude below 2^53, `${n}` is its digits, preceded by `-` exactly when it is negative, and the digits spell its magnitude |
| Strings.TrimIgnoresPadding | src/features/category/validation/validateCategory.ts:3-6 | whitespace added before and after a string never changes its trimmed value |
| Strings.ToUpperAscii | src/utils/validation.ts:4 | `a`..`z` become `A`..`Z`; every other character is unchanged |
| Validation.IsBlank | src/utils/validation.ts:2 | `isBlank` is true exactly for a missing string or one made only of whitespace, `""` included |
| Validation.Capitalize | src/utils/validation.ts:4 | `capitalize` keeps the length, upper-cases the first character, keeps the rest, and maps `""` to `""` |
| Validation.MessagesDistinct | src/utils/validation.ts:13-22 | the "required", "at least" and "at most" messages for a field are pairwise different |
| Validation.ErrorRecord.constructor | src/utils/validation.ts:11 | the default record passed to `validateLength` starts empty |
| Validation.ValidateLength | src/utils/validation.ts:6-25 | writes at most one entry, only under `field`, and returns the same record. Blank gives the "required" message and nothing else is checked. A `.length` (untrimmed, in UTF-16 code units) below `min` gives "at least". Otherwise a non-zero `max` below the length gives "at most". Otherwise the record is unchanged |
| AuthValidation.MinLengthError | src/features/auth/validation/validateAuth.ts:16-17 | `validateLength` without an upper bound produces a message exactly when the value is blank or shorter than `min`, and that message is non-empty |
| AuthValidation.AuthErrorConditions | src/features/auth/validation/validateAuth.ts:16-20 | the username entry is present iff the username is all whitespace or shorter than 3 UTF-16 code units (untrimmed); the password entry iff the password is all whitespace or shorter than 6 code units |
| AuthValidation.AuthErrorsDetermined | src/features/auth/validation/validateAuth.ts:13-23 | the per-field description of `validateAuth`'s result fixes the map uniquely |
| AuthValidation.FieldsIndependent | src/features/auth/validation/validateAuth.ts:16-20 | the username entry depends only on the username, the password entry only on the password |
| AuthValidation.ValidateAuth | src/features/auth/validation/validateAuth.ts:13-23 | the result has only `username`/`password` keys (never `confirmPassword`), each carrying `validateLength`'s message exactly when that rule fails |
| AuthValidation.ValidateRegister | src/features/auth/validation/validateAuth.ts:25-35 | without `confirmPassword` the result is `validateAuth`'s map; `confirmPassword` is "Passwords do not match" exactly when the passwords differ |
| AuthValidation.RegisterExtendsAuth | src/features/auth/validation/validateAuth.ts:28-34 | `validateRegister` equals `validateAuth` plus the confirmation entry, and equals it outright when the passwords match |
| CategoryValidation.ValidateCategoryName | src/features/category/validation/validateCategory.ts:1-8 | one message chosen in the order required, too short, too long, duplicate, all on the trimmed value; `""` exactly when the trimmed value has 2..32 UTF-16 code units and is not already a category |
| CategoryValidation.PaddingIgnored | src/features/category/validation/validateCategory.ts:3-6 | surrounding whitespace never changes the verdict: no length error and no missed duplicate because of padding |
| CategoryValidation.PaddedDuplicate | src/features/category/validation/validateCategory.ts:6 | a padded copy of an existing name (`" Drinks "` for `"Drinks"`) is reported as a duplicate |
| MenuValidation.NameError | src/features/menu/validation/validateMenu.ts:6-8 | the name entry exists iff the name is missing, under 2 UTF-16 code units trimmed or over 64 raw; over 64 reports "at most 64" even when blank |
| MenuValidation.EmojiNameAccepted | src/features/menu/validation/validateMenu.ts:6-8 | a single emoji, two UTF-16 code units, passes the name rules; a single letter is reported as required |
| MenuValidation.DescriptionError | src/features/menu/validation/validateMenu.ts:9-12 | the description entry exists iff it is missing, under 5 UTF-16 code units trimmed or over 256 raw; "at most 256" takes precedence |
| MenuValidation.IngredientsError | src/features/menu/validation/validateMenu.ts:17-23 | the ingredients entry exists iff the list is missing, empty, or has an entry made only of whitespace |
| MenuValidation.ValidateMenu | src/features/menu/validation/validateMenu.ts:3-28 | each of the seven entries is present exactly when its rule fails, with its message. Price must be present and above 0. Category must be non-empty and one of `categories`. Image must be non-empty. Availability must be a boolean. The record is empty exactly when the whole form is acceptable |
| Catalog.Registered | src/features/menu/slices/menuSlice.ts:29-31 | auto-registration appends the category iff it is absent (`''` included), otherwise keeps the list |
| Catalog.RegisteredKeepsUnique | src/features/menu/slices/menuSlice.ts:29-31 | auto-registration keeps the list free of duplicates and is idempotent |
| Catalog.IndexOfId | src/features/menu/slices/menuSlice.ts:35 | `findIndex` gives the first position with the id, or -1 exactly when no item has it |
| Catalog.WithoutId | src/features/menu/slices/menuSlice.ts:45 | filtering by id keeps exactly the items whose id differs |
| Catalog.WithoutIdAppend | src/features/menu/slices/menuSlice.ts:45 | filtering distributes over concatenation, so the kept items keep their relative order |
| Catalog.WithoutAbsentId | src/features/menu/slices/menuSlice.ts:45 | deleting an id no item has leaves the items unchanged |
| Catalog.Without | src/features/menu/slices/menuSlice.ts:55 | filtering a category keeps exactly the other names |
| Catalog.WithoutAppend | src/features/menu/slices/menuSlice.ts:55 | filtering a name distributes over concatenation, so the kept names keep their relative order |
| Catalog.WithoutAbsent | src/features/menu/slices/menuSlice.ts:55 | deleting a name that is not in the list leaves the list unchanged |
| Catalog.WithoutKeepsUnique | src/features/menu/slices/menuSlice.ts:55 | removing a name keeps the list free of duplicates |
| Catalog.ClearCategory | src/features/menu/slices/menuSlice.ts:56-58 | the cascade keeps the count and position of every item and sets category `''` exactly on the items that used the deleted name |
| Catalog.ClearCategoryEffect | src/features/menu/slices/menuSlice.ts:54-58 | after the cascade no item refers to a deleted non-empty name, ids are kept, and items that did not use it are unchanged |
| Catalog.MenuStore.constructor | src/features/menu/slices/menuSlice.ts:9-21 | the store starts from the stored snapshot, or `{items: [], categories: []}` without one, and writes nothing |
| Catalog.MenuStore.AddMenuItem | src/features/menu/slices/menuSlice.ts:27-33 | `items' == items + [item]`, the category is auto-registered, the snapshot is written, and the invariants are kept |
| Catalog.MenuStore.EditMenuItem | src/features/menu/slices/menuSlice.ts:34-43 | with the id present: the first item with it is replaced at the same index, the category is registered, and the snapshot is written. With the id absent: items, categories and snapshot are unchanged. The invariants are kept |
| Catalog.MenuStore.DeleteMenuItem | src/features/menu/slices/menuSlice.ts:44-47 | every item with the id is removed, categories are untouched, the snapshot is always written, and the invariants are kept |
| Catalog.MenuStore.AddCategory | src/features/menu/slices/menuSlice.ts:48-53 | a present name changes nothing and writes nothing; a new one is appended and written; items are untouched |
| Catalog.MenuStore.DeleteCategory | src/features/menu/slices/menuSlice.ts:54-60 | the name is filtered out, the cascade clears it from the items, the snapshot is written, and the invariants are kept |
| Credentials.FindUser | src/features/auth/slices/authSlice.ts:54-56 | `find` returns the first user with exactly this username and password, and nothing exactly when no user matches |
| Credentials.RegistryAfter | src/features/auth/slices/authSlice.ts:40-46 | a taken username leaves the registry unchanged, a new one is appended |
| Credentials.RegisterKeepsUnique | src/features/auth/slices/authSlice.ts:40-46 | one `register` keeps usernames unique |
| Credentials.RegisterAllKeepsUnique | src/features/auth/slices/authSlice.ts:38-51 | any sequence of `register` calls keeps usernames unique |
| Credentials.RegisterAllDistinct | src/features/auth/slices/authSlice.ts:38-51 | with pairwise distinct new names, the registry grows by exactly the candidates, in order, one per call |
| Credentials.RegisterTwiceRejected | src/features/auth/slices/authSlice.ts:40-44 | a second `register` of the same username leaves the registry as after the first |
| Credentials.AuthStore.constructor | src/app/store.ts:13-24 | the session starts from the stored snapshot or the signed-out default, the registry from storage or empty, so `RegistryStored()` holds; nothing is written |
| Credentials.AuthStore.Register | src/features/auth/slices/authSlice.ts:38-51 | a taken name sets only the error "Username already exists."; otherwise the user is appended (registry written) and signed in with no error. The session is written either way. Usernames stay unique, and `RegistryStored()`, `SessionConsistent()` and `Valid()` are kept |
| Credentials.AuthStore.Login | src/features/auth/slices/authSlice.ts:52-67 | authenticated iff some registered user has exactly this username and password, signed in as the first such user. Otherwise signed out with "Invalid username or password.". The registry is unchanged and the session is written |
| Credentials.AuthStore.Logout | src/features/auth/slices/authSlice.ts:68-73 | the session is `{false, null, null}` whatever it was, and is written; the registry is unchanged |
| Credentials.AuthStore.ClearAuthError | src/features/auth/slices/authSlice.ts:74-77 | only the error is cleared; the session is written; `SessionConsistent()` and `Valid()` are kept |

## Left out

- Reading and writing `localStorage` and JSON (de)serialisation: snapshots are ghost fields assigned at each write, and a load is an `Option` given to a constructor. Parse failures, quota errors and a stored value of the wrong shape are not modelled. `loadMenuFromStorage` (src/features/menu/slices/menuSlice.ts:61-65) is only such a read and is not modelled.
- The save/load round trip of a snapshot: it is a property of JSON, which is not part of this model.
- The route guard (`isAuthenticated ? children : <Navigate/>`), React components, hooks, toasts and routing: presentation, not store logic.
- `validateLogin.ts`: a React hook that no component imports, with its own rules: the username minimum counts the trimmed length, a password of six or more spaces passes, and a short value gets the "is required" message. It is presentation-side and unused, so it is not modelled.
- MenuValidation.ValidateMenu: `Number(...)`, `isNaN`, the `typeof ... === 'boolean'` test and the `Array.isArray` test are not modelled, because JavaScript number coercion is not part of this model. A price is a real number or missing, availability is a boolean or missing, and ingredients are a list of strings or missing.
- Validation.Capitalize: only ASCII letters are upper-cased, because Unicode case mapping (which can change the length) is not modelled.
- Validation.ValidateLength: `min` and `max` are integers, because fractional or NaN bounds and their JavaScript string forms are not modelled. A bound of 2^53 or more is written in the messages as its exact digits, whereas JavaScript rounds it to the nearest number and, from 10^21 on, writes it in exponent form (`1e+21`).
- Strings.NatToDecimalValue: holds for every natural number, but it is JavaScript's `${n}` only below 2^53: from there JavaScript prints the shortest digits that round-trip to the nearest number, and from 10^21 on it uses exponent form.
- Strings.IntToDecimalValue: the same limit, for magnitudes of 2^53 or more.
- Id generation (`uuidv4`), image reading (`FileReader`) and the search debounce are external collaborators of the UI and are not part of this model.
- Unpaired UTF-16 surrogates: a Dafny string holds Unicode scalar values, so a JavaScript string with a lone surrogate cannot be represented. Every other string has the same `.length` here, and trimming by characters agrees with trimming by code units because every whitespace character lies in the Basic Multilingual Plane.
- Concurrency between browser tabs: the stores are single-threaded and every reducer runs to completion.
