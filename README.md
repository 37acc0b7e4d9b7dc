# Admin panel session gate and product form, in Dafny

This project models the stateful logic of a small React admin panel for an
e-commerce catalogue and proves properties of that model. There are three parts.

- **The session gate** (`src/utils/auth.js`, used by
  `src/components/PrivateRoute.jsx`). `setAuth` stores a token and an absolute
  expiry, now plus five minutes, in `localStorage`. `checkAuth` accepts the
  session while the expiry has not passed. It clears the token and the expiry
  as soon as it sees that the expiry has passed. `PrivateRoute` shows its
  children only when `checkAuth()` holds, and otherwise redirects to `/login`.
- **The app-level login flag** (`src/App.js`). A boolean `isAuthenticated`
  starts out false. The login page sets it and the Logout button clears it. It
  alone decides whether `/` shows the product list and whether the AppBar is
  drawn.
- **The product form** (`src/components/Products/AddProductModal.jsx`). It
  holds the product being added or edited, a list of image-URL fields kept in
  step with the space-joined `imageUrl` field, a required-field validator, and
  the choice between adding and updating on submit.

Files:

- `wrappers.dfy`: `Option`, which stands for `null`/`undefined` and for NaN.
- `js_strings.dfy`: `trim`, `split(' ')`, `join(' ')` and filtering by index.
- `js_numbers.dfy`: `parseInt` and the decimal form of a number.
- `auth.dfy`: the storage object, `CheckAuth`, `SetAuth`, and lemmas about
  runs of checks.
- `router.dfy`: the route result, a redirect or the children, and how a
  path matches a route.
- `private_route.dfy`: `PrivateRoute`.
- `app.dfy`: the `App` state, its routes, and replaying its events.
- `add_product_modal.dfy`: the form state class.

How the environment is modelled:

- `localStorage` is an object whose one field is a `map<string, string>`.
- The wall clock (`new Date().getTime()`) is a `nat` parameter `now`, in
  milliseconds.
- The callbacks `handleAdd` and `handleUpdate` become the value that
  `HandleSubmit` returns. It names which callback would run and with what.
- The `editProduct` prop is an argument of the load effect.

Points where the code's behaviour is easy to misread:

- A session is still valid at the exact millisecond of its expiry, because
  the test is `now > parseInt(expiry)` (src/utils/auth.js:9).
- `parseInt` reads a leading number after optional whitespace and one sign,
  so `" 12"` and `"+7"` are numbers. An expiry with no digit at that point,
  or with `0x` followed by no hex digit, parses to NaN. Every comparison with
  NaN is false, so such a session never expires (src/utils/auth.js:9).
- `handleLogout` only clears the flag and does not touch storage
  (src/App.js:14-16).
- `App.js` guards `/` with its own flag and never calls `checkAuth`
  (src/App.js:18-23). `App.StaleLoginStillShowsHome` shows the consequence: a
  logged-in app keeps showing `/` after the stored session has expired, while
  `PrivateRoute` would redirect.
- The redirect in `App.js` has no `replace` (src/App.js:20); the one in
  `PrivateRoute` has it (src/components/PrivateRoute.jsx:6).
- Route paths match up to case and trailing slashes, so `/LOGIN/` reaches the
  login page and `//` the guarded route (src/App.js:42-44).

## Model

| member | source | states |
|---|---|---|
| Auth.CheckAuth | src/utils/auth.js:1-16 | Returns false and changes nothing when the token or the expiry is missing or empty. Returns false and removes exactly those two keys when `now` is past the parsed expiry. Otherwise returns true and changes nothing. |
| Auth.SetAuth | src/utils/auth.js:18-22 | Afterwards the store is `AfterSetAuth` of the old store: the token, the expiry `now + 300000` as a decimal string, and every other key unchanged. |
| Auth.AfterCheck | src/utils/auth.js:9-13 | The store after a check only loses keys and keeps the values it has. Every key other than the two session keys survives. It loses its session exactly when that session had expired. Otherwise it is unchanged. |
| Auth.AfterSetAuth | src/utils/auth.js:18-22 | Adds exactly the two session keys. The token is the one given, the expiry is the decimal form of `now + 300000`, and all other keys keep their values. |
| Auth.SetAuthThenCheck | src/utils/auth.js:9-21 | With a non-empty token written at `t`, a check at `now` succeeds exactly when `now <= t + 300000`, and it clears the session exactly when `now > t + 300000`. |
| Auth.ValidAtExpiryInstant | src/utils/auth.js:9 | The session is still valid at exactly `t + 300000` and invalid one millisecond later. |
| Auth.EmptyTokenNeverValid | src/utils/auth.js:5 | After `setAuth('')`, no check succeeds. |
| Auth.GarbledExpiryNeverExpires | src/utils/auth.js:9 | If the expiry parses to NaN, the session is valid at every time and nothing is cleared. |
| Auth.NoSessionStaysInvalid | src/utils/auth.js:2-7 | Without a session, any run of checks fails every time and leaves the store unchanged. |
| Auth.ExpiryIsFinal | src/utils/auth.js:9-12 | After a check fails because the session expired, every later check fails too, as long as `setAuth` is not called. |
| Auth.NoSlidingRenewal | src/utils/auth.js:9-15 | Checks made before the deadline all succeed and leave the store exactly as it was, so the expiry is absolute. |
| Auth.SessionLastsFiveMinutes | src/utils/auth.js:18-22 | After `setAuth` at `t`, every run of checks at times up to `t + 300000` succeeds and keeps the session that was written. |
| JsNumbers.ParseInt | src/utils/auth.js:9 | A string with no decimal digit anywhere parses to NaN (`None`). |
| JsNumbers.ParseIntNaN | src/utils/auth.js:9 | After the leading whitespace and at most one sign, if the next character is not a decimal digit, or a `0x`/`0X` prefix is followed by no hex digit, the result is NaN. |
| JsNumbers.ParseIntNaNExamples | src/utils/auth.js:9 | `"x1"`, `"abc123"`, `"0x"` and `"0xg"` parse to NaN, even where digits come later. |
| JsNumbers.ParseIntLeadingDigits | src/utils/auth.js:9 | A non-empty run of decimal digits, not read as a `0x` prefix, followed by nothing or by a non-digit, parses to the value of that run. |
| JsNumbers.DigitRunOfPrefix | src/utils/auth.js:9 | The digit run read from `ds + rest` is exactly `ds` when `rest` does not start with a digit. |
| JsNumbers.ParseIntSkipsWhitespace | src/utils/auth.js:9 | `" 12"` parses to 12. |
| JsNumbers.ParseIntSkipsSign | src/utils/auth.js:9 | `"+7"` parses to 7. |
| JsNumbers.ParseIntReadsHex | src/utils/auth.js:9 | `"-0x1F"` parses to -31. |
| JsNumbers.ParseIntStopsAtNonDigit | src/utils/auth.js:9 | `"10px"` parses to 10. |
| JsNumbers.NatToString | src/utils/auth.js:21 | The stored expiry is a non-empty string of decimal digits with no leading zero. |
| JsNumbers.ParseIntOfNatToString | src/utils/auth.js:9-21 | `parseInt(String(n)) == n` for every `n >= 0`. |
| JsNumbers.DigitsValueOfNatToString | src/utils/auth.js:21 | The digits written for `n` are worth `n`. |
| PrivateRoute.PrivateRoute | src/components/PrivateRoute.jsx:4-10 | Redirects to `/login` with `replace` exactly when not authenticated, otherwise returns the children unchanged, whatever they are. |
| PrivateRoute.EvaluatePrivateRoute | src/components/PrivateRoute.jsx:5-9 | One evaluation runs `checkAuth` once. The result is the guard applied to the check's answer, and the store is left as the check leaves it, so an expired session is cleared. |
| PrivateRoute.RedirectsAfterExpiry | src/components/PrivateRoute.jsx:5-6 | Once an evaluation redirects because of expiry, every later evaluation redirects, until `setAuth` is called again. |
| PrivateRoute.ShownForFiveMinutes | src/components/PrivateRoute.jsx:5-9 | After `setAuth` at `t`, the guard shows the children up to `t + 300000` and redirects after that. |
| App.AppState.constructor | src/App.js:8 | A fresh app is not authenticated. |
| App.AppState.HandleLogin | src/App.js:10-12 | Sets `isAuthenticated` to true. |
| App.AppState.HandleLogout | src/App.js:14-16 | Sets `isAuthenticated` to false. Its frame is the app object alone, so storage is untouched. |
| App.AppState.ProtectedRoute | src/App.js:18-23 | Redirects to `/login`, without `replace`, exactly when not authenticated, and otherwise returns the children. |
| App.AppState.Render | src/App.js:25-56 | The AppBar is shown exactly when authenticated. A path matching `/` shows the protected route, a path matching `/login` shows the login page, and a path matching neither renders no page. Matching ignores case and trailing slashes. |
| App.RouteExamples | src/App.js:42-44 | `/LOGIN/` shows the login page, `//` the guarded route, and `/login/x` no page. |
| Router.Lower | src/App.js:42-44 | Lower-casing keeps the length and lower-cases each ASCII letter, leaving every other character alone. |
| Router.StripTrailingSlashes | src/App.js:42-44 | The result is a prefix of the path, only slashes were removed, and it does not end in a slash. |
| Router.RouteMatchesIffRegex | src/App.js:42-44 | A path matches a route exactly when its lower-cased form is the route's pattern followed by slashes only, which is the anchored, case-insensitive pattern react-router compiles. |
| App.ReplayIffLoggedIn | src/App.js:8-16 | After any run of logins, logouts and visits, `isAuthenticated` holds exactly when some login was not followed by a logout. Visits at any time change nothing. |
| App.StaysLoggedInUntilLogout | src/App.js:42-49 | After a login, `/` stays accessible through any number of visits at any times until a logout. |
| App.StaleLoginStillShowsHome | src/App.js:18-23 | A logged-in app shows `/` with the AppBar although the stored session has expired, and `PrivateRoute` redirects on the same storage. |
| AddProductModal.ProductForm.constructor | src/components/Products/AddProductModal.jsx:28-67 | Mounting the modal gives no errors and the loaded product and URL fields. There is at least one URL field, and `imageUrl` is their join. |
| AddProductModal.ProductForm.OnEditProductChange | src/components/Products/AddProductModal.jsx:43-67 | With an `editProduct`, copies its six fields with falsy values defaulted to `''`, keeps its id, and splits its `imageUrl` into URL fields. Without one, resets to the blank product and `['']`. The URL list is never empty and is in step with `imageUrl`. |
| AddProductModal.LoadedUrls | src/components/Products/AddProductModal.jsx:45 | The loaded URL list is never empty, no field holds a space, and its join is the loaded `imageUrl`. |
| AddProductModal.LoadRoundTrip | src/components/Products/AddProductModal.jsx:45-53 | Loading an `imageUrl` that is the space-join of a non-empty list of space-free URLs gives that list back. |
| AddProductModal.ProductForm.ValidateForm | src/components/Products/AddProductModal.jsx:69-80 | `errors` becomes exactly the set of failing fields, and the result is true exactly when that set is empty. |
| AddProductModal.PassesIff | src/components/Products/AddProductModal.jsx:71-76 | A product passes exactly when name, description, categories and image URL each contain a non-whitespace character, and price and stock are truthy. An empty price fails, and so does a stock of `0` or `''`. |
| AddProductModal.ProductForm.HandleImageUrlChange | src/components/Products/AddProductModal.jsx:82-87 | Keeps the length and sets field `index` to `value`. Every other field is unchanged, and `product.imageUrl` becomes the join of the new list. |
| AddProductModal.ProductForm.RemoveImageUrl | src/components/Products/AddProductModal.jsx:89-93 | An index in range removes that one field and keeps the rest in order; an index past the end changes nothing. `product.imageUrl` is re-joined, and the list stays non-empty. |
| AddProductModal.ProductForm.AddImageUrl | src/components/Products/AddProductModal.jsx:96-98 | Appends exactly one `''` and leaves `product` alone. If the fields were in step with `imageUrl`, their join is now `imageUrl + ' '`. |
| AddProductModal.ProductForm.HandleSubmit | src/components/Products/AddProductModal.jsx:100-108 | No callback runs when validation fails. Otherwise exactly one runs, with the current product: `handleUpdate` when editing, `handleAdd` when not. |
| JsStrings.Split | src/components/Products/AddProductModal.jsx:45 | `split(' ')` returns at least one piece, and no piece contains a space. |
| JsStrings.SplitJoin | src/components/Products/AddProductModal.jsx:45-86 | Splitting the space-join of a non-empty list of space-free strings gives the list back. |
| JsStrings.JoinSplit | src/components/Products/AddProductModal.jsx:45-53 | Joining the pieces of any split gives the original string back. |
| JsStrings.JoinAppendEmpty | src/components/Products/AddProductModal.jsx:96-98 | Appending `''` to a non-empty list adds one trailing space to its join. |
| JsStrings.WithoutIndexIsSlices | src/components/Products/AddProductModal.jsx:90 | Filtering out an index in range gives `xs[..i] + xs[i+1..]`, and an index out of range gives `xs` unchanged. |
| JsStrings.BlankIffAllWhitespace | src/components/Products/AddProductModal.jsx:71-76 | `!s.trim()` holds exactly when every character of `s` is whitespace. |
| JsStrings.TrimStartDropsLeadingWhitespace | src/components/Products/AddProductModal.jsx:71 | Trimming the start removes a whitespace prefix, and all of it. |
| JsStrings.TrimEndDropsTrailingWhitespace | src/components/Products/AddProductModal.jsx:71 | Trimming the end removes a whitespace suffix, and all of it. |

## Left out

- HTTP calls to the product, login and settings endpoints. They go to an external API that is not part of this model.
- The password digest (`md5`) used by the login pages. It is a foreign library call.
- The login pages' own session writes (`src/components/Login/Login.jsx`, `src/components/Auth/Login.jsx`). They repeat `setAuth`, add a `userData` key, and run inside network callbacks.
- Product list and settings components: copying `image` and `imageUrl` fields, defaulting settings to `''`, and checking fetch responses. These are glue around REST calls.
- Rendering: JSX and MUI layout, the Snackbar alert, the modal's open/close, the rich-text editor.
- Timers: the 1500 ms `setTimeout` after submit is not modelled. Its callback closes the modal and resets `product` and `errors`. It does not reset `imageUrls`.
- The `onChange` handlers of the name, description, categories, price and stock inputs. Each only overwrites one field of `product`. Stock's `Math.floor(Number(...))` is floating point, so stock enters the model already parsed, as a number or NaN.
- React state updates are applied at once. Batching and asynchronous re-rendering are not modelled.
- App.AppState.Render: case is ignored for ASCII letters only; the Unicode case folding of a case-insensitive regular expression is not modelled. Percent-decoding of the path is not modelled either.
- Numeric form fields hold a `real` (`Number` in `AddProductModal.FieldValue`), so `Infinity` and `-0` are not represented.
- JsStrings.IsWhitespace: the whitespace that `trim` and `parseInt` skip is a fixed six-character set, not JavaScript's full Unicode set.
- JsNumbers.ParseInt: values are unbounded integers. Double-precision rounding of long digit runs is not modelled, and neither is the exponent form `String` uses from 1e21 up.
- AddProductModal.ProductForm.HandleImageUrlChange: requires `index` in range. Its only callers are the per-field inputs, each of which passes its own index. Writing past the end of a JavaScript array is not modelled.
- AddProductModal.ProductForm.RemoveImageUrl: requires `index > 0`. The remove button is only rendered for fields after the first (src/components/Products/AddProductModal.jsx:184). The precondition is what keeps the list non-empty.
