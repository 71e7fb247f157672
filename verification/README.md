# Weather subscription lifecycle, in Dafny

A model of the subscription lifecycle of the weather application's
`SubscriptionController`. A visitor subscribes an email address for a city's
daily weather mail, confirms it through a signed link, and may later
unsubscribe through a token link.

The model has three modules:

- `Subscriptions` (`subscriptions.dfy`) is the `subscriptions` table. It holds
  `Subscription` rows with an email, a city, an `isSubscribed` flag and an
  unsubscribe token. The table is an immutable sequence in insertion order.
  Eloquent's `where(column, value)->first()` becomes `First`, which returns
  the first index whose column equals the value exactly.
- `SubscriptionController` (`controller.dfy`) holds the three actions that
  change the table: `Subscribe`, `Unsubscribe` and `Verify`. Each is a pure
  function that returns a `Step`: the new table, the HTTP `Response` and the
  list of outbound `Effect`s.
  - A `Response` is a redirect back or to a named route carrying a flashed
    `Message` or `Error`, a validation failure, or `Unauthorized` for
    `abort(401)`.
  - An `Effect` is either the confirmation mail, which carries the
    verification link's route, lifetime, email and token, or the queued
    daily-weather job.
- `Lifecycle` (`lifecycle.dfy`) states what holds across requests:
  - the table invariant `Valid`: one row per email, one row per token, and
    every token shaped like 32 alphanumerics;
  - each action preserves `Valid`;
  - the per-email state machine `Absent`, `Pending`, `Active` and how each
    action moves through it;
  - the subscribe, confirm, unsubscribe round trip;
  - that unsubscribing is idempotent;
  - that confirming is idempotent on the table but not on the queued jobs;
  - that `Verify` never consults the token it is given.

Framework inputs become parameters:

- the validator's verdict, `valid`;
- the value `Str::random(32)` returns, `token`, which must be 32 alphanumerics
  not already stored;
- the verdict of `hasValidSignature()`, `signatureValid`.

Behaviour of the controller worth knowing:

- `Verify` never compares its token with the stored `unsubscribe_token`.
  `VerifyIgnoresToken` and `StaleLinkStillActivates` show that a link issued
  before a token rotation still confirms the email while its signature holds.
- `hasValidSignature()` is one check, so expiry and tampering both give a 401,
  modelled as `Unauthorized`.
- Confirming an unknown email still flashes the success message and redirects
  to `weather.index`.
- Emails are compared exactly. Any case folding done by the database collation
  is not modelled.

## Model

| member | source | states |
|---|---|---|
| Subscriptions.First | app/Http/Controllers/SubscriptionController.php:30 | `where(column, value)->first()` returns the index of the first row whose column equals the value, and returns nothing exactly when no row matches |
| SubscriptionController.Subscribe | app/Http/Controllers/SubscriptionController.php:18-70 | a rejected request changes nothing. An email whose first row is subscribed changes nothing, flashes "Email has already been registered." and sends no mail. A known unsubscribed email has only its row's token replaced, keeping its email, stored city and unsubscribed state; every other row is untouched. A new email gets exactly one appended `(email, city, false, token)` row. Every success flashes "Please check your email to confirm registration." and mails one link bound to the email and the token its row now holds. Every other outcome leaves the table alone and sends nothing |
| SubscriptionController.Unsubscribe | app/Http/Controllers/SubscriptionController.php:72-85 | the first row holding the token becomes unsubscribed, with its email, city and token kept and every other row untouched, and "You have successfully unsubscribed." is flashed. An unknown token changes nothing and flashes "The unsubscribe link is not valid." No effect is ever produced |
| SubscriptionController.Verify | app/Http/Controllers/SubscriptionController.php:87-107 | an invalid signature gives a 401 with no change and no job. Otherwise the first row with the email becomes subscribed, keeping its city and token, with every other row untouched and exactly one daily-weather job queued for that row. An unknown email changes nothing and queues nothing. Every signed request redirects to `weather.index` with the success message |
| Lifecycle.SubscribePreservesValid | app/Http/Controllers/SubscriptionController.php:29-51 | from a table with unique emails, unique tokens and well-formed tokens, subscribe with a fresh token keeps all three |
| Lifecycle.UnsubscribePreservesValid | app/Http/Controllers/SubscriptionController.php:74-78 | unsubscribe keeps emails unique, tokens unique and tokens well formed |
| Lifecycle.VerifyPreservesValid | app/Http/Controllers/SubscriptionController.php:93-97 | confirming keeps emails unique, tokens unique and tokens well formed |
| Lifecycle.SubscribeStatus | app/Http/Controllers/SubscriptionController.php:29-51 | after a valid subscribe, an active email stays active and an absent or pending one is pending. Every other email keeps its status |
| Lifecycle.VerifyStatus | app/Http/Controllers/SubscriptionController.php:93-101 | with a valid signature, a pending or active email becomes active and an absent one stays absent. Every other email keeps its status |
| Lifecycle.UnsubscribeStatus | app/Http/Controllers/SubscriptionController.php:74-80 | in a valid table, the owner of a known token becomes pending whatever it was before, and every other email keeps its status |
| Lifecycle.SubscribeBindsToken | app/Http/Controllers/SubscriptionController.php:39-57 | after subscribing an email that is not active, the email lookup and the token lookup find the same unsubscribed row. This is the row the mailed link names |
| Lifecycle.VerifyThenUnsubscribe | app/Http/Controllers/SubscriptionController.php:74-101 | when one pending row is the first match for both the email and the token, confirming queues one job for the activated row, and unsubscribing with that token succeeds and restores the table exactly |
| Lifecycle.SubscribeVerifyUnsubscribe | app/Http/Controllers/SubscriptionController.php:39-101 | subscribe a non-active email, then confirm it, then unsubscribe with the issued token. Subscribe succeeds, mails the link for (email, token) and leaves the email pending. Confirming makes it active and queues exactly one job for that email. Unsubscribing succeeds, leaves the email pending and gives back the table exactly as subscribe left it |
| Lifecycle.SubscribePending | app/Http/Controllers/SubscriptionController.php:39-42 | subscribing a pending email in a valid table succeeds, keeps the table valid, and leaves a single row for the email, which holds the new token |
| Lifecycle.ResubscribeRotatesToken | app/Http/Controllers/SubscriptionController.php:39-51 | subscribing twice before confirming succeeds both times and keeps the table valid. The second token replaces the first, so the first token no longer names any row, and exactly one row holds the email |
| Lifecycle.RotationRetiresToken | app/Http/Controllers/SubscriptionController.php:39-42 | in a table whose tokens are unique, re-subscribing a pending email removes that row's previous token from the table, so an unsubscribe link built from it no longer matches any row |
| Lifecycle.UnsubscribeIdempotent | app/Http/Controllers/SubscriptionController.php:74-80 | a second unsubscribe with the same token gives the same table and the same response as the first, so a reused link is a harmless success |
| Lifecycle.VerifyTwice | app/Http/Controllers/SubscriptionController.php:93-101 | confirming a known email twice leaves the table as one confirmation does, but queues a daily-weather job each time |
| Lifecycle.VerifyIgnoresToken | app/Http/Controllers/SubscriptionController.php:87-106 | the outcome of confirmation does not depend on the token in the link |
| Lifecycle.StaleLinkStillActivates | app/Http/Controllers/SubscriptionController.php:87-101 | after a token rotation, a still-signed link carrying the old token activates the email, whose row now holds the new token |

## Left out

- `showSubscriptionForm` only renders a view.
- The `required|email` and `required|string` validation rules are framework
  validators. The model takes their verdict as the `valid` parameter, and a
  rejected request changes nothing. Email syntax is not modelled. A request
  that passes is required to have a non-empty email and city.
- `Str::random(32)` is a framework random source. The token is a parameter
  that must be 32 alphanumerics and must not already be stored. The chance of
  a collision is therefore not modelled.
- `URL::temporarySignedRoute` and `hasValidSignature()` use an HMAC and the
  wall clock. The link is modelled by the parameters it embeds plus its
  60-minute lifetime, and checking a signature is a boolean input. Expiry and
  tampering are not modelled separately.
- `Mail::send` is outbound I/O. It appears only as a `SendConfirmation`
  effect. The mail view name is not carried.
- `SendDailyWeatherEmail::dispatch` belongs to the job queue and its worker.
  It appears only as a `DispatchDailyWeather` effect.
- `session()->flash`, `back()` and `redirect()->route()` are HTTP and session
  plumbing. They appear only through `Response`.
- Eloquent persistence is left out: database collation, row order other than
  insertion order, and storage failures.
- Races between concurrent requests are left out. The model is sequential.
- An exception from `Mail::send` or from the job dispatch is not modelled.
  The source has already saved the row by then (lines 42 and 46 before the
  mail at line 60; line 97 before the dispatch at line 100), so in the
  program the table changes and the request ends in an error without a
  flash. The model's `Subscribe` and `Verify` have no such outcome.
- Lifecycle.UnsubscribeStatus: assumes a valid table, because when two rows
  share an email, the row a token names may not be the one the email lookup
  finds.
