/**
 The three state-changing actions of `SubscriptionController` as pure
 transitions: each takes the table and the request and returns the new table,
 the HTTP response (a redirect carrying a flash message, or an abort) and the
 outbound effects (confirmation mail, queued daily-weather job).

 Inputs that come from the framework are parameters: whether the request
 passed validation, the random token `Str::random(32)` would produce, and
 whether the signed verification URL carries a valid signature.
 */
module SubscriptionController {
  import opened Subscriptions

  const TokenLength := 32
  const LinkLifetimeMinutes := 60
  const VerifyRoute := "verify.subscription"
  const IndexRoute := "weather.index"
  const ConfirmationSubject := "Confirm your registration."

  const AlreadyRegistered := "Email has already been registered."
  const CheckYourEmail := "Please check your email to confirm registration."
  const UnsubscribedMessage := "You have successfully unsubscribed."
  const InvalidUnsubscribeLink := "The unsubscribe link is not valid."
  const VerifiedMessage := "Xác nhận đăng ký thành công."

  /** The alphabet `Str::random` draws from. */
  predicate IsAlphaNum(ch: char)
  {
    ('a' <= ch <= 'z') || ('A' <= ch <= 'Z') || ('0' <= ch <= '9')
  }

  /** The shape of a token from `Str::random(32)`. */
  predicate IsRandomToken(t: string)
  {
    |t| == TokenLength && forall k | 0 <= k < |t| :: IsAlphaNum(t[k])
  }

  /** A token the random source may hand out: well formed and not yet stored. */
  predicate FreshToken(s: Store, t: string)
  {
    IsRandomToken(t) && !Occurs(s, UnsubscribeToken, t)
  }

  /** The parameters a temporary signed route embeds; the signature itself is not modelled. */
  datatype VerifyLink = VerifyLink(route: string, lifetimeMinutes: nat, email: string, token: string)

  datatype Effect =
    | SendConfirmation(to: string, subject: string, link: VerifyLink)
    | DispatchDailyWeather(subscription: Subscription)

  datatype Flash = Message(text: string) | Error(text: string)

  datatype Response =
    | Back(flash: Flash)                        // back() with a flashed message
    | RedirectTo(route: string, flash: Flash)   // redirect()->route(...) with a flashed message
    | ValidationFailed                          // the request validator rejected the input
    | Unauthorized                              // abort(401)

  /** The outcome of one request. */
  datatype Step = Step(store: Store, response: Response, effects: seq<Effect>)

  /** The confirmation mail `subscribe` sends for (email, token). */
  function Confirmation(email: string, token: string): Effect
  {
    SendConfirmation(email, ConfirmationSubject, VerifyLink(VerifyRoute, LinkLifetimeMinutes, email, token))
  }

  /**
   POST /subscribe. `valid` is the verdict of the `required|email` and
   `required|string` rules; `token` is the value `Str::random(32)` returns.
   */
  function Subscribe(s: Store, email: string, city: string, valid: bool, token: string): (o: Step)
    requires valid ==> email != [] && city != []
    requires FreshToken(s, token)
    // A rejected request changes nothing.
    ensures !valid ==> o == Step(s, ValidationFailed, [])
    // Already subscribed: nothing changes, an error is flashed, no mail.
    ensures valid ==> forall i | IsFirst(s, Email, email, i) && s[i].isSubscribed ::
      o == Step(s, Back(Error(AlreadyRegistered)), [])
    // Known but unconfirmed: only that row's token is replaced; its email, city and state stay.
    ensures valid ==> forall i | IsFirst(s, Email, email, i) && !s[i].isSubscribed ::
      && |o.store| == |s|
      && o.store[i] == Subscription(email, s[i].city, false, token)
      && (forall j | 0 <= j < |s| && j != i :: o.store[j] == s[j])
      && o.response == Back(Message(CheckYourEmail))
    // Unknown email: exactly one unconfirmed row is appended.
    ensures valid && !Occurs(s, Email, email) ==>
      && |o.store| == |s| + 1
      && o.store[..|s|] == s
      && o.store[|s|] == Subscription(email, city, false, token)
      && o.response == Back(Message(CheckYourEmail))
    // Every success mails a link bound to the email and to the token its row now holds.
    ensures o.response == Back(Message(CheckYourEmail)) ==>
      && o.effects == [Confirmation(email, token)]
      && exists i :: IsFirst(o.store, Email, email, i)
                     && o.store[i].unsubscribeToken == token && !o.store[i].isSubscribed
    // Every other outcome leaves the table alone and sends nothing.
    ensures o.response != Back(Message(CheckYourEmail)) ==> o.store == s && o.effects == []
  {
    if !valid then Step(s, ValidationFailed, [])
    else
      match First(s, Email, email)
      case Some(i) =>
        if s[i].isSubscribed then
          Step(s, Back(Error(AlreadyRegistered)), [])
        else
          var s' := s[i := s[i].(unsubscribeToken := token)];
          assert IsFirst(s', Email, email, i);
          Step(s', Back(Message(CheckYourEmail)), [Confirmation(email, token)])
      case None =>
        var s' := s + [Subscription(email, city, false, token)];
        assert IsFirst(s', Email, email, |s|);
        Step(s', Back(Message(CheckYourEmail)), [Confirmation(email, token)])
  }

  /** GET /unsubscribe/{token}. */
  function Unsubscribe(s: Store, token: string): (o: Step)
    // The first row holding the token is switched off; nothing else changes.
    ensures forall i | IsFirst(s, UnsubscribeToken, token, i) ::
      && |o.store| == |s|
      && o.store[i] == Subscription(s[i].email, s[i].city, false, token)
      && (forall j | 0 <= j < |s| && j != i :: o.store[j] == s[j])
      && o.response == Back(Message(UnsubscribedMessage))
    // An unknown token changes nothing and flashes an error.
    ensures !Occurs(s, UnsubscribeToken, token) ==>
      o.store == s && o.response == Back(Error(InvalidUnsubscribeLink))
    ensures o.effects == []
  {
    match First(s, UnsubscribeToken, token)
    case Some(i) =>
      Step(s[i := s[i].(isSubscribed := false)], Back(Message(UnsubscribedMessage)), [])
    case None =>
      Step(s, Back(Error(InvalidUnsubscribeLink)), [])
  }

  /**
   The `verify.subscription` temporary signed route, carrying email and token.
   `signatureValid` is the verdict of `hasValidSignature()`; `token` is
   accepted but never consulted.
   */
  function Verify(s: Store, signatureValid: bool, email: string, token: string): (o: Step)
    // A bad or expired signature is a 401 with no change and no job.
    ensures !signatureValid ==> o == Step(s, Unauthorized, [])
    // The first row with the email is switched on and one daily job is queued for it.
    ensures signatureValid ==> forall i | IsFirst(s, Email, email, i) ::
      && |o.store| == |s|
      && o.store[i] == Subscription(email, s[i].city, true, s[i].unsubscribeToken)
      && (forall j | 0 <= j < |s| && j != i :: o.store[j] == s[j])
      && o.effects == [DispatchDailyWeather(o.store[i])]
    // An unknown email changes nothing and queues nothing, yet still reports success.
    ensures signatureValid && !Occurs(s, Email, email) ==> o.store == s && o.effects == []
    ensures signatureValid ==> o.response == RedirectTo(IndexRoute, Message(VerifiedMessage))
  {
    if !signatureValid then Step(s, Unauthorized, [])
    else
      match First(s, Email, email)
      case Some(i) =>
        var s' := s[i := s[i].(isSubscribed := true)];
        Step(s', RedirectTo(IndexRoute, Message(VerifiedMessage)), [DispatchDailyWeather(s'[i])])
      case None =>
        Step(s, RedirectTo(IndexRoute, Message(VerifiedMessage)), [])
  }
}
