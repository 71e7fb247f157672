/**
 Properties that span several requests: the table invariants every action
 keeps, the per-email state machine (absent, pending, active), and the
 subscribe, verify, unsubscribe round trip.
 */
module Lifecycle {
  import opened Subscriptions
  import opened SubscriptionController

  /** One row per email, one row per token, and every token shaped like `Str::random(32)`. */
  predicate Valid(s: Store)
  {
    && Unique(s, Email)
    && Unique(s, UnsubscribeToken)
    && forall i | 0 <= i < |s| :: IsRandomToken(s[i].unsubscribeToken)
  }

  /** Where an email stands, as the controller sees it through `where('email', ...)->first()`. */
  datatype Status = Absent | Pending | Active

  function StatusOf(s: Store, email: string): Status
  {
    match First(s, Email, email)
    case None => Absent
    case Some(i) => if s[i].isSubscribed then Active else Pending
  }

  // ---------------------------------------------------------------- invariants

  lemma SubscribePreservesValid(s: Store, email: string, city: string, valid: bool, token: string)
    requires valid ==> email != [] && city != []
    requires FreshToken(s, token)
    requires Valid(s)
    ensures Valid(Subscribe(s, email, city, valid, token).store)
  {
    var o := Subscribe(s, email, city, valid, token);
    if valid && o.store != s {
      match First(s, Email, email)
      case Some(i) =>
        assert forall j | 0 <= j < |s| :: Field(o.store[j], Email) == Field(s[j], Email);
        assert forall j | 0 <= j < |s| && j != i :: o.store[j].unsubscribeToken != token;
      case None =>
        assert forall j | 0 <= j < |s| :: o.store[j] == s[j];
    }
  }

  lemma UnsubscribePreservesValid(s: Store, token: string)
    requires Valid(s)
    ensures Valid(Unsubscribe(s, token).store)
  {
    var o := Unsubscribe(s, token);
    assert forall j | 0 <= j < |s| :: o.store[j].email == s[j].email
                                   && o.store[j].unsubscribeToken == s[j].unsubscribeToken;
  }

  lemma VerifyPreservesValid(s: Store, signatureValid: bool, email: string, token: string)
    requires Valid(s)
    ensures Valid(Verify(s, signatureValid, email, token).store)
  {
    var o := Verify(s, signatureValid, email, token);
    assert forall j | 0 <= j < |s| :: o.store[j].email == s[j].email
                                   && o.store[j].unsubscribeToken == s[j].unsubscribeToken;
  }

  // ------------------------------------------------------------- state machine

  /**
   A valid subscribe leaves an active email active and makes any other email
   pending; every other email keeps its status.
   */
  lemma SubscribeStatus(s: Store, email: string, city: string, token: string, other: string)
    requires email != [] && city != []
    requires FreshToken(s, token)
    ensures StatusOf(Subscribe(s, email, city, true, token).store, email) ==
              (if StatusOf(s, email) == Active then Active else Pending)
    ensures other != email ==>
              StatusOf(Subscribe(s, email, city, true, token).store, other) == StatusOf(s, other)
  {
    var o := Subscribe(s, email, city, true, token);
    match First(s, Email, email)
    case Some(i) =>
      FirstSameColumn(s, o.store, Email, other);
      FirstFinds(o.store, Email, email, i);
      if other != email {
        if First(s, Email, other).Some? {
          assert First(s, Email, other).value != i;
        }
      }
    case None =>
      FirstAfterAppend(s, Subscription(email, city, false, token), Email, email);
      FirstAfterAppend(s, Subscription(email, city, false, token), Email, other);
      assert o.store == s + [Subscription(email, city, false, token)];
  }

  /** With a valid signature, a known email becomes active and every other email keeps its status. */
  lemma VerifyStatus(s: Store, email: string, token: string, other: string)
    ensures StatusOf(Verify(s, true, email, token).store, email) ==
              (if StatusOf(s, email) == Absent then Absent else Active)
    ensures other != email ==>
              StatusOf(Verify(s, true, email, token).store, other) == StatusOf(s, other)
  {
    var o := Verify(s, true, email, token);
    FirstSameColumn(s, o.store, Email, email);
    FirstSameColumn(s, o.store, Email, other);
  }

  /**
   In a valid table, a known token makes its owner pending (whatever it was);
   every other email keeps its status.
   */
  lemma UnsubscribeStatus(s: Store, token: string, other: string)
    requires Valid(s)
    requires Occurs(s, UnsubscribeToken, token)
    ensures var i := First(s, UnsubscribeToken, token).value;
            && StatusOf(Unsubscribe(s, token).store, s[i].email) == Pending
            && (other != s[i].email ==>
                  StatusOf(Unsubscribe(s, token).store, other) == StatusOf(s, other))
  {
    var o := Unsubscribe(s, token);
    var i := First(s, UnsubscribeToken, token).value;
    UniqueRowIsFirst(s, Email, i);
    FirstSameColumn(s, o.store, Email, s[i].email);
    FirstSameColumn(s, o.store, Email, other);
    FirstFinds(s, Email, s[i].email, i);
    if other != s[i].email && First(s, Email, other).Some? {
      assert First(s, Email, other).value != i;
    }
  }

  // -------------------------------------------------------------- round trips

  /**
   Subscribing an email that is not active, following the mailed link and then
   the unsubscribe link built from the same token: the email is active in
   between, exactly one daily job is queued, and unsubscribing returns the
   table to what subscribe left it as.
   */
  lemma SubscribeVerifyUnsubscribe(s: Store, email: string, city: string, token: string)
    requires email != [] && city != []
    requires FreshToken(s, token)
    requires StatusOf(s, email) != Active
    ensures var s1 := Subscribe(s, email, city, true, token);
            var s2 := Verify(s1.store, true, email, token);
            var s3 := Unsubscribe(s2.store, token);
            && s1.response == Back(Message(CheckYourEmail))
            && s1.effects == [Confirmation(email, token)]
            && StatusOf(s1.store, email) == Pending
            && StatusOf(s2.store, email) == Active
            && |s2.effects| == 1 && s2.effects[0].DispatchDailyWeather?
            && s2.effects[0].subscription.email == email
            && s3.response == Back(Message(UnsubscribedMessage))
            && StatusOf(s3.store, email) == Pending
            && s3.store == s1.store
  {
    SubscribeStatus(s, email, city, token, email);
    var s1 := Subscribe(s, email, city, true, token);
    var i := SubscribeBindsToken(s, email, city, token);
    VerifyStatus(s1.store, email, token, email);
    VerifyThenUnsubscribe(s1.store, email, token, i);
  }

  /**
   After a successful subscribe the fresh token names exactly the row that
   the email's lookup finds; the lemma returns that row.
   */
  lemma SubscribeBindsToken(s: Store, email: string, city: string, token: string) returns (i: nat)
    requires email != [] && city != []
    requires FreshToken(s, token)
    requires StatusOf(s, email) != Active
    ensures var s1 := Subscribe(s, email, city, true, token).store;
            && IsFirst(s1, Email, email, i)
            && IsFirst(s1, UnsubscribeToken, token, i)
            && !s1[i].isSubscribed
  {
    var s1 := Subscribe(s, email, city, true, token).store;
    SubscribeStatus(s, email, city, token, email);
    i := First(s1, Email, email).value;
    assert s1[i].unsubscribeToken == token;
    forall j | 0 <= j < i
      ensures Field(s1[j], UnsubscribeToken) != token
    {
      assert j < |s| && s1[j] == s[j];
      assert Field(s[j], UnsubscribeToken) != token;
    }
  }

  /**
   If one row is the first match for both the email and the token and is
   pending, confirming and then unsubscribing restores the table.
   */
  lemma VerifyThenUnsubscribe(s: Store, email: string, token: string, i: nat)
    requires IsFirst(s, Email, email, i) && IsFirst(s, UnsubscribeToken, token, i)
    requires !s[i].isSubscribed
    ensures var s2 := Verify(s, true, email, token);
            var s3 := Unsubscribe(s2.store, token);
            && s2.effects == [DispatchDailyWeather(s[i].(isSubscribed := true))]
            && s3.response == Back(Message(UnsubscribedMessage))
            && s3.store == s
  {
    var s2 := Verify(s, true, email, token);
    assert IsFirst(s2.store, UnsubscribeToken, token, i);
    var s3 := Unsubscribe(s2.store, token);
    assert s3.store == s;
  }

  /**
   Subscribing an email that is pending in a valid table succeeds, keeps the
   table valid, and leaves the email with one row, which holds the new token.
   */
  lemma SubscribePending(s: Store, email: string, city: string, token: string)
    requires email != [] && city != []
    requires Valid(s)
    requires StatusOf(s, email) == Pending
    requires FreshToken(s, token)
    ensures var o := Subscribe(s, email, city, true, token);
            && o.response == Back(Message(CheckYourEmail))
            && Valid(o.store)
            && exists i | IsFirst(o.store, Email, email, i) ::
                 && o.store[i].unsubscribeToken == token
                 && forall j | 0 <= j < |o.store| && j != i :: o.store[j].email != email
  {
    var o := Subscribe(s, email, city, true, token);
    SubscribePreservesValid(s, email, city, true, token);
    var i := First(s, Email, email).value;
    assert IsFirst(o.store, Email, email, i);
    forall j | 0 <= j < |o.store| && j != i
      ensures o.store[j].email != email
    {
      assert Field(o.store[j], Email) != Field(o.store[i], Email);
    }
  }

  /**
   Subscribing twice before confirming succeeds both times, the second token
   replaces the first, and the table still holds one row for the email.
   */
  lemma ResubscribeRotatesToken(s: Store, email: string, city: string, t1: string, t2: string)
    requires email != [] && city != []
    requires Valid(s)
    requires StatusOf(s, email) != Active
    requires FreshToken(s, t1) && FreshToken(s, t2) && t1 != t2
    ensures var s1 := Subscribe(s, email, city, true, t1);
            var s2 := Subscribe(s1.store, email, city, true, t2);
            && s1.response == Back(Message(CheckYourEmail))
            && s2.response == Back(Message(CheckYourEmail))
            && Valid(s2.store)
            && !Occurs(s2.store, UnsubscribeToken, t1)
            && exists i | IsFirst(s2.store, Email, email, i) ::
                 && s2.store[i].unsubscribeToken == t2
                 && forall j | 0 <= j < |s2.store| && j != i :: s2.store[j].email != email
  {
    SubscribePreservesValid(s, email, city, true, t1);
    SubscribeStatus(s, email, city, t1, email);
    StillFresh(s, email, city, t1, t2);
    var i := SubscribeBindsToken(s, email, city, t1);
    var s1 := Subscribe(s, email, city, true, t1).store;
    SubscribePending(s1, email, city, t2);
    RotationRetiresToken(s1, email, city, t2, i);
  }

  /**
   Rotating a pending row's token removes its old token from the table, so
   an unsubscribe link built from the old token no longer names any row.
   */
  lemma RotationRetiresToken(s: Store, email: string, city: string, token: string, i: nat)
    requires email != [] && city != []
    requires Unique(s, UnsubscribeToken)
    requires IsFirst(s, Email, email, i) && !s[i].isSubscribed
    requires FreshToken(s, token)
    ensures !Occurs(Subscribe(s, email, city, true, token).store, UnsubscribeToken, s[i].unsubscribeToken)
  {
    var o := Subscribe(s, email, city, true, token);
    var retired := s[i].unsubscribeToken;
    assert retired != token;
    forall j | 0 <= j < |o.store|
      ensures Field(o.store[j], UnsubscribeToken) != retired
    {
      if j != i {
        assert o.store[j] == s[j];
        assert Field(s[j], UnsubscribeToken) != Field(s[i], UnsubscribeToken);
      }
    }
  }

  /** A token that was fresh and differs from the one subscribe stored is still fresh afterwards. */
  lemma StillFresh(s: Store, email: string, city: string, t1: string, t2: string)
    requires email != [] && city != []
    requires FreshToken(s, t1) && FreshToken(s, t2) && t1 != t2
    ensures FreshToken(Subscribe(s, email, city, true, t1).store, t2)
  {
    var s1 := Subscribe(s, email, city, true, t1);
    forall j | 0 <= j < |s1.store|
      ensures Field(s1.store[j], UnsubscribeToken) != t2
    {
      if j < |s| && s1.store[j] == s[j] {
        assert Field(s[j], UnsubscribeToken) != t2;
      }
    }
  }

  /** Unsubscribing twice with the same link is the same as once, and both succeed. */
  lemma UnsubscribeIdempotent(s: Store, token: string)
    ensures var s1 := Unsubscribe(s, token);
            var s2 := Unsubscribe(s1.store, token);
            && s2 == s1
  {
    var s1 := Unsubscribe(s, token);
    FirstSameColumn(s, s1.store, UnsubscribeToken, token);
  }

  /**
   Confirming twice leaves the table as confirming once, but queues a second
   daily job: the action is idempotent on the table, not on its effects.
   */
  lemma VerifyTwice(s: Store, email: string, token: string)
    requires Occurs(s, Email, email)
    ensures var s1 := Verify(s, true, email, token);
            var s2 := Verify(s1.store, true, email, token);
            && s2.store == s1.store
            && s2.effects == s1.effects
            && |s1.effects| == 1
  {
    var s1 := Verify(s, true, email, token);
    FirstSameColumn(s, s1.store, Email, email);
  }

  /** Which token the link carries makes no difference to `Verify`. */
  lemma VerifyIgnoresToken(s: Store, signatureValid: bool, email: string, t1: string, t2: string)
    ensures Verify(s, signatureValid, email, t1) == Verify(s, signatureValid, email, t2)
  {
  }

  /**
   A link issued before a token rotation still confirms the email: after a
   second subscribe replaced `t1` with `t2`, following the first link with a
   signature that is still valid activates the row, which now holds `t2`.
   */
  lemma StaleLinkStillActivates(s: Store, email: string, city: string, t1: string, t2: string)
    requires email != [] && city != []
    requires StatusOf(s, email) != Active
    requires FreshToken(s, t1) && FreshToken(s, t2) && t1 != t2
    ensures var s1 := Subscribe(s, email, city, true, t1);
            var s2 := Subscribe(s1.store, email, city, true, t2);
            var s3 := Verify(s2.store, true, email, t1);
            && StatusOf(s3.store, email) == Active
            && s3.effects[0].subscription.unsubscribeToken == t2
  {
    var i := SubscribeBindsToken(s, email, city, t1);
    var s1 := Subscribe(s, email, city, true, t1).store;
    StillFresh(s, email, city, t1, t2);
    RotationKeepsRow(s1, email, city, t2, i);
    VerifyActivatesRow(Subscribe(s1, email, city, true, t2).store, email, t1, i);
  }

  /** Rotating a pending row's token keeps it the email's first row and gives it the new token. */
  lemma RotationKeepsRow(s: Store, email: string, city: string, token: string, i: nat)
    requires email != [] && city != []
    requires IsFirst(s, Email, email, i) && !s[i].isSubscribed
    requires FreshToken(s, token)
    ensures var o := Subscribe(s, email, city, true, token).store;
            IsFirst(o, Email, email, i) && o[i].unsubscribeToken == token
  {
    var o := Subscribe(s, email, city, true, token).store;
    assert forall j | 0 <= j < i :: o[j] == s[j];
  }

  /** Confirming activates the email's first row and queues the job for that row, token unchanged. */
  lemma VerifyActivatesRow(s: Store, email: string, token: string, i: nat)
    requires IsFirst(s, Email, email, i)
    ensures var o := Verify(s, true, email, token);
            && StatusOf(o.store, email) == Active
            && |o.effects| == 1
            && o.effects[0].subscription.unsubscribeToken == s[i].unsubscribeToken
  {
    FirstFinds(s, Email, email, i);
    VerifyStatus(s, email, token, email);
  }
}
