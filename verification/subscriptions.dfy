/**
 The `subscriptions` table: one `Subscription` row per subscriber, and the one
 query shape the controller uses on it, `where(column, value)->first()`.

 The table is an immutable sequence in insertion order; `first()` is the first
 row, in that order, whose column equals the value exactly.
 */
module Subscriptions {

  datatype Option<+T> = None | Some(value: T)

  /** A row of the `subscriptions` table. */
  datatype Subscription = Subscription(
    email: string,
    city: string,
    isSubscribed: bool,
    unsubscribeToken: string)

  type Store = seq<Subscription>

  /** The two columns the controller queries by. */
  datatype Column = Email | UnsubscribeToken

  function Field(r: Subscription, c: Column): string
  {
    match c
    case Email => r.email
    case UnsubscribeToken => r.unsubscribeToken
  }

  /** Some row has value `v` in column `c`. */
  predicate Occurs(s: Store, c: Column, v: string)
  {
    exists i | 0 <= i < |s| :: Field(s[i], c) == v
  }

  /** Row `i` is the first row whose column `c` holds `v`. */
  predicate IsFirst(s: Store, c: Column, v: string, i: int)
  {
    && 0 <= i < |s|
    && Field(s[i], c) == v
    && forall j | 0 <= j < i :: Field(s[j], c) != v
  }

  /** No two rows share a value in column `c`. */
  predicate Unique(s: Store, c: Column)
  {
    forall i, j | 0 <= i < j < |s| :: Field(s[i], c) != Field(s[j], c)
  }

  /** `where(c, v)->first()`: the index of the first matching row, if any. */
  function First(s: Store, c: Column, v: string): (r: Option<nat>)
    ensures r.Some? ==> IsFirst(s, c, v, r.value)
    ensures r.None? <==> !Occurs(s, c, v)
  {
    if |s| == 0 then None
    else if Field(s[0], c) == v then Some(0)
    else
      match First(s[1..], c, v)
      case None =>
        assert forall i | 1 <= i < |s| :: s[i] == s[1..][i - 1];
        None
      case Some(k) =>
        assert s[k + 1] == s[1..][k];
        assert forall j | 1 <= j < k + 1 :: s[j] == s[1..][j - 1];
        Some(k + 1)
  }

  /** At most one row is the first match. */
  lemma FirstIsUnique(s: Store, c: Column, v: string, i: int, j: int)
    requires IsFirst(s, c, v, i) && IsFirst(s, c, v, j)
    ensures i == j
  {
  }

  /** `First` finds exactly the row that `IsFirst` describes. */
  lemma FirstFinds(s: Store, c: Column, v: string, i: int)
    requires IsFirst(s, c, v, i)
    ensures First(s, c, v) == Some(i)
  {
    assert Occurs(s, c, v);
    FirstIsUnique(s, c, v, i, First(s, c, v).value);
  }

  /** In a column without duplicates, every row is the first match for its own value. */
  lemma UniqueRowIsFirst(s: Store, c: Column, i: int)
    requires Unique(s, c)
    requires 0 <= i < |s|
    ensures IsFirst(s, c, Field(s[i], c), i)
  {
  }

  /**
   Two tables that agree on column `c` row by row answer every query on `c`
   the same way.
   */
  lemma FirstSameColumn(s: Store, s': Store, c: Column, v: string)
    requires |s| == |s'|
    requires forall k | 0 <= k < |s| :: Field(s[k], c) == Field(s'[k], c)
    ensures First(s, c, v) == First(s', c, v)
  {
    match First(s, c, v)
    case None =>
    case Some(i) =>
      FirstFinds(s', c, v, i);
  }

  /** Appending a row never changes an existing first match. */
  lemma FirstAfterAppend(s: Store, r: Subscription, c: Column, v: string)
    ensures First(s + [r], c, v) ==
      (match First(s, c, v)
       case Some(i) => Some(i)
       case None => if Field(r, c) == v then Some(|s|) else None)
  {
    var t := s + [r];
    match First(s, c, v)
    case Some(i) =>
      FirstFinds(t, c, v, i);
    case None =>
      if Field(r, c) == v {
        FirstFinds(t, c, v, |s|);
      }
  }
}
