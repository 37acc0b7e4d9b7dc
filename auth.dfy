/** The session gate of `src/utils/auth.js`: a token and its absolute expiry
    kept in the browser's `localStorage`, checked against the clock. The
    storage is an object holding a string map; the clock is the parameter
    `now`, in milliseconds since the epoch. */
module Auth {
  import opened Wrappers
  import opened JsNumbers

  const TokenKey: string := "token"
  const ExpirationKey: string := "tokenExpiration"

  /** 5 * 60 * 1000 milliseconds: a session lasts five minutes from `setAuth`. */
  const SessionLifetime: nat := 300000

  /** `window.localStorage`: string keys to string values. */
  class LocalStorage {
    var items: map<string, string>

    constructor (initial: map<string, string>)
      ensures items == initial
    {
      items := initial;
    }

    /** `getItem(key)`: the stored string, or `null` (`None`). */
    function GetItem(key: string): Option<string>
      reads this
    {
      Get(items, key)
    }

    method SetItem(key: string, value: string)
      modifies this
      ensures items == old(items)[key := value]
    {
      items := items[key := value];
    }

    method RemoveItem(key: string)
      modifies this
      ensures items == old(items) - {key}
    {
      items := items - {key};
    }
  }

  /** JavaScript truthiness of a `getItem` result: `null` and `""` are falsy. */
  predicate Truthy(v: Option<string>) {
    v.Some? && v.value != ""
  }

  /** Both keys hold a non-empty string. */
  predicate HasSession(items: map<string, string>) {
    Truthy(Get(items, TokenKey)) && Truthy(Get(items, ExpirationKey))
  }

  /** `now > parseInt(expiration)`. Every comparison with NaN is false, so an
      expiry with no leading number is never in the past. */
  predicate IsPast(now: nat, expiration: string) {
    match ParseInt(expiration)
    case None => false
    case Some(deadline) => now > deadline
  }

  /** There is a session and its expiry has passed. */
  predicate SessionExpired(items: map<string, string>, now: nat) {
    HasSession(items) && IsPast(now, items[ExpirationKey])
  }

  /** What `checkAuth()` returns at time `now`. */
  predicate SessionValid(items: map<string, string>, now: nat) {
    HasSession(items) && !IsPast(now, items[ExpirationKey])
  }

  /** The storage after `checkAuth()` at time `now`: an expired session loses
      its token and its expiry and nothing else; otherwise nothing changes. */
  function AfterCheck(items: map<string, string>, now: nat): (after: map<string, string>)
    ensures after.Keys <= items.Keys
    ensures forall k :: k in after ==> after[k] == items[k]
    ensures forall k :: k in items && k != TokenKey && k != ExpirationKey ==> k in after
    ensures SessionExpired(items, now) <==> !HasSession(after) && HasSession(items)
    ensures !SessionExpired(items, now) ==> after == items
  {
    if SessionExpired(items, now) then items - {TokenKey, ExpirationKey} else items
  }

  /** The storage after `setAuth(token)` at time `now`. */
  function AfterSetAuth(items: map<string, string>, token: string, now: nat): (after: map<string, string>)
    ensures after.Keys == items.Keys + {TokenKey, ExpirationKey}
    ensures after[TokenKey] == token
    ensures after[ExpirationKey] == NatToString(now + SessionLifetime)
    ensures forall k :: k in items && k != TokenKey && k != ExpirationKey ==> after[k] == items[k]
  {
    var expiration := NatToString(now + SessionLifetime);
    assert TokenKey != ExpirationKey by {
      assert |TokenKey| != |ExpirationKey|;
    }
    var withToken := items[TokenKey := token];
    assert forall k :: k in items && k != TokenKey ==> withToken[k] == items[k];
    withToken[ExpirationKey := expiration]
  }

  /** `checkAuth()` (src/utils/auth.js, lines 1-16). */
  method CheckAuth(storage: LocalStorage, now: nat) returns (ok: bool)
    modifies storage
    ensures ok == SessionValid(old(storage.items), now)
    ensures storage.items == AfterCheck(old(storage.items), now)
    ensures !HasSession(old(storage.items)) ==> !ok && storage.items == old(storage.items)
    ensures SessionExpired(old(storage.items), now) ==>
      !ok && storage.items == old(storage.items) - {TokenKey, ExpirationKey}
    ensures ok ==> storage.items == old(storage.items)
  {
    var token := storage.GetItem(TokenKey);
    var tokenExpiration := storage.GetItem(ExpirationKey);
    if !Truthy(token) || !Truthy(tokenExpiration) {
      return false;
    }
    if IsPast(now, tokenExpiration.value) {
      storage.RemoveItem(TokenKey);
      storage.RemoveItem(ExpirationKey);
      return false;
    }
    return true;
  }

  /** `setAuth(token)` (src/utils/auth.js, lines 18-22): the token, and the
      expiry `now + 5 minutes` written as a decimal string. */
  method SetAuth(storage: LocalStorage, token: string, now: nat)
    modifies storage
    ensures storage.items == AfterSetAuth(old(storage.items), token, now)
  {
    var expirationTime := now + SessionLifetime;
    storage.SetItem(TokenKey, token);
    storage.SetItem(ExpirationKey, NatToString(expirationTime));
  }

  /** The storage after `checkAuth()` has run at each time of `nows` in turn. */
  function RunChecks(items: map<string, string>, nows: seq<nat>): map<string, string> {
    if nows == [] then items else RunChecks(AfterCheck(items, nows[0]), nows[1..])
  }

  /** Right after `setAuth(token)` at time `t` with a non-empty token, the
      session is valid up to and including `t + 5 minutes` and invalid after
      it; once invalid, the check clears exactly the two session keys. */
  lemma SetAuthThenCheck(items: map<string, string>, token: string, t: nat, now: nat)
    requires token != ""
    ensures SessionValid(AfterSetAuth(items, token, t), now) <==> now <= t + SessionLifetime
    ensures SessionExpired(AfterSetAuth(items, token, t), now) <==> now > t + SessionLifetime
  {
    var after := AfterSetAuth(items, token, t);
    var expiration := after[ExpirationKey];
    ParseIntOfNatToString(t + SessionLifetime);
    assert ParseInt(expiration) == Some(t + SessionLifetime);
    assert HasSession(after);
    assert IsPast(now, expiration) <==> now > t + SessionLifetime;
  }

  /** The boundary: at exactly `t + 5 minutes` the session is still valid, one
      millisecond later it is not. */
  lemma ValidAtExpiryInstant(items: map<string, string>, token: string, t: nat)
    requires token != ""
    ensures SessionValid(AfterSetAuth(items, token, t), t + SessionLifetime)
    ensures !SessionValid(AfterSetAuth(items, token, t), t + SessionLifetime + 1)
  {
    SetAuthThenCheck(items, token, t, t + SessionLifetime);
    SetAuthThenCheck(items, token, t, t + SessionLifetime + 1);
  }

  /** `setAuth('')` writes a falsy token, so no check succeeds. */
  lemma EmptyTokenNeverValid(items: map<string, string>, t: nat, now: nat)
    ensures !SessionValid(AfterSetAuth(items, "", t), now)
  {
  }

  /** A garbled expiry (no number at its start) is never in the past: the
      session stays valid and nothing is cleared, at every time. */
  lemma GarbledExpiryNeverExpires(items: map<string, string>, now: nat)
    requires HasSession(items)
    requires ParseInt(items[ExpirationKey]) == None
    ensures SessionValid(items, now)
    ensures AfterCheck(items, now) == items
  {
  }

  /** Without a session every check fails and changes nothing. */
  lemma {:induction false} NoSessionStaysInvalid(items: map<string, string>, nows: seq<nat>)
    requires !HasSession(items)
    ensures RunChecks(items, nows) == items
    ensures forall i :: 0 <= i < |nows| ==> !SessionValid(RunChecks(items, nows[..i]), nows[i])
  {
    if nows != [] {
      NoSessionStaysInvalid(items, nows[1..]);
      forall i | 0 <= i < |nows|
        ensures !SessionValid(RunChecks(items, nows[..i]), nows[i])
      {
        if i > 0 {
          assert nows[..i][1..] == nows[1..][..i - 1];
          assert nows[i] == nows[1..][i - 1];
        }
      }
    }
  }

  /** Once a check has failed because the session expired, every later check
      fails as well, as long as `setAuth` is not called again. */
  lemma ExpiryIsFinal(items: map<string, string>, now: nat, later: seq<nat>)
    requires SessionExpired(items, now)
    ensures !SessionValid(items, now)
    ensures forall i :: 0 <= i < |later| ==>
      !SessionValid(RunChecks(AfterCheck(items, now), later[..i]), later[i])
  {
    NoSessionStaysInvalid(AfterCheck(items, now), later);
  }

  /** Expiry is absolute: checks made before the deadline leave the storage as
      `setAuth` wrote it, so they neither extend nor shorten the session. */
  lemma {:induction false} NoSlidingRenewal(session: map<string, string>, t: nat, nows: seq<nat>)
    requires HasSession(session) && ParseInt(session[ExpirationKey]) == Some(t + SessionLifetime)
    requires forall i :: 0 <= i < |nows| ==> nows[i] <= t + SessionLifetime
    ensures RunChecks(session, nows) == session
    ensures forall i :: 0 <= i < |nows| ==> SessionValid(RunChecks(session, nows[..i]), nows[i])
  {
    if nows != [] {
      NoSlidingRenewal(session, t, nows[1..]);
      forall i | 0 <= i < |nows|
        ensures SessionValid(RunChecks(session, nows[..i]), nows[i])
      {
        if i > 0 {
          assert nows[..i][1..] == nows[1..][..i - 1];
          assert nows[i] == nows[1..][i - 1];
        }
      }
    }
  }

  /** After `setAuth(token)` at `t`, checks at times up to `t + 5 minutes`
      all succeed and leave the session in place. */
  lemma SessionLastsFiveMinutes(items: map<string, string>, token: string, t: nat, nows: seq<nat>)
    requires token != ""
    requires forall i :: 0 <= i < |nows| ==> nows[i] <= t + SessionLifetime
    ensures RunChecks(AfterSetAuth(items, token, t), nows) == AfterSetAuth(items, token, t)
    ensures forall i :: 0 <= i < |nows| ==>
      SessionValid(RunChecks(AfterSetAuth(items, token, t), nows[..i]), nows[i])
  {
    SetAuthThenCheck(items, token, t, t);
    ParseIntOfNatToString(t + SessionLifetime);
    NoSlidingRenewal(AfterSetAuth(items, token, t), t, nows);
  }
}
