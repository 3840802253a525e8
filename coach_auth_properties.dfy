/**
 * What the coach login module promises across calls: a freshly issued code is
 * accepted until its expiry instant and rejected after it, the decision order
 * of validation and what each outcome does to the store, the effects of
 * `markLoggedIn` and `logout`, and the behaviour with unusable storage.
 */
module CoachAuthProperties {
  import opened Wrappers
  import opened JsNumber
  import opened WebStorage
  import opened CoachAuth

  /** The expiry instant `setPendingLoginCode(code, ttlMs)` stores at time `now`. */
  function ExpiryOf(ttlMs: Option<int>, now: int): int {
    now + Ttl(ttlMs)
  }

  /** An expiry written by `String(n)` is read back as `n`. */
  lemma ExpiresAtOfIntToString(n: int)
    ensures ExpiresAt(Some(IntToString(n))) == n
  {
    ParseIntOfIntToString(n, "");
    assert IntToString(n) + "" == IntToString(n);
  }

  /** On writable storage, `getPendingLoginCode` returns exactly what `setPendingLoginCode` wrote. */
  lemma PendingAfterSet(s: Store, code: string, ttlMs: Option<int>, now: int)
    requires s.Writable()
    ensures GetPendingLoginCode(WithPendingCode(s, code, ttlMs, now)) == Pending(Some(code), ExpiryOf(ttlMs, now))
  {
    KeysDistinct();
    var r := WithPendingCode(s, code, ttlMs, now);
    assert SafeGetItem(r, LOGIN_CODE_KEY) == Some(code);
    assert SafeGetItem(r, LOGIN_EXPIRES_KEY) == Some(IntToString(ExpiryOf(ttlMs, now)));
    ExpiresAtOfIntToString(ExpiryOf(ttlMs, now));
  }

  /**
   * A non-empty code issued at `t` with a non-zero expiry is accepted at every
   * instant up to and including the expiry, and accepting it changes nothing.
   */
  lemma SetThenValidateSucceeds(s: Store, code: string, ttlMs: Option<int>, t: int, now: int)
    requires s.Writable() && code != ""
    requires ExpiryOf(ttlMs, t) != 0 && now <= ExpiryOf(ttlMs, t)
    ensures var r := WithPendingCode(s, code, ttlMs, t);
      Validate(r, Some(code), now) == (ACCEPTED, r)
  {
    PendingAfterSet(s, code, ttlMs, t);
  }

  /**
   * A usable code validated after its expiry instant reports "expired" and is
   * cleared, so every later validation reports "no code" and changes nothing.
   */
  lemma ExpiredCodeIsCleared(s: Store, input: Option<string>, now: int, retry: Option<string>, later: int)
    requires IsUsable(GetPendingLoginCode(s)) && now > GetPendingLoginCode(s).expiresAt
    ensures Validate(s, input, now) == (EXPIRED, Cleared(s))
    ensures Validate(Cleared(s), retry, later) == (NO_CODE, Cleared(s))
  {
  }

  /** The same for a code just issued: one millisecond past the expiry it is gone. */
  lemma SetThenExpire(s: Store, code: string, ttlMs: Option<int>, t: int, now: int,
                      input: Option<string>, retry: Option<string>, later: int)
    requires s.Writable() && code != ""
    requires ExpiryOf(ttlMs, t) != 0 && now > ExpiryOf(ttlMs, t)
    ensures var r := WithPendingCode(s, code, ttlMs, t);
      Validate(r, input, now) == (EXPIRED, Cleared(r)) &&
      Validate(Cleared(r), retry, later) == (NO_CODE, Cleared(r))
  {
    PendingAfterSet(s, code, ttlMs, t);
    ExpiredCodeIsCleared(WithPendingCode(s, code, ttlMs, t), input, now, retry, later);
  }

  /**
   * "No code" is reported exactly when there is no usable pending code, and
   * then the store is left alone, however late it is.
   */
  lemma NoCodeExactlyWhenUnusable(s: Store, input: Option<string>, now: int)
    ensures Validate(s, input, now).0 == NO_CODE <==> !IsUsable(GetPendingLoginCode(s))
    ensures !IsUsable(GetPendingLoginCode(s)) ==> Validate(s, input, now).1 == s
  {
  }

  /** A missing, digit-free or zero expiry makes the pending code unusable. */
  lemma UnusableExpiryMeansNoCode(s: Store, input: Option<string>, now: int)
    requires var raw := SafeGetItem(s, LOGIN_EXPIRES_KEY);
      raw == None || raw == Some("0") || (forall i :: 0 <= i < |raw.value| ==> !IsDigit(raw.value[i]))
    ensures Validate(s, input, now) == (NO_CODE, s)
  {
    var raw := SafeGetItem(s, LOGIN_EXPIRES_KEY);
    if raw == Some("0") {
      assert LeadingDigits("0") == "0";
    } else if raw.Some? {
      ParseIntWithoutDigits(raw.value);
    }
  }

  /** Setting the empty string as the code leads to "no code", not to a code anyone can enter. */
  lemma EmptyCodeMeansNoCode(s: Store, ttlMs: Option<int>, t: int, input: Option<string>, now: int)
    requires s.Writable()
    ensures var r := WithPendingCode(s, "", ttlMs, t);
      Validate(r, input, now) == (NO_CODE, r)
  {
    PendingAfterSet(s, "", ttlMs, t);
  }

  /**
   * A wrong code before the expiry is "incorrect" and leaves the store alone,
   * so the right code is still accepted at any instant up to the expiry.
   */
  lemma MismatchKeepsCode(s: Store, input: Option<string>, now: int, later: int)
    requires var p := GetPendingLoginCode(s);
      IsUsable(p) && now <= p.expiresAt && later <= p.expiresAt && InputText(input) != p.savedCode.value
    ensures Validate(s, input, now) == (INCORRECT, s)
    ensures Validate(s, Some(GetPendingLoginCode(s).savedCode.value), later) == (ACCEPTED, s)
  {
  }

  /** A missing or empty input never matches a usable code. */
  lemma MissingInputNeverMatches(s: Store, now: int)
    requires IsUsable(GetPendingLoginCode(s))
    ensures !Validate(s, None, now).0.ok
    ensures !Validate(s, Some(""), now).0.ok
  {
  }

  /**
   * Validation accepts exactly a non-empty input equal to the stored code,
   * when the expiry is non-zero and not yet passed.
   */
  lemma AcceptsExactly(s: Store, input: Option<string>, now: int)
    ensures Validate(s, input, now).0.ok <==>
      InputText(input) != "" && SafeGetItem(s, LOGIN_CODE_KEY) == Some(InputText(input)) &&
      GetPendingLoginCode(s).expiresAt != 0 && now <= GetPendingLoginCode(s).expiresAt
  {
  }

  /**
   * After `markLoggedIn` on writable storage the coach is logged in and no
   * code is pending any more, so validation reports "no code".
   */
  lemma MarkLoggedInThenValidate(s: Store, input: Option<string>, now: int)
    requires s.Writable()
    ensures IsLoggedIn(MarkedLoggedIn(s))
    ensures Validate(MarkedLoggedIn(s), input, now) == (NO_CODE, MarkedLoggedIn(s))
  {
  }

  /** `logout` is idempotent and leaves any pending code as it was. */
  lemma LogoutIdempotent(s: Store, input: Option<string>, now: int)
    ensures LoggedOut(LoggedOut(s)) == LoggedOut(s)
    ensures !IsLoggedIn(LoggedOut(s))
    ensures Validate(LoggedOut(s), input, now).0 == Validate(s, input, now).0
  {
    if s.accessible {
      assert LoggedOut(s).items == s.items - {IS_LOGGED_IN_KEY};
      assert (s.items - {IS_LOGGED_IN_KEY}) - {IS_LOGGED_IN_KEY} == s.items - {IS_LOGGED_IN_KEY};
    }
    assert GetPendingLoginCode(LoggedOut(s)) == GetPendingLoginCode(s);
  }

  /**
   * With storage that throws on every access nothing is ever pending or
   * logged in, and every operation leaves the store as it was.
   */
  lemma UnavailableStorage(s: Store, code: string, ttlMs: Option<int>, t: int, input: Option<string>, now: int)
    requires !s.accessible
    ensures !IsLoggedIn(s)
    ensures Validate(s, input, now) == (NO_CODE, s)
    ensures WithPendingCode(s, code, ttlMs, t) == s
    ensures MarkedLoggedIn(s) == s && LoggedOut(s) == s && Cleared(s) == s
  {
  }

  /**
   * When `setItem` throws for quota, `setPendingLoginCode` writes nothing: a
   * code pending from before stays pending and validation still compares against it.
   * `markLoggedIn` then does not log in, yet it still clears the pending code.
   */
  lemma FullStorageKeepsPreviousCode(s: Store, code: string, ttlMs: Option<int>, t: int, input: Option<string>, now: int)
    requires s.accessible && s.full
    ensures WithPendingCode(s, code, ttlMs, t) == s
    ensures Validate(WithPendingCode(s, code, ttlMs, t), input, now) == Validate(s, input, now)
    ensures IsLoggedIn(MarkedLoggedIn(s)) == IsLoggedIn(s)
    ensures Validate(MarkedLoggedIn(s), input, now).0 == NO_CODE
  {
  }

  /** A store that never held a code reports "no code" and stays as it is. */
  lemma FreshStoreHasNoCode(s: Store, input: Option<string>, now: int)
    requires LOGIN_CODE_KEY !in s.items
    ensures Validate(s, input, now) == (NO_CODE, s)
  {
  }

  /**
   * The whole login cycle: a code issued at `t0` for ten minutes is accepted a
   * second later, `markLoggedIn` logs in, `logout` logs out.
   */
  lemma LoginCycle(s: Store, t0: int)
    requires s.Writable() && t0 >= 0
    ensures var issued := WithPendingCode(s, "482913", Some(600000), t0);
      var validated := Validate(issued, Some("482913"), t0 + 1000);
      var loggedIn := MarkedLoggedIn(validated.1);
      validated == (ACCEPTED, issued) && IsLoggedIn(loggedIn) && !IsLoggedIn(LoggedOut(loggedIn))
  {
    SetThenValidateSucceeds(s, "482913", Some(600000), t0, t0 + 1000);
  }
}
