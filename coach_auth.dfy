/**
 * The coach authentication module: a pending one-time login code with its
 * expiry, and a session flag, all kept in `localStorage` under three fixed keys.
 * Read-only queries are functions of the store's value; operations that write
 * are methods on the shared `LocalStorage` object, each specified by a function
 * that gives the store's new value. The current time `now` (milliseconds since
 * the epoch) is a parameter.
 */
module CoachAuth {
  import opened Wrappers
  import opened JsNumber
  import opened WebStorage

  const LOGIN_CODE_KEY: string := "coachLoginCode"
  const LOGIN_EXPIRES_KEY: string := "coachLoginExpires"
  const IS_LOGGED_IN_KEY: string := "isCoachLoggedIn"
  const LOGGED_IN_VALUE: string := "true"

  /** The three keys are different strings, so writing one never touches another. */
  lemma KeysDistinct()
    ensures LOGIN_CODE_KEY != LOGIN_EXPIRES_KEY
    ensures LOGIN_CODE_KEY != IS_LOGGED_IN_KEY
    ensures LOGIN_EXPIRES_KEY != IS_LOGGED_IN_KEY
  {
    assert |LOGIN_CODE_KEY| == 14 && |LOGIN_EXPIRES_KEY| == 17 && |IS_LOGGED_IN_KEY| == 15;
  }

  /** Ten minutes, the lifetime of a code when no finite lifetime is given. */
  const DEFAULT_TTL_MS: int := 10 * 60 * 1000

  const NO_CODE_MESSAGE: string := "Aucun code trouvé. Demande un nouveau code."
  const EXPIRED_MESSAGE: string := "Le code a expiré. Demande un nouveau code."
  const INCORRECT_MESSAGE: string := "Code incorrect"

  /** The `{ ok, error }` object `validateLoginCode` returns. */
  datatype Validation = Validation(ok: bool, error: string)

  const ACCEPTED: Validation := Validation(true, "")
  const NO_CODE: Validation := Validation(false, NO_CODE_MESSAGE)
  const EXPIRED: Validation := Validation(false, EXPIRED_MESSAGE)
  const INCORRECT: Validation := Validation(false, INCORRECT_MESSAGE)

  /** The `{ savedCode, expiresAt }` pair `getPendingLoginCode` returns. */
  datatype Pending = Pending(savedCode: Option<string>, expiresAt: int)

  // ---------------------------------------------------------------------------
  // Storage access that never throws

  /** `safeGetItem`: a thrown exception reads as `null`. */
  function SafeGetItem(s: Store, key: string): (r: Option<string>)
    ensures r.Some? <==> s.accessible && key in s.items
    ensures r.Some? ==> r.value == s.items[key]
  {
    if s.accessible && key in s.items then Some(s.items[key]) else None
  }

  /** The store after `safeSetItem(key, value)`: a thrown exception leaves it as it was. */
  function SafeSet(s: Store, key: string, value: string): (r: Store)
    ensures r.accessible == s.accessible && r.full == s.full
    ensures SafeGetItem(r, key) == if s.Writable() then Some(value) else SafeGetItem(s, key)
    ensures forall k :: k != key ==> SafeGetItem(r, k) == SafeGetItem(s, k)
    ensures r.items - {key} == s.items - {key}
    ensures !s.Writable() ==> r == s
  {
    if s.Writable() then s.(items := s.items[key := value]) else s
  }

  /** The store after `safeRemoveItem(key)`: a thrown exception leaves it as it was. */
  function SafeRemove(s: Store, key: string): (r: Store)
    ensures r.accessible == s.accessible && r.full == s.full
    ensures SafeGetItem(r, key) == None
    ensures forall k :: k != key ==> SafeGetItem(r, k) == SafeGetItem(s, k)
    ensures r.items - {key} == s.items - {key}
    ensures s.accessible ==> key !in r.items
    ensures !s.accessible ==> r == s
  {
    if s.accessible then s.(items := s.items - {key}) else s
  }

  /** `safeSetItem`: `localStorage.setItem` inside a try whose catch does nothing. */
  method SafeSetItem(st: LocalStorage, key: string, value: string)
    modifies st
    ensures st.State() == SafeSet(old(st.State()), key, value)
  {
    if st.accessible && !st.full {
      st.items := st.items[key := value];
    }
  }

  /** `safeRemoveItem`: `localStorage.removeItem` inside a try whose catch does nothing. */
  method SafeRemoveItem(st: LocalStorage, key: string)
    modifies st
    ensures st.State() == SafeRemove(old(st.State()), key)
  {
    if st.accessible {
      st.items := st.items - {key};
    }
  }

  // ---------------------------------------------------------------------------
  // Reading the pending code and the session flag

  /**
   * `Number.parseInt(raw || "0", 10) || 0`: a missing or empty value reads as
   * "0", and NaN (no digits) reads as 0.
   */
  function ExpiresAt(raw: Option<string>): (t: int)
    ensures raw == None || raw == Some("") ==> t == 0
    ensures raw.Some? && ParseInt(raw.value).Some? ==> t == ParseInt(raw.value).value
    ensures raw.Some? && ParseInt(raw.value).None? ==> t == 0
  {
    var text := if raw == None || raw == Some("") then "0" else raw.value;
    assert ParseInt("0") == Some(0) by {
      assert LeadingDigits("0") == "0";
    }
    match ParseInt(text)
    case None => 0
    case Some(v) => v
  }

  /** `getPendingLoginCode`: the stored code and its expiry, 0 when unusable. */
  function GetPendingLoginCode(s: Store): (p: Pending)
    ensures p.savedCode == SafeGetItem(s, LOGIN_CODE_KEY)
    ensures SafeGetItem(s, LOGIN_EXPIRES_KEY) == None ==> p.expiresAt == 0
    ensures !s.accessible ==> p == Pending(None, 0)
  {
    Pending(SafeGetItem(s, LOGIN_CODE_KEY), ExpiresAt(SafeGetItem(s, LOGIN_EXPIRES_KEY)))
  }

  /** The negation of `!savedCode || !expiresAt`: a non-empty code with a non-zero expiry. */
  predicate IsUsable(p: Pending) {
    p.savedCode.Some? && p.savedCode.value != "" && p.expiresAt != 0
  }

  /** `isLoggedIn`: the session flag holds exactly "true"; an unreadable store reads as logged out. */
  function IsLoggedIn(s: Store): (b: bool)
    ensures b <==> s.accessible && IS_LOGGED_IN_KEY in s.items && s.items[IS_LOGGED_IN_KEY] == LOGGED_IN_VALUE
    ensures !s.accessible ==> !b
  {
    SafeGetItem(s, IS_LOGGED_IN_KEY) == Some(LOGGED_IN_VALUE)
  }

  // ---------------------------------------------------------------------------
  // Operations that write the store

  /** The store after `clearPendingLoginCode`. */
  function Cleared(s: Store): (r: Store)
    ensures GetPendingLoginCode(r) == Pending(None, 0)
    ensures forall k :: k != LOGIN_CODE_KEY && k != LOGIN_EXPIRES_KEY ==> SafeGetItem(r, k) == SafeGetItem(s, k)
    ensures s.accessible ==> LOGIN_CODE_KEY !in r.items && LOGIN_EXPIRES_KEY !in r.items
    ensures !s.accessible ==> r == s
    ensures r.accessible == s.accessible && r.full == s.full
    ensures IsLoggedIn(r) == IsLoggedIn(s)
  {
    KeysDistinct();
    var r := SafeRemove(SafeRemove(s, LOGIN_CODE_KEY), LOGIN_EXPIRES_KEY);
    assert SafeGetItem(r, IS_LOGGED_IN_KEY) == SafeGetItem(s, IS_LOGGED_IN_KEY);
    r
  }

  /** `clearPendingLoginCode`: removes the code and then its expiry. */
  method ClearPendingLoginCode(st: LocalStorage)
    modifies st
    ensures st.State() == Cleared(old(st.State()))
  {
    SafeRemoveItem(st, LOGIN_CODE_KEY);
    SafeRemoveItem(st, LOGIN_EXPIRES_KEY);
  }

  /** The store after `markLoggedIn`. */
  function MarkedLoggedIn(s: Store): (r: Store)
    ensures IsLoggedIn(r) <==> s.Writable() || IsLoggedIn(s)
    ensures s.Writable() ==> SafeGetItem(r, IS_LOGGED_IN_KEY) == Some(LOGGED_IN_VALUE)
    ensures !s.Writable() ==> SafeGetItem(r, IS_LOGGED_IN_KEY) == SafeGetItem(s, IS_LOGGED_IN_KEY)
    ensures GetPendingLoginCode(r) == Pending(None, 0)
    ensures forall k :: k != IS_LOGGED_IN_KEY && k != LOGIN_CODE_KEY && k != LOGIN_EXPIRES_KEY ==>
      SafeGetItem(r, k) == SafeGetItem(s, k)
    ensures !s.accessible ==> r == s
    ensures s.accessible ==> LOGIN_CODE_KEY !in r.items && LOGIN_EXPIRES_KEY !in r.items
    ensures r.accessible == s.accessible && r.full == s.full
  {
    KeysDistinct();
    Cleared(SafeSet(s, IS_LOGGED_IN_KEY, LOGGED_IN_VALUE))
  }

  /** `markLoggedIn`: sets the session flag, then clears any pending code. */
  method MarkLoggedIn(st: LocalStorage)
    modifies st
    ensures st.State() == MarkedLoggedIn(old(st.State()))
  {
    SafeSetItem(st, IS_LOGGED_IN_KEY, LOGGED_IN_VALUE);
    ClearPendingLoginCode(st);
  }

  /** The store after `logout`. */
  function LoggedOut(s: Store): (r: Store)
    ensures !IsLoggedIn(r)
    ensures GetPendingLoginCode(r) == GetPendingLoginCode(s)
    ensures forall k :: k != IS_LOGGED_IN_KEY ==> SafeGetItem(r, k) == SafeGetItem(s, k)
    ensures !s.accessible ==> r == s
    ensures s.accessible ==> IS_LOGGED_IN_KEY !in r.items
    ensures r.accessible == s.accessible && r.full == s.full
  {
    KeysDistinct();
    var r := SafeRemove(s, IS_LOGGED_IN_KEY);
    assert SafeGetItem(r, LOGIN_CODE_KEY) == SafeGetItem(s, LOGIN_CODE_KEY);
    assert SafeGetItem(r, LOGIN_EXPIRES_KEY) == SafeGetItem(s, LOGIN_EXPIRES_KEY);
    r
  }

  /** `logout`: removes the session flag and nothing else. */
  method Logout(st: LocalStorage)
    modifies st
    ensures st.State() == LoggedOut(old(st.State()))
  {
    SafeRemoveItem(st, IS_LOGGED_IN_KEY);
  }

  /** `Number.isFinite(ttlMs) ? ttlMs : 10 * 60 * 1000`; `None` is any value that is not a finite number. */
  function Ttl(ttlMs: Option<int>): (ttl: int)
    ensures ttlMs.None? ==> ttl == 600000
    ensures ttlMs.Some? ==> ttl == ttlMs.value
  {
    if ttlMs.Some? then ttlMs.value else DEFAULT_TTL_MS
  }

  /** The store after `setPendingLoginCode(code, ttlMs)` at time `now`. */
  function WithPendingCode(s: Store, code: string, ttlMs: Option<int>, now: int): (r: Store)
    ensures s.Writable() ==> r.items == s.items[LOGIN_CODE_KEY := code][LOGIN_EXPIRES_KEY := IntToString(now + Ttl(ttlMs))]
    ensures forall k :: k != LOGIN_CODE_KEY && k != LOGIN_EXPIRES_KEY ==> SafeGetItem(r, k) == SafeGetItem(s, k)
    ensures !s.Writable() ==> r == s
    ensures r.accessible == s.accessible && r.full == s.full
    ensures IsLoggedIn(r) == IsLoggedIn(s)
  {
    var ttl := Ttl(ttlMs);
    SafeSet(SafeSet(s, LOGIN_CODE_KEY, code), LOGIN_EXPIRES_KEY, IntToString(now + ttl))
  }

  /** `setPendingLoginCode`: overwrites the code, then its expiry `now + ttl`. */
  method SetPendingLoginCode(st: LocalStorage, code: string, ttlMs: Option<int>, now: int)
    modifies st
    ensures st.State() == WithPendingCode(old(st.State()), code, ttlMs, now)
  {
    var ttl := Ttl(ttlMs);
    SafeSetItem(st, LOGIN_CODE_KEY, code);
    SafeSetItem(st, LOGIN_EXPIRES_KEY, IntToString(now + ttl));
  }

  // ---------------------------------------------------------------------------
  // Validation

  /** `String(inputCode || "")` for a string or a missing input. */
  function InputText(input: Option<string>): (t: string)
    ensures input.None? ==> t == ""
    ensures input.Some? ==> t == input.value
  {
    match input
    case None => ""
    case Some(text) => text
  }

  /**
   * The decision `validateLoginCode(input)` takes at time `now` on the pending
   * code `p`, in this order: no usable code, expired, mismatch, accepted.
   */
  function Decide(p: Pending, input: Option<string>, now: int): (v: Validation)
    ensures v == NO_CODE <==> !IsUsable(p)
    ensures v == EXPIRED <==> IsUsable(p) && now > p.expiresAt
    ensures v == INCORRECT <==> IsUsable(p) && now <= p.expiresAt && InputText(input) != p.savedCode.value
    ensures v == ACCEPTED <==> IsUsable(p) && now <= p.expiresAt && InputText(input) == p.savedCode.value
  {
    if !IsUsable(p) then NO_CODE
    else if now > p.expiresAt then EXPIRED
    else if InputText(input) != p.savedCode.value then INCORRECT
    else ACCEPTED
  }

  /**
   * The result of `validateLoginCode(input)` at time `now` and the store
   * afterwards: only the "expired" outcome writes, and it clears the code.
   */
  function Validate(s: Store, input: Option<string>, now: int): (r: (Validation, Store))
    ensures r.0 == ACCEPTED || r.0 == NO_CODE || r.0 == EXPIRED || r.0 == INCORRECT
    ensures r.0.ok <==> r.0.error == ""
    ensures r.0 != EXPIRED ==> r.1 == s
    ensures r.0 == EXPIRED ==> r.1 == Cleared(s)
  {
    var v := Decide(GetPendingLoginCode(s), input, now);
    (v, if v == EXPIRED then Cleared(s) else s)
  }

  /** `validateLoginCode`: reads the pending code once and decides; only an expired code is written. */
  method ValidateLoginCode(st: LocalStorage, input: Option<string>, now: int) returns (r: Validation)
    modifies st
    ensures (r, st.State()) == Validate(old(st.State()), input, now)
  {
    var pending := GetPendingLoginCode(st.State());
    if pending.savedCode == None || pending.savedCode == Some("") || pending.expiresAt == 0 {
      return NO_CODE;
    }
    assert IsUsable(pending);
    if now > pending.expiresAt {
      ClearPendingLoginCode(st);
      return EXPIRED;
    }
    if InputText(input) != pending.savedCode.value {
      return INCORRECT;
    }
    return ACCEPTED;
  }
}
