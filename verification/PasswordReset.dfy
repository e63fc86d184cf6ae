/** Password resets by single-use token, as routers/auth.py does them: a store of users,
    tokens and API keys, under any interleaving of requests and of confirmations that read
    a token first and claim it later. */
module PasswordReset {
  import opened Prelude
  import Lockout

  const TOKEN_TTL: Instant := 30 * MINUTE
  const COOLDOWN: Instant := 60 * SECOND

  datatype User = User(login: Lockout.Account, password: nat)

  datatype Token = Token(user: nat, expiresAt: Instant, usedAt: Option<Instant>)

  datatype Key = Key(user: nat, revokedAt: Option<Instant>)

  /** What a confirmation has read: its token, and the login columns of the user. */
  datatype Reading = Reading(token: nat, seen: Lockout.Account)

  /** `pending` holds the confirmations that have read their token and not yet claimed it. */
  datatype Store = Store(users: seq<User>, tokens: seq<Token>, keys: seq<Key>, pending: map<nat, Reading>)

  ghost predicate Valid(s: Store) {
    && (forall t :: 0 <= t < |s.tokens| ==> s.tokens[t].user < |s.users|)
    && (forall r :: r in s.pending ==> s.pending[r].token < |s.tokens|)
  }

  // ---------------------------------------------------------------- steps

  /** UPDATE password_reset_tokens SET used_at WHERE user_id AND used_at IS NULL. */
  function SpendAll(tokens: seq<Token>, user: nat, now: Instant): seq<Token> {
    seq(|tokens|, t requires 0 <= t < |tokens| =>
      if tokens[t].user == user && tokens[t].usedAt.None? then tokens[t].(usedAt := Some(now)) else tokens[t])
  }

  /** UPDATE api_keys SET revoked_at WHERE user_id AND revoked_at IS NULL. */
  function RevokeAll(keys: seq<Key>, user: nat, now: Instant): seq<Key> {
    seq(|keys|, k requires 0 <= k < |keys| =>
      if keys[k].user == user && keys[k].revokedAt.None? then keys[k].(revokedAt := Some(now)) else keys[k])
  }

  predicate RequestedRecently(tokens: seq<Token>, user: nat, now: Instant) {
    exists t :: 0 <= t < |tokens| && tokens[t].user == user && tokens[t].usedAt.None?
                && tokens[t].expiresAt > now + TOKEN_TTL - COOLDOWN
  }

  predicate Sends(s: Store, user: nat, now: Instant) {
    user < |s.users| && s.users[user].login.active && !RequestedRecently(s.tokens, user, now)
  }

  predicate Readable(s: Store, token: nat, now: Instant) {
    && token < |s.tokens| && s.tokens[token].usedAt.None? && now < s.tokens[token].expiresAt
    && s.tokens[token].user < |s.users| && s.users[s.tokens[token].user].login.active
  }

  datatype Event =
    | Request(user: nat, now: Instant)
    | Read(confirmation: nat, token: nat, now: Instant)
    | Claim(confirmation: nat, password: nat, now: Instant)
    | Login(user: nat, attempt: nat, checked: Instant, recorded: Instant)
    | CreateKey(user: nat)
    | RevokeKey(key: nat, now: Instant)
    | SetActive(user: nat, active: bool)

  /** The claim finds its token still unspent, so it changes the password. */
  predicate Changes(s: Store, e: Event) {
    && e.Claim? && e.confirmation in s.pending
    && s.pending[e.confirmation].token < |s.tokens| && s.tokens[s.pending[e.confirmation].token].usedAt.None?
    && s.tokens[s.pending[e.confirmation].token].user < |s.users|
  }

  /** The counter and the lock are set to zero and to nothing in the copy that was read, so
      a column that was zero or nothing in it is not written. */
  function Cleared(row: Lockout.Account, seen: Lockout.Account): Lockout.Account {
    row.(failed := Assigned(row.failed, seen.failed, 0),
         lockedUntil := Assigned(row.lockedUntil, seen.lockedUntil, None))
  }

  function Next(s: Store, e: Event): Store {
    match e
    case Request(user, now) =>
      if Sends(s, user, now) then
        s.(tokens := SpendAll(s.tokens, user, now) + [Token(user, now + TOKEN_TTL, None)])
      else s
    case Read(confirmation, token, now) =>
      if Readable(s, token, now) then
        s.(pending := s.pending[confirmation := Reading(token, s.users[s.tokens[token].user].login)])
      else s.(pending := s.pending - {confirmation})
    case Claim(confirmation, password, now) =>
      var done := s.(pending := s.pending - {confirmation});
      if !Changes(s, e) then done
      else
        var token := s.pending[confirmation].token;
        var user := s.tokens[token].user;
        done.(users := s.users[user := User(Cleared(s.users[user].login, s.pending[confirmation].seen), password)],
              tokens := SpendAll(s.tokens[token := s.tokens[token].(usedAt := Some(now))], user, now),
              keys := RevokeAll(s.keys, user, now))
    case Login(user, attempt, checked, recorded) =>
      if user < |s.users| then
        var row := s.users[user];
        var login := Lockout.AfterLogin(row.login, attempt == row.password, checked, recorded).0;
        s.(users := s.users[user := row.(login := login)])
      else s
    case CreateKey(user) => s.(keys := s.keys + [Key(user, None)])
    case RevokeKey(key, now) =>
      if key < |s.keys| then s.(keys := s.keys[key := s.keys[key].(revokedAt := Some(now))]) else s
    case SetActive(user, active) =>
      if user < |s.users| && s.users[user].login.active != active then
        var login := s.users[user].login;
        var next := if active then Lockout.Account(0, None, true) else login.(active := false);
        s.(users := s.users[user := s.users[user].(login := next)])
      else s
  }

  function After(s: Store, events: seq<Event>): Store {
    if events == [] then s else Next(After(s, events[..|events| - 1]), events[|events| - 1])
  }

  // ---------------------------------------------------------------- what every step keeps

  /** Rows are never removed; owners and expiry never change; spent stays spent, at the
      time it was; revoked stays revoked; confirmations point at tokens. */
  ghost predicate Extends(later: Store, s: Store) {
    && |later.users| == |s.users| && |s.tokens| <= |later.tokens| && |s.keys| <= |later.keys|
    && (forall t :: 0 <= t < |s.tokens| ==>
          && later.tokens[t].user == s.tokens[t].user && later.tokens[t].expiresAt == s.tokens[t].expiresAt
          && (s.tokens[t].usedAt.Some? ==> later.tokens[t].usedAt == s.tokens[t].usedAt))
    && (forall k :: 0 <= k < |s.keys| ==>
          && later.keys[k].user == s.keys[k].user
          && (s.keys[k].revokedAt.Some? ==> later.keys[k].revokedAt.Some?))
  }

  lemma StepExtends(s: Store, e: Event)
    requires Valid(s)
    ensures Valid(Next(s, e)) && Extends(Next(s, e), s)
  {
  }

  lemma {:induction false} RunExtends(s: Store, events: seq<Event>)
    requires Valid(s)
    ensures Valid(After(s, events)) && Extends(After(s, events), s)
    decreases |events|
  {
    if events != [] {
      var front := events[..|events| - 1];
      RunExtends(s, front);
      StepExtends(After(s, front), events[|events| - 1]);
    }
  }

  // ---------------------------------------------------------------- what a claim does

  /** A claim that changes the password closes the account: no unspent token and no
      unrevoked key; nothing of any other user changes. */
  lemma ClaimClosesTheAccount(s: Store, e: Event)
    requires Valid(s) && Changes(s, e)
    ensures var user, next := s.tokens[s.pending[e.confirmation].token].user, Next(s, e);
            && next.users[user].password == e.password
            && (forall t :: 0 <= t < |next.tokens| && next.tokens[t].user == user ==> next.tokens[t].usedAt.Some?)
            && (forall k :: 0 <= k < |next.keys| && next.keys[k].user == user ==> next.keys[k].revokedAt.Some?)
            && (forall t :: 0 <= t < |s.tokens| && s.tokens[t].user == user && s.tokens[t].usedAt.None? ==>
                  next.tokens[t].usedAt == Some(e.now))
            && (forall k :: 0 <= k < |s.keys| && s.keys[k].user == user && s.keys[k].revokedAt.None? ==>
                  next.keys[k].revokedAt == Some(e.now))
            && next.users[user].login.active == s.users[user].login.active
            && (forall u :: 0 <= u < |s.users| && u != user ==> next.users[u] == s.users[u])
            && (forall t :: 0 <= t < |s.tokens| && s.tokens[t].user != user ==> next.tokens[t] == s.tokens[t])
            && (forall k :: 0 <= k < |s.keys| && s.keys[k].user != user ==> next.keys[k] == s.keys[k])
  {
  }

  /** A password changes only by a claim of a token of that user. */
  lemma OnlyClaimsChangePasswords(s: Store, e: Event, user: nat)
    requires Valid(s) && user < |s.users|
    ensures Next(s, e).users[user].password != s.users[user].password ==>
              Changes(s, e) && s.tokens[s.pending[e.confirmation].token].user == user
  {
  }

  /** The password set by the last claim of a token of that user, or the one the run began with. */
  function LastSet(s: Store, events: seq<Event>, user: nat): nat
    requires user < |s.users|
  {
    if events == [] then s.users[user].password
    else
      var n := |events| - 1;
      var before := After(s, events[..n]);
      if Changes(before, events[n]) && before.tokens[before.pending[events[n].confirmation].token].user == user then
        events[n].password
      else LastSet(s, events[..n], user)
  }

  /** In any run no other event touches a password. */
  lemma {:induction false} PasswordIsTheLastSet(s: Store, events: seq<Event>, user: nat)
    requires Valid(s) && user < |s.users|
    ensures |After(s, events).users| == |s.users|
    ensures After(s, events).users[user].password == LastSet(s, events, user)
    decreases |events|
  {
    if events != [] {
      var n := |events| - 1;
      var before := After(s, events[..n]);
      PasswordIsTheLastSet(s, events[..n], user);
      RunExtends(s, events[..n]);
      StepExtends(before, events[n]);
      OnlyClaimsChangePasswords(before, events[n], user);
      if Changes(before, events[n]) {
        ClaimClosesTheAccount(before, events[n]);
      }
    }
  }

  // ---------------------------------------------------------------- single use

  predicate ChangesBy(s: Store, e: Event, token: nat) {
    Changes(s, e) && s.pending[e.confirmation].token == token
  }

  /** How often a token changes the password in a run. */
  function Uses(s: Store, events: seq<Event>, token: nat): nat {
    if events == [] then 0
    else
      var n := |events| - 1;
      Uses(s, events[..n], token) + if ChangesBy(After(s, events[..n]), events[n], token) then 1 else 0
  }

  /** Single use, over every interleaving: at most one change, and none once spent. */
  lemma {:induction false} TokensAreSingleUse(s: Store, events: seq<Event>, token: nat)
    requires Valid(s)
    ensures Uses(s, events, token) <= 1
    ensures Uses(s, events, token) == 1 ==>
              token < |After(s, events).tokens| && After(s, events).tokens[token].usedAt.Some?
    ensures token < |s.tokens| && s.tokens[token].usedAt.Some? ==> Uses(s, events, token) == 0
    decreases |events|
  {
    if events != [] {
      var n := |events| - 1;
      TokensAreSingleUse(s, events[..n], token);
      RunExtends(s, events[..n]);
      var before := After(s, events[..n]);
      StepExtends(before, events[n]);
      if ChangesBy(before, events[n], token) {
        ClaimClosesTheAccount(before, events[n]);
      }
    }
  }

  /** After a reset, for ever: no token that existed then is usable, no confirmation that
      was under way can still change the password, no key that existed then is live. */
  lemma AfterAReset(s: Store, e: Event, later: seq<Event>, token: nat, key: nat)
    requires Valid(s) && Changes(s, e)
    ensures var user, end := s.tokens[s.pending[e.confirmation].token].user, After(Next(s, e), later);
            && |s.tokens| <= |end.tokens| && |s.keys| <= |end.keys|
            && (token < |s.tokens| && s.tokens[token].user == user ==>
                  end.tokens[token].usedAt.Some? && Uses(Next(s, e), later, token) == 0)
            && (key < |s.keys| && s.keys[key].user == user ==> end.keys[key].revokedAt.Some?)
  {
    StepExtends(s, e);
    ClaimClosesTheAccount(s, e);
    RunExtends(Next(s, e), later);
    TokensAreSingleUse(Next(s, e), later, token);
  }

  // ---------------------------------------------------------------- keys

  /** The step revokes the key: by itself, or with all the keys of a user whose password it resets. */
  predicate Revokes(s: Store, e: Event, key: nat)
    requires key < |s.keys|
  {
    || (e.RevokeKey? && e.key == key)
    || (Changes(s, e) && s.tokens[s.pending[e.confirmation].token].user == s.keys[key].user)
  }

  ghost predicate NeverRevoked(s: Store, events: seq<Event>, key: nat)
    requires Valid(s) && key < |s.keys|
    decreases |events|
  {
    events == [] ||
      var n := |events| - 1;
      RunExtends(s, events[..n]);
      NeverRevoked(s, events[..n], key) && !Revokes(After(s, events[..n]), events[n], key)
  }

  lemma StepRevokesExactlyWhen(s: Store, e: Event, key: nat)
    requires Valid(s) && key < |s.keys|
    ensures key < |Next(s, e).keys|
    ensures Next(s, e).keys[key].revokedAt.None? <==> s.keys[key].revokedAt.None? && !Revokes(s, e, key)
  {
  }

  /** A key is live from its creation on until it is revoked by itself or its owner's password
      is reset, and no longer, over every run. */
  lemma {:induction false} KeyIsLiveExactlyWhen(s: Store, user: nat, events: seq<Event>)
    requires Valid(s)
    ensures var key, start := |s.keys|, Next(s, CreateKey(user));
            && key < |start.keys| && start.keys[key].user == user
            && key < |After(start, events).keys|
            && Valid(start)
            && (After(start, events).keys[key].revokedAt.None? <==> NeverRevoked(start, events, key))
    decreases |events|
  {
    var start := Next(s, CreateKey(user));
    StepExtends(s, CreateKey(user));
    if events != [] {
      var n := |events| - 1;
      KeyIsLiveExactlyWhen(s, user, events[..n]);
      RunExtends(start, events[..n]);
      StepRevokesExactlyWhen(After(start, events[..n]), events[n], |s.keys|);
    }
  }

  // ---------------------------------------------------------------- one link at a time

  ghost predicate OneUnspentEach(s: Store) {
    forall t, u :: 0 <= t < u < |s.tokens| && s.tokens[t].user == s.tokens[u].user ==>
      s.tokens[t].usedAt.Some? || s.tokens[u].usedAt.Some?
  }

  lemma StepKeepsOneUnspent(s: Store, e: Event)
    requires Valid(s) && OneUnspentEach(s)
    ensures OneUnspentEach(Next(s, e))
  {
    StepExtends(s, e);
  }

  /** At most one unspent token per user, in every state. */
  lemma {:induction false} RunKeepsOneUnspent(s: Store, events: seq<Event>)
    requires Valid(s) && OneUnspentEach(s)
    ensures OneUnspentEach(After(s, events))
    decreases |events|
  {
    if events != [] {
      var front := events[..|events| - 1];
      RunKeepsOneUnspent(s, front);
      RunExtends(s, front);
      StepKeepsOneUnspent(After(s, front), events[|events| - 1]);
    }
  }

  /** When the token of a given moment was issued. */
  function IssuedAt(token: Token): Instant {
    token.expiresAt - TOKEN_TTL
  }

  /** A link is sent exactly when the account is active and no unspent link of it was issued
      less than a minute before. */
  lemma SendsExactlyWhen(s: Store, user: nat, now: Instant)
    requires user < |s.users| && s.users[user].login.active
    ensures Sends(s, user, now)
       <==> forall t :: 0 <= t < |s.tokens| && s.tokens[t].user == user && s.tokens[t].usedAt.None? ==>
              IssuedAt(s.tokens[t]) + COOLDOWN <= now
  {
  }

  // ---------------------------------------------------------------- where a change comes from

  /** Step i of a run sent the link whose token is `token`. */
  predicate Sent(s: Store, events: seq<Event>, i: nat, token: nat)
    requires i < |events|
  {
    var before := After(s, events[..i]);
    events[i].Request? && Sends(before, events[i].user, events[i].now) && token == |before.tokens|
  }

  /** Step j of a run is a confirmation reading the token while it was usable. */
  predicate ReadBy(s: Store, events: seq<Event>, j: nat, confirmation: nat, token: nat)
    requires j < |events|
  {
    && events[j].Read? && events[j].confirmation == confirmation && events[j].token == token
    && Readable(After(s, events[..j]), token, events[j].now)
  }

  predicate ActiveAt(s: Store, events: seq<Event>, i: nat, user: nat)
    requires i <= |events|
  {
    user < |After(s, events[..i]).users| && After(s, events[..i]).users[user].login.active
  }

  lemma {:induction false} TokensWereSent(s: Store, events: seq<Event>, token: nat)
    requires Valid(s) && |s.tokens| <= token < |After(s, events).tokens|
    ensures exists i :: 0 <= i < |events| && Sent(s, events, i, token)
                        && After(s, events).tokens[token].user == events[i].user
                        && IssuedAt(After(s, events).tokens[token]) == events[i].now
    decreases |events|
  {
    var n := |events| - 1;
    var front := events[..n];
    RunExtends(s, front);
    StepExtends(After(s, front), events[n]);
    if token < |After(s, front).tokens| {
      TokensWereSent(s, front, token);
      var i :| 0 <= i < n && Sent(s, front, i, token) && After(s, front).tokens[token].user == front[i].user
               && IssuedAt(After(s, front).tokens[token]) == front[i].now;
      assert front[..i] == events[..i];
      assert Sent(s, events, i, token);
    } else {
      assert Sent(s, events, n, token);
    }
  }

  lemma {:induction false} PendingWereRead(s: Store, events: seq<Event>, confirmation: nat)
    requires s.pending == map[] && confirmation in After(s, events).pending
    ensures exists j :: 0 <= j < |events|
                        && ReadBy(s, events, j, confirmation, After(s, events).pending[confirmation].token)
    decreases |events|
  {
    if events != [] {
      var n := |events| - 1;
      var front := events[..n];
      if events[n].Read? && events[n].confirmation == confirmation {
        assert ReadBy(s, events, n, confirmation, After(s, events).pending[confirmation].token);
      } else {
        PendingWereRead(s, front, confirmation);
        var j :| 0 <= j < n && ReadBy(s, front, j, confirmation, After(s, front).pending[confirmation].token);
        assert front[..j] == events[..j];
        assert ReadBy(s, events, j, confirmation, After(s, events).pending[confirmation].token);
      }
    }
  }

  /** Links are sent to active users, and read for active users, unspent and in time. */
  lemma LinksNeedAnActiveUser(s: Store, events: seq<Event>, i: nat, confirmation: nat, token: nat)
    requires i < |events|
    ensures Sent(s, events, i, token) ==> ActiveAt(s, events, i, events[i].user)
    ensures ReadBy(s, events, i, confirmation, token) ==>
              var before := After(s, events[..i]);
              && token < |before.tokens| && ActiveAt(s, events, i, before.tokens[token].user)
              && before.tokens[token].usedAt.None? && events[i].now < before.tokens[token].expiresAt
  {
  }

  /** Every password change of a run goes back to a link sent to that user, read unspent
      within thirty minutes of being sent. */
  lemma EveryChangeHasItsLink(s: Store, events: seq<Event>, e: Event)
    requires Valid(s) && s.tokens == [] && s.pending == map[]
    requires Changes(After(s, events), e)
    ensures var end := After(s, events);
            var token := end.pending[e.confirmation].token;
            exists i, j :: 0 <= i < |events| && 0 <= j < |events|
                           && Sent(s, events, i, token) && events[i].user == end.tokens[token].user
                           && ReadBy(s, events, j, e.confirmation, token)
                           && events[j].now < events[i].now + 30 * 60 * 1_000_000
  {
    var end := After(s, events);
    var token := end.pending[e.confirmation].token;
    TokensWereSent(s, events, token);
    PendingWereRead(s, events, e.confirmation);
    var i :| 0 <= i < |events| && Sent(s, events, i, token) && end.tokens[token].user == events[i].user
             && IssuedAt(end.tokens[token]) == events[i].now;
    var j :| 0 <= j < |events| && ReadBy(s, events, j, e.confirmation, token);
    ExpiryIsKept(s, events, j, token);
  }

  lemma {:induction false} RunsConcatenate(s: Store, a: seq<Event>, b: seq<Event>)
    ensures After(s, a + b) == After(After(s, a), b)
    decreases |b|
  {
    if b == [] {
      assert a + b == a;
    } else {
      var n := |b| - 1;
      RunsConcatenate(s, a, b[..n]);
      assert (a + b)[..|a| + n] == a + b[..n];
    }
  }

  lemma ExpiryIsKept(s: Store, events: seq<Event>, j: nat, token: nat)
    requires Valid(s) && j <= |events| && token < |After(s, events[..j]).tokens|
    ensures token < |After(s, events).tokens|
    ensures After(s, events).tokens[token].expiresAt == After(s, events[..j]).tokens[token].expiresAt
    ensures After(s, events).tokens[token].user == After(s, events[..j]).tokens[token].user
  {
    RunExtends(s, events[..j]);
    RunExtends(After(s, events[..j]), events[j..]);
    RunsConcatenate(s, events[..j], events[j..]);
    assert events[..j] + events[j..] == events;
  }

  /** Over any run, of two links sent to one account the second comes at least a minute
      after the first, unless the first was spent before it. */
  lemma LinksAreAMinuteApart(s: Store, events: seq<Event>, i: nat, j: nat, token: nat)
    requires Valid(s) && i < j < |events| && Sent(s, events, i, token)
    requires events[j].Request? && events[j].user == events[i].user
    requires Sends(After(s, events[..j]), events[j].user, events[j].now)
    ensures token < |After(s, events[..j]).tokens|
    ensures After(s, events[..j]).tokens[token].usedAt.Some? || events[i].now + 60 * 1_000_000 <= events[j].now
  {
    var upto := events[..j];
    assert upto[..i + 1] == events[..i + 1] && upto[..i + 1][..i] == events[..i];
    assert After(s, upto[..i + 1]).tokens[token] == Token(events[i].user, events[i].now + TOKEN_TTL, None);
    ExpiryIsKept(s, upto, i + 1, token);
    SendsExactlyWhen(After(s, upto), events[j].user, events[j].now);
  }

  // ---------------------------------------------------------------- logins in the store

  /** What a step of the store is to the login columns of one user, but for activation. */
  function AsLogin(s: Store, e: Event, user: nat): seq<Lockout.Event>
    requires user < |s.users|
  {
    if e.Login? && e.user == user then
      [Lockout.Login(e.attempt == s.users[user].password, e.checked, e.recorded)]
    else if e.SetActive? && e.user == user && !e.active && s.users[user].login.active then [Lockout.Deactivate]
    else []
  }

  lemma StepFollowsLockout(s: Store, e: Event, user: nat)
    requires Valid(s) && user < |s.users|
    requires !(Changes(s, e) && s.tokens[s.pending[e.confirmation].token].user == user)
    requires !(e.SetActive? && e.user == user && e.active)
    ensures user < |Next(s, e).users|
    ensures var step, login := AsLogin(s, e, user), s.users[user].login;
            Next(s, e).users[user].login == if step == [] then login else Lockout.Next(login, step[0])
  {
  }

  /** Activating an account that was not active starts its login columns afresh; deactivating
      leaves counter and lock. */
  lemma ActivationStartsAfresh(s: Store, user: nat, active: bool)
    requires user < |s.users| && s.users[user].login.active != active
    ensures var before, after := s.users[user].login, Next(s, SetActive(user, active)).users[user].login;
            && after.active == active
            && (if active then after == Lockout.NEW_ACCOUNT
                else after.failed == before.failed && after.lockedUntil == before.lockedUntil)
  {
  }

  function Logins(s: Store, events: seq<Event>, user: nat): seq<Lockout.Event>
    requires Valid(s) && user < |s.users|
    decreases |events|
  {
    if events == [] then []
    else
      var n := |events| - 1;
      RunExtends(s, events[..n]);
      Logins(s, events[..n], user) + AsLogin(After(s, events[..n]), events[n], user)
  }

  /** No step of the run resets the user's password or activates the user. */
  ghost predicate NoReset(s: Store, events: seq<Event>, user: nat)
    requires Valid(s) && user < |s.users|
    decreases |events|
  {
    events == [] ||
      var n := |events| - 1;
      var before := After(s, events[..n]);
      && NoReset(s, events[..n], user)
      && !(Changes(before, events[n]) && before.tokens[before.pending[events[n].confirmation].token].user == user)
      && !(events[n].SetActive? && events[n].user == user && events[n].active)
  }

  lemma OneLoginMore(a: Lockout.Account, so: seq<Lockout.Event>, step: seq<Lockout.Event>)
    requires |step| <= 1
    ensures Lockout.After(a, so + step)
         == if step == [] then Lockout.After(a, so) else Lockout.Next(Lockout.After(a, so), step[0])
  {
    if step == [] {
      assert so + step == so;
    } else {
      assert (so + step)[..|so|] == so;
    }
  }

  /** Between resets, the login columns of a user live as Lockout says, whatever else goes on in
      the store: so its laws of counting and spacing hold of them. */
  lemma {:induction false} LoginsFollowLockout(s: Store, events: seq<Event>, user: nat)
    requires Valid(s) && user < |s.users| && NoReset(s, events, user)
    ensures user < |After(s, events).users|
    ensures After(s, events).users[user].login == Lockout.After(s.users[user].login, Logins(s, events, user))
    decreases |events|
  {
    if events != [] {
      var n := |events| - 1;
      var before, so := After(s, events[..n]), Logins(s, events[..n], user);
      RunExtends(s, events[..n]);
      LoginsFollowLockout(s, events[..n], user);
      StepFollowsLockout(before, events[n], user);
      OneLoginMore(s.users[user].login, so, AsLogin(before, events[n], user));
    }
  }

  // ---------------------------------------------------------------- the lock

  /** The event is a step of the confirmation. */
  predicate IsOf(e: Event, confirmation: nat) {
    (e.Read? || e.Claim?) && e.confirmation == confirmation
  }

  lemma {:induction false} PendingStays(s: Store, others: seq<Event>, confirmation: nat)
    requires confirmation in s.pending && forall i :: 0 <= i < |others| ==> !IsOf(others[i], confirmation)
    ensures confirmation in After(s, others).pending
    ensures After(s, others).pending[confirmation] == s.pending[confirmation]
  {
    if others != [] {
      PendingStays(s, others[..|others| - 1], confirmation);
    }
  }

  /** Whether a reset leaves the account without a lock, with anything in between its read
      and its claim: it does if and only if the lock column was set when it was read, be the
      lock expired or not, or is empty when the token is claimed. The same for the counter. */
  lemma ResetUnlocksExactlyWhen(s: Store, token: nat, readAt: Instant, confirmation: nat, others: seq<Event>, e: Event)
    requires Valid(s) && Readable(s, token, readAt)
    requires forall i :: 0 <= i < |others| ==> !IsOf(others[i], confirmation)
    requires e.Claim? && e.confirmation == confirmation
    requires Changes(After(Next(s, Read(confirmation, token, readAt)), others), e)
    ensures var user := s.tokens[token].user;
            var before := After(Next(s, Read(confirmation, token, readAt)), others);
            var after := Next(before, e);
            && user < |before.users| && user < |after.users| && after.users[user].password == e.password
            && (after.users[user].login.lockedUntil.None? <==>
                  s.users[user].login.lockedUntil.Some? || before.users[user].login.lockedUntil.None?)
            && (after.users[user].login.failed == 0 <==>
                  s.users[user].login.failed != 0 || before.users[user].login.failed == 0)
  {
    var start := Next(s, Read(confirmation, token, readAt));
    StepExtends(s, Read(confirmation, token, readAt));
    PendingStays(start, others, confirmation);
    RunExtends(start, others);
  }

  function WrongLogins(n: nat): seq<Event> {
    if n == 0 then [] else WrongLogins(n - 1) + [Login(0, 8, 2, 2)]
  }

  lemma {:induction false} WrongLoginsCount(s: Store, n: nat)
    requires n <= 5 && |s.users| == 1 && s.users[0] == User(Lockout.NEW_ACCOUNT, 7)
    ensures After(s, WrongLogins(n))
         == s.(users := [User(Lockout.Account(n, Lockout.LockoutUntil(n, 2), true), 7)])
  {
    if n > 0 {
      WrongLoginsCount(s, n - 1);
      assert WrongLogins(n)[..|WrongLogins(n)| - 1] == WrongLogins(n - 1);
    } else {
      assert s.users == [s.users[0]];
    }
  }

  /** The lock can survive a reset: five wrong passwords between its read and its claim lock
      an account that was not locked when it was read. */
  lemma LockCanSurviveAReset()
    ensures var s := Store([User(Lockout.NEW_ACCOUNT, 7)], [Token(0, TOKEN_TTL, None)], [], map[]);
            var end := Next(After(Next(s, Read(0, 0, 1)), WrongLogins(5)), Claim(0, 9, 3));
            && Valid(s) && Readable(s, 0, 1)
            && end.users == [User(Lockout.Account(5, Some(2 + Lockout.LockTime(5)), true), 9)]
  {
    var s := Store([User(Lockout.NEW_ACCOUNT, 7)], [Token(0, TOKEN_TTL, None)], [], map[]);
    WrongLoginsCount(Next(s, Read(0, 0, 1)), 5);
  }
}
