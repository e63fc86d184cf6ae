/** The endpoints of routers/auth.py that work on reset tokens, over mutable tables. */
module AccountStore {
  import opened Prelude
  import opened PasswordReset
  import Lockout

  datatype Failure = InvalidLink | ExpiredLink

  class Tables {
    var users: seq<User>
    var tokens: seq<Token>
    var keys: seq<Key>
    // The local variable of each confirmation under way.
    var pending: map<nat, Reading>

    function Value(): Store
      reads this
    {
      Store(users, tokens, keys, pending)
    }

    constructor (accounts: seq<User>)
      ensures Value() == Store(accounts, [], [], map[])
    {
      users, tokens, keys, pending := accounts, [], [], map[];
    }

    /** request_password_reset. */
    method RequestPasswordReset(user: nat, now: Instant) returns (sent: bool)
      modifies this
      ensures sent == Sends(old(Value()), user, now)
      ensures Value() == Next(old(Value()), Request(user, now))
    {
      sent := user < |users| && users[user].login.active && !RequestedRecently(tokens, user, now);
      if sent {
        tokens := SpendAll(tokens, user, now);
        tokens := tokens + [Token(user, now + TOKEN_TTL, None)];
      }
    }

    /** confirm_password_reset up to the claim. */
    method ReadResetToken(token: nat, now: Instant, confirmation: nat) returns (r: Result<Reading, Failure>)
      modifies this`pending
      ensures Value() == Next(old(Value()), Read(confirmation, token, now))
      ensures r.Ok? <==> Readable(old(Value()), token, now)
      ensures r.Ok? <==> token < |tokens| && tokens[token].usedAt.None? && now < tokens[token].expiresAt
                         && tokens[token].user < |users| && users[tokens[token].user].login.active
      ensures r.Ok? ==> r.value.seen == users[tokens[token].user].login
      ensures r.Ok? ==> confirmation in pending && pending[confirmation] == r.value && r.value.token == token
    {
      pending := pending - {confirmation};
      if token >= |tokens| || tokens[token].usedAt.Some? {
        return Err(InvalidLink);
      }
      if tokens[token].expiresAt <= now {
        return Err(ExpiredLink);
      }
      var user := tokens[token].user;
      if user >= |users| || !users[user].login.active {
        return Err(InvalidLink);
      }
      var reading := Reading(token, users[user].login);
      pending := pending[confirmation := reading];
      return Ok(reading);
    }

    /** confirm_password_reset from the guarded update on. */
    method ClaimResetToken(reading: Reading, password: nat, now: Instant, confirmation: nat) returns (claimed: bool)
      requires Valid(Value()) && confirmation in pending && pending[confirmation] == reading
      modifies this
      ensures claimed == Changes(old(Value()), Claim(confirmation, password, now))
      ensures Value() == Next(old(Value()), Claim(confirmation, password, now))
    {
      var token := reading.token;
      pending := pending - {confirmation};
      if tokens[token].usedAt.Some? {
        return false;
      }
      tokens := tokens[token := tokens[token].(usedAt := Some(now))];
      var user := tokens[token].user;
      var login := users[user].login;
      if reading.seen.failed != 0 {
        login := login.(failed := 0);
      }
      if reading.seen.lockedUntil.Some? {
        login := login.(lockedUntil := None);
      }
      users := users[user := User(login, password)];
      keys := RevokeAll(keys, user, now);
      tokens := SpendAll(tokens, user, now);
      return true;
    }

    /** login, for an address that has an account. */
    method LogIn(user: nat, attempt: nat, checked: Instant, recorded: Instant) returns (reply: Lockout.Reply)
      requires user < |users|
      modifies this`users
      ensures Value() == Next(old(Value()), Login(user, attempt, checked, recorded))
      ensures reply == Lockout.AfterLogin(old(users)[user].login, attempt == old(users)[user].password, checked,
                                          recorded).1
    {
      var row := new Lockout.User.Loaded(users[user].login);
      reply := row.Login(attempt == users[user].password, checked, recorded);
      users := users[user := users[user].(login := row.Value())];
    }

    /** What the other requests do in between. */
    method Interfere(others: seq<Event>)
      requires Valid(Value())
      modifies this
      ensures Value() == After(old(Value()), others)
      ensures Valid(Value())
    {
      RunExtends(Value(), others);
      var later := After(Value(), others);
      users, tokens, keys, pending := later.users, later.tokens, later.keys, later.pending;
    }

    /** confirm_password_reset, with whatever other requests do between its read and its
        claim. The run it makes is one of the runs of the store, and it reports success
        exactly when its claim changed the password. */
    method ConfirmPasswordReset(token: nat, password: nat, readAt: Instant, claimAt: Instant, confirmation: nat,
                                others: seq<Event>)
      returns (r: Result<nat, Failure>)
      requires Valid(Value())
      requires forall i :: 0 <= i < |others| ==> !IsOf(others[i], confirmation)
      modifies this
      ensures Valid(Value())
      ensures !Readable(old(Value()), token, readAt) ==>
                r.Err? && Value() == After(old(Value()), [Read(confirmation, token, readAt)])
      ensures Readable(old(Value()), token, readAt) ==>
                && Value() == After(old(Value()), ConfirmRun(token, password, readAt, claimAt, confirmation, others))
                && var all := ConfirmRun(token, password, readAt, claimAt, confirmation, others);
                   r.Ok? == (Uses(old(Value()), all, token) == Uses(old(Value()), all[..|all| - 1], token) + 1)
      ensures r.Ok? ==> r.value < |users| && users[r.value].password == password
    {
      ghost var s := Value();
      ghost var reading := [Read(confirmation, token, readAt)];
      var read := ReadResetToken(token, readAt, confirmation);
      StepExtends(s, reading[0]);
      assert reading[..0] == [] && After(s, reading) == Value();
      if read.Err? {
        return Err(read.error);
      }
      PendingStays(Value(), others, confirmation);
      RunsConcatenate(s, reading, others);
      Interfere(others);
      ghost var before := Value();
      var claim := Claim(confirmation, password, claimAt);
      assert (reading + others + [claim])[..|others| + 1] == reading + others;
      StepExtends(before, claim);
      var user := tokens[token].user;
      var claimed := ClaimResetToken(read.value, password, claimAt, confirmation);
      return if claimed then Ok(user) else Err(InvalidLink);
    }
  }

  function ConfirmRun(token: nat, password: nat, readAt: Instant, claimAt: Instant, confirmation: nat,
                      others: seq<Event>): seq<Event> {
    [Read(confirmation, token, readAt)] + others + [Claim(confirmation, password, claimAt)]
  }
}
