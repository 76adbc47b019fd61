/**
 Refresh-token rotation: a refresh reads the token, then revokes it by a conditional update and issues
 a successor. Reads and writes of any number of clients interleave with logins and logouts.
 */
module RefreshTokens {
  import opened Options
  import opened Sums

  /** session is not a column: it is the number of the login's first token, inherited by successors. */
  datatype Token = Token(user: nat, revoked: bool, expiresAt: int, session: nat)

  /** enabled: active, verified and of an active tenant. */
  datatype Account = Account(enabled: bool, failedLogins: nat, lockedUntil: Option<int>)

  const MAX_FAILURES := 5
  const LOCK_TIME := 15 * 60 * 1000

  datatype Auth = Auth(accounts: seq<Account>, tokens: seq<Token>)

  // ---------------------------------------------------------------- single requests

  predicate CanLogin(y: Auth, u: nat, valid: bool, now: int) {
    && u < |y.accounts| && y.accounts[u].enabled
    && !(y.accounts[u].lockedUntil.Some? && now < y.accounts[u].lockedUntil.value)
    && valid
  }

  /** login; valid says whether the password verified. */
  function Login(y: Auth, u: nat, valid: bool, now: int, expiresAt: int): Auth {
    if CanLogin(y, u, valid, now) then
      y.(accounts := y.accounts[u := y.accounts[u].(failedLogins := 0, lockedUntil := None)],
         tokens := y.tokens + [Token(u, false, expiresAt, |y.tokens|)])
    else if CanLogin(y, u, true, now) then
      var failed := y.accounts[u].failedLogins + 1;
      y.(accounts := y.accounts[u := y.accounts[u].(failedLogins := failed,
                                  lockedUntil := if failed >= MAX_FAILURES then Some(now + LOCK_TIME) else None)])
    else y
  }

  /** The checks of refreshAccessToken on the token it read. */
  predicate Refreshable(y: Auth, t: nat, now: int) {
    && t < |y.tokens| && !y.tokens[t].revoked && now <= y.tokens[t].expiresAt
    && y.tokens[t].user < |y.accounts| && y.accounts[y.tokens[t].user].enabled
  }

  predicate Wins(y: Auth, t: nat, now: int) {
    t < |y.tokens| && !y.tokens[t].revoked && y.tokens[t].expiresAt > now
  }

  /** The conditional revocation and the new token; nothing when the condition no longer holds. */
  function Rotate(y: Auth, t: nat, now: int, expiresAt: int): Auth {
    if Wins(y, t, now) then
      y.(tokens := y.tokens[t := y.tokens[t].(revoked := true)] +
                   [Token(y.tokens[t].user, false, expiresAt, y.tokens[t].session)])
    else y
  }

  function Logout(y: Auth, t: nat): Auth {
    if t < |y.tokens| then y.(tokens := y.tokens[t := y.tokens[t].(revoked := true)]) else y
  }

  function RevokeOf(tokens: seq<Token>, u: nat): seq<Token> {
    seq(|tokens|, i requires 0 <= i < |tokens| =>
      if tokens[i].user == u then tokens[i].(revoked := true) else tokens[i])
  }

  function LogoutAll(y: Auth, u: nat): Auth { y.(tokens := RevokeOf(y.tokens, u)) }

  class AuthService {
    var accounts: seq<Account>
    var tokens: seq<Token>

    ghost function State(): Auth
      reads this
    {
      Auth(accounts, tokens)
    }

    constructor (accounts: seq<Account>)
      ensures State() == Auth(accounts, [])
    {
      this.accounts, tokens := accounts, [];
    }

    method SignIn(u: nat, valid: bool, now: int, expiresAt: int) returns (issued: bool)
      modifies this
      ensures State() == Login(old(State()), u, valid, now, expiresAt)
      ensures issued <==> CanLogin(old(State()), u, valid, now)
    {
      if u >= |accounts| || !accounts[u].enabled {
        return false;
      }
      var account := accounts[u];
      if account.lockedUntil.Some? && now < account.lockedUntil.value {
        return false;
      }
      if !valid {
        var failed := account.failedLogins + 1;
        var until := if failed >= MAX_FAILURES then Some(now + LOCK_TIME) else None;
        accounts := accounts[u := account.(failedLogins := failed, lockedUntil := until)];
        return false;
      }
      accounts := accounts[u := account.(failedLogins := 0, lockedUntil := None)];
      tokens := tokens + [Token(u, false, expiresAt, |tokens|)];
      return true;
    }

    /** One refresh with nothing in between its read and its write. */
    method Refresh(t: nat, now: int, later: int, expiresAt: int) returns (issued: bool)
      modifies this
      ensures issued <==> Refreshable(old(State()), t, now) && Wins(old(State()), t, later)
      ensures State() ==
                if Refreshable(old(State()), t, now) then Rotate(old(State()), t, later, expiresAt) else old(State())
    {
      if t >= |tokens| || tokens[t].revoked || now > tokens[t].expiresAt {
        return false;
      }
      var stored := tokens[t];
      if stored.user >= |accounts| || !accounts[stored.user].enabled {
        return false;
      }
      if stored.expiresAt <= later {
        return false;
      }
      tokens := tokens[t := stored.(revoked := true)];
      tokens := tokens + [Token(stored.user, false, expiresAt, stored.session)];
      return true;
    }

    method SignOut(t: nat)
      modifies this
      ensures State() == Logout(old(State()), t)
    {
      if t < |tokens| {
        tokens := tokens[t := tokens[t].(revoked := true)];
      }
    }

    method SignOutEverywhere(u: nat)
      modifies this
      ensures State() == LogoutAll(old(State()), u)
    {
      tokens := RevokeOf(tokens, u);
    }
  }

  // ---------------------------------------------------------------- interleavings

  datatype System = System(auth: Auth, reading: map<nat, nat>)

  datatype Event =
    | SignIn(user: nat, valid: bool, now: int, expiresAt: int)
    | RefreshRead(client: nat, token: nat, now: int)
    | RefreshWrite(client: nat, now: int, expiresAt: int)
    | SignOut(token: nat)
    | SignOutAll(user: nat)

  function Next(y: System, e: Event): System {
    match e
    case SignIn(u, valid, now, expiresAt) => y.(auth := Login(y.auth, u, valid, now, expiresAt))
    case RefreshRead(c, t, now) =>
      y.(reading := if Refreshable(y.auth, t, now) then y.reading[c := t] else y.reading - {c})
    case RefreshWrite(c, now, expiresAt) =>
      if c !in y.reading then y else System(Rotate(y.auth, y.reading[c], now, expiresAt), y.reading - {c})
    case SignOut(t) => y.(auth := Logout(y.auth, t))
    case SignOutAll(u) => y.(auth := LogoutAll(y.auth, u))
  }

  function Trace(y: System, events: seq<Event>): System
  {
    if events == [] then y else Next(Trace(y, events[..|events| - 1]), events[|events| - 1])
  }

  // ---------------------------------------------------------------- what each event does

  /**
   A login of an enabled account that is not locked: with the right password it clears the failures and
   adds a live token of that user; with a wrong one it counts the failure, and from the fifth on locks the
   account for 15 minutes. Any other login changes nothing.
   */
  lemma SignInDoes(y: System, u: nat, valid: bool, now: int, expiresAt: int)
    ensures var y' := Next(y, SignIn(u, valid, now, expiresAt));
            && y'.reading == y.reading
            && if u < |y.auth.accounts| && y.auth.accounts[u].enabled
                  && (y.auth.accounts[u].lockedUntil == None || y.auth.accounts[u].lockedUntil.value <= now)
               then
                 var failed := y.auth.accounts[u].failedLogins + 1;
                 if valid then
                   && y'.auth.accounts == y.auth.accounts[u := Account(true, 0, None)]
                   && y'.auth.tokens == y.auth.tokens + [Token(u, false, expiresAt, |y.auth.tokens|)]
                 else
                   && y'.auth.accounts ==
                        y.auth.accounts[u := Account(true, failed, if failed >= 5 then Some(now + 15 * 60 * 1000)
                                                     else None)]
                   && y'.auth.tokens == y.auth.tokens
               else y' == y
    ensures LogsInNow(y, SignIn(u, valid, now, expiresAt), u) <==>
              && valid && u < |y.auth.accounts| && y.auth.accounts[u].enabled
              && (y.auth.accounts[u].lockedUntil == None || y.auth.accounts[u].lockedUntil.value <= now)
  {
  }

  /** A refresh goes on exactly with a live token that has not expired, of an enabled account. */
  lemma RefreshReadDoes(y: System, c: nat, t: nat, now: int)
    ensures var y' := Next(y, RefreshRead(c, t, now));
            && y'.auth == y.auth
            && y'.reading ==
                 if t < |y.auth.tokens| && !y.auth.tokens[t].revoked && now <= y.auth.tokens[t].expiresAt
                    && y.auth.tokens[t].user < |y.auth.accounts| && y.auth.accounts[y.auth.tokens[t].user].enabled
                 then y.reading[c := t] else y.reading - {c}
  {
  }

  /**
   The write revokes the token and adds a live one of the same user exactly when the token is still live
   and not expired; otherwise it changes no table.
   */
  lemma RefreshWriteDoes(y: System, c: nat, now: int, expiresAt: int)
    requires c in y.reading
    ensures var y', t := Next(y, RefreshWrite(c, now, expiresAt)), y.reading[c];
            && y'.reading == y.reading - {c} && y'.auth.accounts == y.auth.accounts
            && if t < |y.auth.tokens| && !y.auth.tokens[t].revoked && now < y.auth.tokens[t].expiresAt
               then
                 var was := y.auth.tokens[t];
                 y'.auth.tokens == y.auth.tokens[t := Token(was.user, true, was.expiresAt, was.session)] +
                                   [Token(was.user, false, expiresAt, was.session)]
               else y'.auth.tokens == y.auth.tokens
  {
  }

  /** A logout revokes the given token and nothing else; a logout everywhere exactly the user's tokens. */
  lemma SignOutDoes(y: System, t: nat, u: nat)
    ensures var y' := Next(y, SignOut(t));
            && y'.reading == y.reading && y'.auth.accounts == y.auth.accounts && |y'.auth.tokens| == |y.auth.tokens|
            && forall i :: 0 <= i < |y.auth.tokens| ==>
                 y'.auth.tokens[i] == y.auth.tokens[i].(revoked := i == t || y.auth.tokens[i].revoked)
    ensures var y' := Next(y, SignOutAll(u));
            && y'.reading == y.reading && y'.auth.accounts == y.auth.accounts && |y'.auth.tokens| == |y.auth.tokens|
            && forall i :: 0 <= i < |y.auth.tokens| ==>
                 y'.auth.tokens[i] == y.auth.tokens[i].(revoked := y.auth.tokens[i].user == u
                                                        || y.auth.tokens[i].revoked)
  {
  }

  /** The method Refresh, with nothing between its read and its write, is these two events. */
  lemma RefreshIsTwoEvents(y: System, c: nat, t: nat, now: int, later: int, expiresAt: int)
    ensures Trace(y, [RefreshRead(c, t, now), RefreshWrite(c, later, expiresAt)]).auth ==
            if Refreshable(y.auth, t, now) then Rotate(y.auth, t, later, expiresAt) else y.auth
  {
    var events := [RefreshRead(c, t, now), RefreshWrite(c, later, expiresAt)];
    assert events[..1] == [RefreshRead(c, t, now)] && events[..1][..0] == [];
    assert Trace(y, events[..1]) == Next(y, RefreshRead(c, t, now));
  }

  /** Did this event redeem token t? */
  predicate RedeemsNow(y: System, e: Event, t: nat) {
    e.RefreshWrite? && e.client in y.reading && y.reading[e.client] == t && Wins(y.auth, t, e.now)
  }

  predicate LogsInNow(y: System, e: Event, u: nat) {
    e.SignIn? && e.user == u && CanLogin(y.auth, u, e.valid, e.now)
  }

  function Redeemed(y: System, events: seq<Event>, t: nat): nat
  {
    if events == [] then 0
    else
      Redeemed(y, events[..|events| - 1], t) +
      if RedeemsNow(Trace(y, events[..|events| - 1]), events[|events| - 1], t) then 1 else 0
  }

  function Logins(y: System, events: seq<Event>, u: nat): nat
  {
    if events == [] then 0
    else
      Logins(y, events[..|events| - 1], u) +
      if LogsInNow(Trace(y, events[..|events| - 1]), events[|events| - 1], u) then 1 else 0
  }

  function LiveOf(u: nat): Token -> int { (t: Token) => if t.user == u && !t.revoked then 1 else 0 }

  ghost predicate KeepsUser(tokens: seq<Token>, i: nat)
    requires i < |tokens|
  {
    tokens[i].session < |tokens| && tokens[tokens[i].session].user == tokens[i].user
  }

  /** Sessions never have two live tokens, and never switch users. */
  ghost predicate OnePerSession(tokens: seq<Token>) {
    && (forall i :: 0 <= i < |tokens| ==> KeepsUser(tokens, i))
    && (forall i, j :: 0 <= i < j < |tokens| && !tokens[i].revoked && !tokens[j].revoked ==>
        tokens[i].session != tokens[j].session)
  }

  /** Tokens are kept, and what is revoked stays revoked. */
  ghost predicate Kept(a: seq<Token>, b: seq<Token>) {
    |a| <= |b| && forall i :: 0 <= i < |a| ==>
      b[i].user == a[i].user && b[i].session == a[i].session && (a[i].revoked ==> b[i].revoked)
  }

  lemma LoginKeeps(y: Auth, u: nat, valid: bool, now: int, expiresAt: int)
    requires OnePerSession(y.tokens)
    ensures OnePerSession(Login(y, u, valid, now, expiresAt).tokens)
            && Kept(y.tokens, Login(y, u, valid, now, expiresAt).tokens)
  {
    var tokens' := Login(y, u, valid, now, expiresAt).tokens;
    forall i | 0 <= i < |tokens'|
      ensures KeepsUser(tokens', i)
    {
      assert i < |y.tokens| ==> KeepsUser(y.tokens, i);
    }
    forall i | 0 <= i < |y.tokens|
      ensures y.tokens[i].session < |y.tokens|
    {
      assert KeepsUser(y.tokens, i);
    }
  }

  lemma RotateKeeps(y: Auth, t: nat, now: int, expiresAt: int)
    requires OnePerSession(y.tokens)
    ensures OnePerSession(Rotate(y, t, now, expiresAt).tokens) && Kept(y.tokens, Rotate(y, t, now, expiresAt).tokens)
    ensures Wins(y, t, now) ==> !y.tokens[t].revoked && Rotate(y, t, now, expiresAt).tokens[t].revoked
  {
    if Wins(y, t, now) {
      var tokens, tokens' := y.tokens, Rotate(y, t, now, expiresAt).tokens;
      forall i | 0 <= i < |tokens'|
        ensures KeepsUser(tokens', i)
      {
        assert KeepsUser(tokens, if i < |tokens| then i else t);
      }
      forall i, j | 0 <= i < j < |tokens'| && !tokens'[i].revoked && !tokens'[j].revoked
        ensures tokens'[i].session != tokens'[j].session
      {
        assert i != t && j != t;
        if j == |tokens| {
          assert tokens[i].session != tokens[t].session;
        }
      }
    }
  }

  /** Revoking more tokens keeps sessions single. */
  lemma RevokingKeeps(tokens: seq<Token>, tokens': seq<Token>)
    requires OnePerSession(tokens) && |tokens| == |tokens'|
    requires forall i :: 0 <= i < |tokens| ==> tokens'[i] == tokens[i] || tokens'[i] == tokens[i].(revoked := true)
    ensures OnePerSession(tokens') && Kept(tokens, tokens')
  {
    forall i | 0 <= i < |tokens'|
      ensures KeepsUser(tokens', i)
    {
      assert KeepsUser(tokens, i);
    }
    forall i, j | 0 <= i < j < |tokens'| && !tokens'[i].revoked && !tokens'[j].revoked
      ensures tokens'[i].session != tokens'[j].session
    {
      assert !tokens[i].revoked && !tokens[j].revoked;
    }
  }

  lemma NextKeeps(y: System, e: Event)
    requires OnePerSession(y.auth.tokens)
    ensures OnePerSession(Next(y, e).auth.tokens)
    ensures Kept(y.auth.tokens, Next(y, e).auth.tokens)
    ensures forall t: nat :: RedeemsNow(y, e, t) ==>
              t < |y.auth.tokens| && !y.auth.tokens[t].revoked && Next(y, e).auth.tokens[t].revoked
  {
    hide OnePerSession, Kept;
    match e
    case SignIn(u, valid, now, expiresAt) => LoginKeeps(y.auth, u, valid, now, expiresAt);
    case RefreshRead(_, _, _) => KeptSame(y.auth.tokens);
    case RefreshWrite(c, now, expiresAt) =>
      KeptSame(y.auth.tokens);
      if c in y.reading {
        RotateKeeps(y.auth, y.reading[c], now, expiresAt);
      }
    case SignOut(t) => RevokingKeeps(y.auth.tokens, Logout(y.auth, t).tokens);
    case SignOutAll(u) => RevokingKeeps(y.auth.tokens, RevokeOf(y.auth.tokens, u));
  }

  lemma {:induction false} SumLower(s: seq<Token>, t: seq<Token>, f: Token -> int)
    requires |s| == |t| && forall i :: 0 <= i < |s| ==> f(t[i]) <= f(s[i])
    ensures SumBy(t, f) <= SumBy(s, f)
    decreases |s|
  {
    if s != [] {
      SumLower(s[..|s| - 1], t[..|t| - 1], f);
    }
  }

  /** Only a login adds to a user's live tokens: a rotation takes one away for the one it adds. */
  lemma NextLive(y: System, e: Event, u: nat)
    ensures SumBy(Next(y, e).auth.tokens, LiveOf(u)) <=
              SumBy(y.auth.tokens, LiveOf(u)) + if LogsInNow(y, e, u) then 1 else 0
  {
    hide SumBy;
    var tokens, tokens', f := y.auth.tokens, Next(y, e).auth.tokens, LiveOf(u);
    match e
    case SignIn(x, valid, now, expiresAt) =>
      if CanLogin(y.auth, x, valid, now) {
        SumAppend(tokens, Token(x, false, expiresAt, |tokens|), f);
      }
    case RefreshRead(_, _, _) =>
    case RefreshWrite(c, now, expiresAt) =>
      if c in y.reading && Wins(y.auth, y.reading[c], now) {
        var t := y.reading[c];
        SumUpdate(tokens, t, tokens[t].(revoked := true), f);
        SumAppend(tokens[t := tokens[t].(revoked := true)],
                  Token(tokens[t].user, false, expiresAt, tokens[t].session), f);
      }
    case SignOut(t) =>
      if t < |tokens| {
        SumUpdate(tokens, t, tokens[t].(revoked := true), f);
      }
    case SignOutAll(x) => SumLower(tokens, tokens', f);
  }

  lemma KeptTransitive(a: seq<Token>, b: seq<Token>, c: seq<Token>)
    requires Kept(a, b) && Kept(b, c)
    ensures Kept(a, c)
  {
  }

  /** Over any interleaving: sessions keep at most one live token, and revocation is never undone. */
  lemma {:induction false} TraceKeeps(y: System, events: seq<Event>)
    requires OnePerSession(y.auth.tokens)
    ensures OnePerSession(Trace(y, events).auth.tokens)
    ensures Kept(y.auth.tokens, Trace(y, events).auth.tokens)
    decreases |events|
  {
    hide OnePerSession, Next, Kept;
    if events != [] {
      var before := Trace(y, events[..|events| - 1]);
      TraceKeeps(y, events[..|events| - 1]);
      NextKeeps(before, events[|events| - 1]);
      KeptTransitive(y.auth.tokens, before.auth.tokens, Trace(y, events).auth.tokens);
    } else {
      KeptSame(y.auth.tokens);
    }
  }

  lemma KeptSame(a: seq<Token>)
    ensures Kept(a, a)
  {
  }

  /** Each token value is redeemed at most once, and a redeemed token is revoked for good. */
  lemma {:induction false} RedeemedOnce(y: System, events: seq<Event>, t: nat)
    requires OnePerSession(y.auth.tokens)
    ensures Redeemed(y, events, t) <= 1
    ensures Redeemed(y, events, t) == 1 ==>
              t < |Trace(y, events).auth.tokens| && Trace(y, events).auth.tokens[t].revoked
    decreases |events|
  {
    hide OnePerSession, Next;
    if events != [] {
      var before := Trace(y, events[..|events| - 1]);
      RedeemedOnce(y, events[..|events| - 1], t);
      TraceKeeps(y, events[..|events| - 1]);
      NextKeeps(before, events[|events| - 1]);
    }
  }

  /** A user never has more live tokens than successful logins. */
  lemma {:induction false} LiveAtMostLogins(y: System, events: seq<Event>, u: nat)
    ensures SumBy(Trace(y, events).auth.tokens, LiveOf(u)) <= SumBy(y.auth.tokens, LiveOf(u)) + Logins(y, events, u)
    decreases |events|
  {
    hide SumBy, Next, LogsInNow;
    if events != [] {
      var before := Trace(y, events[..|events| - 1]);
      LiveAtMostLogins(y, events[..|events| - 1], u);
      NextLive(before, events[|events| - 1], u);
    }
  }

  /** From no tokens at all, under any interleaving. */
  lemma SessionsNeverMultiply(accounts: seq<Account>, events: seq<Event>, u: nat, t: nat)
    ensures var start := System(Auth(accounts, []), map[]);
            && SumBy(Trace(start, events).auth.tokens, LiveOf(u)) <= Logins(start, events, u)
            && Redeemed(start, events, t) <= 1
            && OnePerSession(Trace(start, events).auth.tokens)
  {
    var start := System(Auth(accounts, []), map[]);
    LiveAtMostLogins(start, events, u);
    RedeemedOnce(start, events, t);
    TraceKeeps(start, events);
  }
}
