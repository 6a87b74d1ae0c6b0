/**
 * BattleNetAuth: the message-level authentication exchange of the Battle.net
 * client, as fixed by its unit tests: the wire format of an authentication
 * message, and the state machine NotAuthenticated -> Authenticated |
 * AuthFailed driven by it against an account store.
 *
 * Message format: [0x01][len(login)][login][len(password)][password], each
 * length one byte. A ping is [0x03] and is answered by a pong starting 0x04;
 * an authentication reply is [0x02][1 = success, 0 = failure].
 */
module BattleNetAuth {
  import opened Wrappers
  import opened Protocol

  const MSG_AUTH: uint8 := 0x01
  const MSG_AUTH_RESPONSE: uint8 := 0x02
  const MSG_PING: uint8 := 0x03
  const MSG_PONG: uint8 := 0x04

  /** `static_cast<uint8_t>(n)`: keeps the low eight bits. */
  function TruncateToByte(n: nat): uint8
  {
    n % 0x100
  }

  /** The bytes `createAuthMessage(login, password)` returns. */
  function AuthMessage(login: Bytes, password: Bytes): Bytes
  {
    [MSG_AUTH, TruncateToByte(|login|)] + login + [TruncateToByte(|password|)] + password
  }

  /** `createAuthMessage`: pushes the type, then length and bytes of the login,
      then length and bytes of the password. */
  method CreateAuthMessage(login: Bytes, password: Bytes) returns (message: Bytes)
    ensures message == AuthMessage(login, password)
    ensures |message| == 3 + |login| + |password|
    ensures message[0] == MSG_AUTH && message[1] == |login| % 0x100
  {
    message := [];
    message := message + [MSG_AUTH];
    message := message + [TruncateToByte(|login|)];
    message := message + login;
    message := message + [TruncateToByte(|password|)];
    message := message + password;
  }

  /** A decoded message. */
  datatype Message =
    | AuthRequest(login: Bytes, password: Bytes)
    | Ping
    | Malformed
    | Unknown(messageType: uint8)

  /** Decodes one message. An authentication message must hold exactly the
      two length-prefixed fields; a declared length running past the end,
      or bytes left over, make it malformed. */
  function ParseMessage(msg: Bytes): Message
  {
    if msg == [] then Malformed
    else if msg[0] == MSG_PING then Ping
    else if msg[0] != MSG_AUTH then Unknown(msg[0])
    else if |msg| < 2 then Malformed
    else
      var n := msg[1] as nat;
      if |msg| < 2 + n + 1 then Malformed
      else
        var m := msg[2 + n] as nat;
        if |msg| != 3 + n + m then Malformed
        else AuthRequest(msg[2..2 + n], msg[3 + n..])
  }

  /** A decoded authentication request consumed exactly its two declared
      lengths. */
  lemma ParsedFieldLengths(msg: Bytes)
    ensures match ParseMessage(msg)
      case AuthRequest(l, p) =>
        |msg| >= 3 && |l| == msg[1] as nat && |msg| == 3 + |l| + |p| && |p| == msg[2 + |l|] as nat
      case _ => true
  {
  }

  /** The encoder and the decoder agree exactly when both lengths fit in one
      byte; a longer login or password is mangled by the truncated length. */
  lemma ParseAuthMessage(login: Bytes, password: Bytes)
    ensures ParseMessage(AuthMessage(login, password)) == AuthRequest(login, password)
        <==> |login| <= 255 && |password| <= 255
  {
    var msg := AuthMessage(login, password);
    var n := TruncateToByte(|login|) as nat;
    var m := TruncateToByte(|password|) as nat;
    assert msg[0] == MSG_AUTH && msg[1] == n;
    if |login| <= 255 && |password| <= 255 {
      assert msg[2 + n] == m;
      assert msg[2..2 + n] == login;
      assert msg[3 + n..] == password;
    } else {
      ParsedFieldLengths(msg);
      if |login| <= 255 {
        assert msg[2 + n] == m;
      }
    }
  }

  /** The malformed message of the tests: a declared login length of 8 with no
      login bytes. */
  lemma TruncatedMessageIsMalformed()
    ensures ParseMessage([MSG_AUTH, 0x08]) == Malformed
  {
  }

  datatype AuthState = NotAuthenticated | Authenticated | AuthFailed

  /** The account store the exchange consults; its implementation is a
      database and is not part of this model. */
  datatype AccountStore = AccountStore(
    accountExists: Bytes -> bool,
    passwordMatches: (Bytes, Bytes) -> bool,
    isBanned: Bytes -> bool)

  predicate MayLogIn(store: AccountStore, login: Bytes, password: Bytes)
  {
    store.accountExists(login) && store.passwordMatches(login, password) && !store.isBanned(login)
  }

  /** What the client shows of its authentication: the state and the login. */
  datatype AuthView = AuthView(state: AuthState, login: Bytes)

  /** The effect of one message: the new view and the reply sent, if any. */
  datatype Outcome = Outcome(view: AuthView, reply: Option<Bytes>)


  function Process(view: AuthView, msg: Bytes, store: AccountStore): Outcome
  {
    match ParseMessage(msg)
    case AuthRequest(login, password) =>
      if MayLogIn(store, login, password) then
        Outcome(AuthView(Authenticated, login), Some([MSG_AUTH_RESPONSE, 0x01]))
      else
        Outcome(AuthView(AuthFailed, []), Some([MSG_AUTH_RESPONSE, 0x00]))
    case Ping => Outcome(view, Some([MSG_PONG]))
    case _ => Outcome(view, None)
  }

  /** An existing, unbanned account with the right password is authenticated,
      its login recorded, and the reply is {0x02, 0x01}. */
  lemma SuccessfulAuth(view: AuthView, store: AccountStore, login: Bytes, password: Bytes)
    requires |login| <= 255 && |password| <= 255
    requires store.accountExists(login) && store.passwordMatches(login, password)
    requires !store.isBanned(login)
    ensures var o := Process(view, AuthMessage(login, password), store);
      o.view == AuthView(Authenticated, login) &&
      o.reply.Some? && o.reply.value[0] == 0x02 && o.reply.value[1] == 0x01
  {
    ParseAuthMessage(login, password);
  }

  /** A wrong password, an unknown login or a banned account each end in
      AuthFailed with an empty login and the reply {0x02, 0x00}. */
  lemma FailedAuth(view: AuthView, store: AccountStore, login: Bytes, password: Bytes)
    requires |login| <= 255 && |password| <= 255
    requires !store.accountExists(login) || !store.passwordMatches(login, password) ||
             store.isBanned(login)
    ensures var o := Process(view, AuthMessage(login, password), store);
      o.view == AuthView(AuthFailed, []) &&
      o.reply.Some? && o.reply.value[0] == 0x02 && o.reply.value[1] == 0x00
  {
    ParseAuthMessage(login, password);
  }

  /** A malformed message leaves a fresh client NotAuthenticated. */
  lemma MalformedLeavesState(store: AccountStore)
    ensures Process(AuthView(NotAuthenticated, []), [MSG_AUTH, 0x08], store).view ==
      AuthView(NotAuthenticated, [])
  {
    TruncatedMessageIsMalformed();
  }

  /** A ping is answered by a message starting with 0x04 and changes nothing. */
  lemma PingPong(view: AuthView, store: AccountStore)
    ensures var o := Process(view, [MSG_PING], store);
      o.view == view && o.reply.Some? && o.reply.value[0] == 0x04
  {
  }

  /** Once some message has been processed the state is Authenticated only
      with a login the store accepted. */
  lemma AuthenticatedOnlyIfAccepted(view: AuthView, msg: Bytes, store: AccountStore)
    requires view.state != Authenticated
    ensures var o := Process(view, msg, store);
      o.view.state == Authenticated ==>
        exists p :: ParseMessage(msg) == AuthRequest(o.view.login, p) && MayLogIn(store, o.view.login, p)
  {
    match ParseMessage(msg)
    case AuthRequest(login, password) =>
      if MayLogIn(store, login, password) {
        assert ParseMessage(msg) == AuthRequest(login, password);
      }
    case _ =>
  }

  /** The client object the tests drive with `processMessage`; `sendMessage`
      is captured in `lastSent`. */
  class AuthClient {
    var state: AuthState
    var login: Bytes
    var lastSent: Bytes

    function View(): AuthView
      reads this
    {
      AuthView(state, login)
    }

    constructor ()
      ensures View() == AuthView(NotAuthenticated, []) && lastSent == []
    {
      state, login, lastSent := NotAuthenticated, [], [];
    }

    method ProcessMessage(msg: Bytes, store: AccountStore)
      modifies this
      ensures View() == Process(old(View()), msg, store).view
      ensures var r := Process(old(View()), msg, store).reply;
        lastSent == if r.Some? then r.value else old(lastSent)
    {
      var m := ParseMessage(msg);
      match m
      case AuthRequest(l, p) =>
        if store.accountExists(l) && store.passwordMatches(l, p) && !store.isBanned(l) {
          state := Authenticated;
          login := l;
          lastSent := [MSG_AUTH_RESPONSE, 0x01];
        } else {
          state := AuthFailed;
          login := [];
          lastSent := [MSG_AUTH_RESPONSE, 0x00];
        }
      case Ping =>
        lastSent := [MSG_PONG];
      case _ =>
    }
  }
}
