/**
 * AccountController: the validators of account and character data and
 * the order in which `createAccount`, `updateAccount` and
 * `createCharacter` make their checks and their database calls.
 *
 * Each handler is a function of the request and the database before the
 * call; it gives the reply and the database after it. Whether the one
 * write a handler issues succeeds is the parameter `writeOk`; a failed
 * write changes nothing. The ASCII letters and digits of the regular
 * expressions are the C locale's.
 */
module AccountController {
  import opened Wrappers
  import StringUtils
  import RestServer
  import opened ControllerSupport

  // ---------------------------------------------------------------------
  // Character classes of the regular expressions
  // ---------------------------------------------------------------------

  /** `[a-zA-Z0-9._%+-]`, the local part of an e-mail address. */
  predicate IsLocalChar(c: char)
  {
    StringUtils.IsAlnum(c) || c == '.' || c == '_' || c == '%' || c == '+' || c == '-'
  }

  /** `[a-zA-Z0-9.-]`, its domain. */
  predicate IsDomainChar(c: char)
  {
    StringUtils.IsAlnum(c) || c == '.' || c == '-'
  }

  /** `[a-zA-Z0-9_-]`, a character name. */
  predicate IsNameChar(c: char)
  {
    StringUtils.IsAlnum(c) || c == '_' || c == '-'
  }

  // ---------------------------------------------------------------------
  // Login, e-mail, password and character-name rules
  // ---------------------------------------------------------------------

  /** The login rule: 3 to 16 characters, all ASCII letters or digits. */
  predicate IsValidLogin(login: string)
  {
    3 <= |login| <= 16 && forall i :: 0 <= i < |login| ==> StringUtils.IsAlnum(login[i])
  }

  /** The character-name rule: 2 to 12 characters over `[a-zA-Z0-9_-]`. */
  predicate IsValidName(name: string)
  {
    2 <= |name| <= 12 && forall i :: 0 <= i < |name| ==> IsNameChar(name[i])
  }

  /** The split a full match of
      `[a-zA-Z0-9._%+-]+@[a-zA-Z0-9.-]+\.[a-zA-Z]{2,}` makes: the '@' at
      `at`, the escaped '.' at `dot`. */
  predicate EmailSplit(s: string, at: nat, dot: nat)
  {
    1 <= at && at + 2 <= dot && dot + 3 <= |s| &&
    s[at] == '@' && s[dot] == '.' &&
    (forall k :: 0 <= k < at ==> IsLocalChar(s[k])) &&
    (forall k :: at < k < dot ==> IsDomainChar(s[k])) &&
    (forall k :: dot < k < |s| ==> StringUtils.IsAlpha(s[k]))
  }

  /** `regex_match` of the e-mail expression: some split exists. */
  ghost predicate EmailShape(s: string)
  {
    exists at: nat, dot: nat :: EmailSplit(s, at, dot)
  }

  /** Index of the last `c` in `s`. */
  function LastIndexOf(s: string, c: char): (r: Option<nat>)
    ensures r.Some? ==> r.value < |s| && s[r.value] == c && forall k :: r.value < k < |s| ==> s[k] != c
    ensures r.None? ==> forall k :: 0 <= k < |s| ==> s[k] != c
  {
    if s == [] then None
    else if s[|s| - 1] == c then Some(|s| - 1)
    else LastIndexOf(s[..|s| - 1], c)
  }

  /** The e-mail check as a decision: no local character is '@', so the
      '@' is the first one; no letter is '.', so the escaped '.' is the
      last '.'. */
  predicate EmailMatches(s: string)
  {
    var at := StringUtils.IndexOfChar(s, '@');
    at < |s| &&
    match LastIndexOf(s, '.')
    case None => false
    case Some(dot) => EmailSplit(s, at, dot)
  }

  /** The decision agrees with the regular expression on every string. */
  lemma EmailMatchesIff(s: string)
    ensures EmailMatches(s) <==> EmailShape(s)
  {
    if EmailMatches(s) {
      var at := StringUtils.IndexOfChar(s, '@');
      var dot := LastIndexOf(s, '.').value;
      assert EmailSplit(s, at, dot);
    }
    if EmailShape(s) {
      var at: nat, dot: nat :| EmailSplit(s, at, dot);
      StringUtils.IndexOfCharUnique(s, '@', at);
      LastIndexOfUnique(s, '.', dot);
    }
  }

  lemma LastIndexOfUnique(s: string, c: char, j: nat)
    requires j < |s| && s[j] == c
    requires forall k :: j < k < |s| ==> s[k] != c
    ensures LastIndexOf(s, c) == Some(j)
  {
  }

  /** The addresses of the unit tests: "test@example.com" is accepted and
      "invalid-email", which has no '@', is refused. */
  lemma EmailExamples()
    ensures EmailShape("test@example.com")
    ensures !EmailShape("invalid-email")
  {
    var s := "test@example.com";
    assert EmailSplit(s, 4, 12);
    var t := "invalid-email";
    forall at: nat, dot: nat
      ensures !EmailSplit(t, at, dot)
    {
      assert '@' !in t;
    }
  }

  /** The password rule. */
  predicate IsValidPassword(password: string)
  {
    |password| >= 8
  }

  // ---------------------------------------------------------------------
  // validateAccountData
  // ---------------------------------------------------------------------

  /** The first complaint about login, e-mail and password, once all three
      are present: a member that is not a string is a type error. */
  function AccountFieldsComplaint(lib: JsonLib, login: JsonValue, email: JsonValue, password: JsonValue): Option<string>
  {
    match AsString(lib, login)
    case Err(what) => Some("Invalid JSON: " + what)
    case Ok(l) =>
      if l == [] || |l| < 3 || |l| > 16 then Some("Login must be between 3 and 16 characters")
      else if !(forall i :: 0 <= i < |l| ==> StringUtils.IsAlnum(l[i])) then Some("Login can only contain alphanumeric characters")
      else match AsString(lib, email)
      case Err(what) => Some("Invalid JSON: " + what)
      case Ok(e) =>
        if !EmailMatches(e) then Some("Invalid email format")
        else match AsString(lib, password)
        case Err(what) => Some("Invalid JSON: " + what)
        case Ok(p) =>
          if |p| < 8 then Some("Password must be at least 8 characters long") else None
  }

  /** `validateAccountData(jsonStr)`: `None` when the data is valid, else
      the error message it reports. */
  function ValidateAccountData(lib: JsonLib, jsonStr: string): (complaint: Option<string>)
  {
    match lib.parse(jsonStr)
    case Err(what) => Some("Invalid JSON: " + what)
    case Ok(doc) =>
      if !Contains(doc, "login") then Some("Missing required field: login")
      else if !Contains(doc, "email") then Some("Missing required field: email")
      else if !Contains(doc, "password") then Some("Missing required field: password")
      else AccountFieldsComplaint(lib, doc.members["login"], doc.members["email"], doc.members["password"])
  }

  /** Valid account data: an object whose login, email and password are
      strings meeting their rules. */
  ghost predicate ValidAccountDoc(doc: Json)
  {
    doc.JObject? &&
    "login" in doc.members && "email" in doc.members && "password" in doc.members &&
    doc.members["login"].JString? && doc.members["email"].JString? && doc.members["password"].JString? &&
    IsValidLogin(doc.members["login"].s) && EmailShape(doc.members["email"].s) &&
    IsValidPassword(doc.members["password"].s)
  }

  /** The validator accepts exactly the valid account data. */
  lemma ValidateAccountDataIff(lib: JsonLib, jsonStr: string)
    ensures ValidateAccountData(lib, jsonStr).None? <==>
      lib.parse(jsonStr).Ok? && ValidAccountDoc(lib.parse(jsonStr).value)
  {
    match lib.parse(jsonStr)
    case Err(_) =>
    case Ok(doc) =>
      if Contains(doc, "login") && Contains(doc, "email") && Contains(doc, "password") && doc.members["email"].JString? {
        EmailMatchesIff(doc.members["email"].s);
      }
  }

  /** The required fields are checked in the order login, email, password,
      whatever else the document holds. */
  lemma MissingFieldOrder(lib: JsonLib, jsonStr: string)
    requires lib.parse(jsonStr).Ok?
    ensures var doc := lib.parse(jsonStr).value;
      (!Contains(doc, "login") ==> ValidateAccountData(lib, jsonStr) == Some("Missing required field: login")) &&
      (Contains(doc, "login") && !Contains(doc, "email") ==>
        ValidateAccountData(lib, jsonStr) == Some("Missing required field: email")) &&
      (Contains(doc, "login") && Contains(doc, "email") && !Contains(doc, "password") ==>
        ValidateAccountData(lib, jsonStr) == Some("Missing required field: password"))
  {
  }

  // ---------------------------------------------------------------------
  // validateCharacterData
  // ---------------------------------------------------------------------

  /** The first complaint about name and class_id, once both are present. */
  function CharacterFieldsComplaint(lib: JsonLib, name: JsonValue, classId: JsonValue): Option<string>
  {
    match AsString(lib, name)
    case Err(what) => Some("Invalid JSON: " + what)
    case Ok(n) =>
      if n == [] || |n| < 2 || |n| > 12 then Some("Name must be between 2 and 12 characters")
      else if !(forall i :: 0 <= i < |n| ==> IsNameChar(n[i])) then
        Some("Name can only contain alphanumeric characters, underscores, and hyphens")
      else match AsInt(lib, classId)
      case Err(what) => Some("Invalid JSON: " + what)
      case Ok(c) => if c < 1 || c > 7 then Some("Invalid class_id. Must be between 1 and 7") else None
  }

  /** `validateCharacterData(jsonStr)`: `None` when valid, else the
      message. */
  function ValidateCharacterData(lib: JsonLib, jsonStr: string): (complaint: Option<string>)
  {
    match lib.parse(jsonStr)
    case Err(what) => Some("Invalid JSON: " + what)
    case Ok(doc) =>
      if !Contains(doc, "name") then Some("Missing required field: name")
      else if !Contains(doc, "class_id") then Some("Missing required field: class_id")
      else CharacterFieldsComplaint(lib, doc.members["name"], doc.members["class_id"])
  }

  /** Valid character data: an object with a valid name and a class_id
      converting to 1..7. */
  predicate ValidCharacterDoc(lib: JsonLib, doc: Json)
  {
    doc.JObject? && "name" in doc.members && "class_id" in doc.members &&
    doc.members["name"].JString? && IsValidName(doc.members["name"].s) &&
    AsInt(lib, doc.members["class_id"]).Ok? && 1 <= AsInt(lib, doc.members["class_id"]).value <= 7
  }

  /** The validator accepts exactly the valid character data. */
  lemma ValidateCharacterDataIff(lib: JsonLib, jsonStr: string)
    ensures ValidateCharacterData(lib, jsonStr).None? <==>
      lib.parse(jsonStr).Ok? && ValidCharacterDoc(lib, lib.parse(jsonStr).value)
  {
    match lib.parse(jsonStr)
    case Err(_) =>
    case Ok(doc) =>
      if Contains(doc, "name") && Contains(doc, "class_id") {
        var v := CharacterFieldsComplaint(lib, doc.members["name"], doc.members["class_id"]);
        assert v.None? <==> ValidCharacterDoc(lib, doc);
      }
  }

  // ---------------------------------------------------------------------
  // createAccount
  // ---------------------------------------------------------------------

  const AccountCreated := "{\"success\":true,\"message\":\"Account created successfully\"}"
  const AccountUpdated := "{\"success\":true,\"message\":\"Account updated successfully\"}"
  const CharacterCreated := "{\"success\":true,\"message\":\"Character created successfully\"}"

  /** `createAccount`: the body, then validation, then a taken login; the
      new account is stored unbanned. */
  function CreateAccount(lib: JsonLib, request: RestServer.HttpRequest, store: Store, writeOk: bool): (r: (Reply, Store))
  {
    match ParseRequestJson(lib, request)
    case Err(reply) => (reply, store)
    case Ok(jsonStr) =>
      match ValidateAccountData(lib, jsonStr)
      case Some(message) => (CreateErrorResponse(400, message), store)
      case None =>
        match AccountFields(lib, jsonStr)
        case None => (CreateErrorResponse(500, "Internal server error"), store)
        case Some(fields) =>
          var (login, email, password) := fields;
          if login in store.accounts then
            (CreateErrorResponse(409, "Account with this login already exists"), store)
          else if !writeOk then (CreateErrorResponse(500, "Failed to create account"), store)
          else
            (Success(201, "Created", AccountCreated),
             store.(accounts := store.accounts[login := Account(email, password, false, "")]))
  }

  /** The three strings `createAccount` reads from a validated document;
      `None` where reading them would throw. */
  function AccountFields(lib: JsonLib, jsonStr: string): (r: Option<(string, string, string)>)
    ensures ValidateAccountData(lib, jsonStr).None? ==> r.Some?
  {
    match lib.parse(jsonStr)
    case Err(_) => None
    case Ok(doc) =>
      if !Contains(doc, "login") || !Contains(doc, "email") || !Contains(doc, "password") then None
      else match (AsString(lib, doc.members["login"]), AsString(lib, doc.members["email"]), AsString(lib, doc.members["password"]))
        case (Ok(l), Ok(e), Ok(p)) => Some((l, e, p))
        case _ => None
  }

  /** Every outcome of `createAccount`: 201 exactly when the body is good,
      the data valid, the login free and the write succeeds, in which case
      only that account is added; every other outcome changes nothing. */
  lemma CreateAccountOutcome(lib: JsonLib, request: RestServer.HttpRequest, store: Store, writeOk: bool)
    ensures var (reply, after) := CreateAccount(lib, request, store, writeOk);
      reply.statusCode in {400, 409, 500, 201} &&
      (reply.statusCode == 201 <==>
        ParseRequestJson(lib, request).Ok? && ValidateAccountData(lib, request.body).None? &&
        AccountFields(lib, request.body).value.0 !in store.accounts && writeOk) &&
      (reply.statusCode == 201 ==>
        var (login, email, password) := AccountFields(lib, request.body).value;
        IsValidLogin(login) && EmailShape(email) && IsValidPassword(password) &&
        after.accounts == store.accounts[login := Account(email, password, false, "")] &&
        after.characters == store.characters) &&
      (reply.statusCode != 201 ==> after == store && IsError(reply))
  {
    if ParseRequestJson(lib, request).Ok? && ValidateAccountData(lib, request.body).None? {
      ValidateAccountDataIff(lib, request.body);
    }
  }

  /** Creating the same account twice: the second request conflicts and
      changes nothing. */
  lemma CreateAccountTwice(lib: JsonLib, request: RestServer.HttpRequest, store: Store, ok1: bool, ok2: bool)
    requires CreateAccount(lib, request, store, ok1).0.statusCode == 201
    ensures var after := CreateAccount(lib, request, store, ok1).1;
      CreateAccount(lib, request, after, ok2) ==
        (CreateErrorResponse(409, "Account with this login already exists"), after)
  {
    CreateAccountOutcome(lib, request, store, ok1);
  }

  /** Invalid data is reported even for a login that is already taken:
      validation comes before the existence check. */
  lemma ValidationBeforeConflict(lib: JsonLib, request: RestServer.HttpRequest, store: Store, writeOk: bool)
    requires ParseRequestJson(lib, request).Ok?
    requires ValidateAccountData(lib, request.body).Some?
    ensures CreateAccount(lib, request, store, writeOk) ==
      (CreateErrorResponse(400, ValidateAccountData(lib, request.body).value), store)
  {
  }

  // ---------------------------------------------------------------------
  // updateAccount
  // ---------------------------------------------------------------------

  /** The database's update: an empty field keeps the stored value. */
  function UpdatedAccount(a: Account, newEmail: string, newPassword: string): Account
  {
    a.(email := if newEmail == [] then a.email else newEmail,
       password := if newPassword == [] then a.password else newPassword)
  }

  /** `updateAccount(login)`: the account must exist before the body is
      looked at; only e-mail and password can change, each only when given
      non-empty and valid. A member of the wrong type throws inside the
      handler's `try` and gives 500. */
  function UpdateAccount(lib: JsonLib, request: RestServer.HttpRequest, login: string, store: Store, writeOk: bool): (r: (Reply, Store))
  {
    if login !in store.accounts then (CreateErrorResponse(404, "Account not found"), store)
    else match ParseRequestJson(lib, request)
    case Err(reply) => (reply, store)
    case Ok(jsonStr) =>
      match lib.parse(jsonStr)
      case Err(_) => (CreateErrorResponse(500, "Internal server error"), store)
      case Ok(doc) =>
        match (OptionalString(lib, doc, "email", ""), OptionalString(lib, doc, "password", ""))
        case (Ok(newEmail), Ok(newPassword)) =>
          if newEmail != [] && !EmailMatches(newEmail) then (CreateErrorResponse(400, "Invalid email format"), store)
          else if newPassword != [] && |newPassword| < 8 then
            (CreateErrorResponse(400, "Password must be at least 8 characters long"), store)
          else if !writeOk then (CreateErrorResponse(500, "Failed to update account"), store)
          else
            (Success(200, "OK", AccountUpdated),
             store.(accounts := store.accounts[login := UpdatedAccount(store.accounts[login], newEmail, newPassword)]))
        case _ => (CreateErrorResponse(500, "Internal server error"), store)
  }

  /** A missing account is reported whatever the request holds. */
  lemma UpdateMissingAccount(lib: JsonLib, request: RestServer.HttpRequest, login: string, store: Store, writeOk: bool)
    requires login !in store.accounts
    ensures UpdateAccount(lib, request, login, store, writeOk) == (CreateErrorResponse(404, "Account not found"), store)
  {
  }

  /** A successful update touches only the named account, keeps its ban
      state, and leaves every stored e-mail valid and every stored password
      long enough if they were before; the account becomes the stored one
      with the e-mail and password the body gives, each valid when
      non-empty. */
  lemma UpdateAccountOutcome(lib: JsonLib, request: RestServer.HttpRequest, login: string, store: Store, writeOk: bool)
    ensures var (reply, after) := UpdateAccount(lib, request, login, store, writeOk);
      reply.statusCode in {400, 404, 500, 200} &&
      (reply.statusCode != 200 ==> after == store && IsError(reply)) &&
      (reply.statusCode == 200 ==>
        login in store.accounts && writeOk && after.characters == store.characters &&
        after.accounts.Keys == store.accounts.Keys &&
        (forall other :: other in store.accounts && other != login ==> after.accounts[other] == store.accounts[other]) &&
        after.accounts[login].banned == store.accounts[login].banned &&
        after.accounts[login].banReason == store.accounts[login].banReason &&
        (EmailShape(store.accounts[login].email) ==> EmailShape(after.accounts[login].email)) &&
        (IsValidPassword(store.accounts[login].password) ==> IsValidPassword(after.accounts[login].password)) &&
        lib.parse(request.body).Ok? &&
        var doc := lib.parse(request.body).value;
        OptionalString(lib, doc, "email", "").Ok? && OptionalString(lib, doc, "password", "").Ok? &&
        var newEmail := OptionalString(lib, doc, "email", "").value;
        var newPassword := OptionalString(lib, doc, "password", "").value;
        (newEmail != [] ==> EmailShape(newEmail)) && (newPassword != [] ==> |newPassword| >= 8) &&
        after.accounts[login] == UpdatedAccount(store.accounts[login], newEmail, newPassword))
  {
    var (reply, after) := UpdateAccount(lib, request, login, store, writeOk);
    if reply.statusCode == 200 {
      var doc := lib.parse(request.body).value;
      var newEmail := OptionalString(lib, doc, "email", "").value;
      EmailMatchesIff(newEmail);
    }
  }

  // ---------------------------------------------------------------------
  // createCharacter
  // ---------------------------------------------------------------------

  /** The name and class id `createCharacter` reads; `None` where that
      throws. */
  function CharacterFields(lib: JsonLib, jsonStr: string): (r: Option<(string, int)>)
    ensures ValidateCharacterData(lib, jsonStr).None? ==> r.Some?
  {
    match lib.parse(jsonStr)
    case Err(_) => None
    case Ok(doc) =>
      if !Contains(doc, "name") || !Contains(doc, "class_id") then None
      else match (AsString(lib, doc.members["name"]), AsInt(lib, doc.members["class_id"]))
        case (Ok(n), Ok(c)) => Some((n, c))
        case _ => None
  }

  /** `createCharacter(login)`: the account, then the per-account limit,
      then the body and its validation, then a taken name; the new
      character starts at level 1. */
  function CreateCharacter(lib: JsonLib, request: RestServer.HttpRequest, login: string, store: Store,
                           maxCharactersPerAccount: int, writeOk: bool): (r: (Reply, Store))
  {
    if login !in store.accounts then (CreateErrorResponse(404, "Account not found"), store)
    else if CharacterCount(store, login) >= maxCharactersPerAccount then
      (CreateErrorResponse(400, "Maximum number of characters reached for this account"), store)
    else match ParseRequestJson(lib, request)
    case Err(reply) => (reply, store)
    case Ok(jsonStr) =>
      match ValidateCharacterData(lib, jsonStr)
      case Some(message) => (CreateErrorResponse(400, message), store)
      case None =>
        match CharacterFields(lib, jsonStr)
        case None => (CreateErrorResponse(500, "Internal server error"), store)
        case Some(fields) =>
          var (name, classId) := fields;
          if name in store.characters then (CreateErrorResponse(409, "Character with this name already exists"), store)
          else if !writeOk then (CreateErrorResponse(500, "Failed to create character"), store)
          else
            (Success(201, "Created", CharacterCreated),
             store.(characters := store.characters[name := Character(login, classId, 1)]))
  }

  /** The checks are made in the source's order: an account at its limit
      is refused before its request body is looked at. */
  lemma CharacterLimitBeforeBody(lib: JsonLib, request: RestServer.HttpRequest, login: string, store: Store,
                                 maxCharactersPerAccount: int, writeOk: bool)
    requires login in store.accounts && CharacterCount(store, login) >= maxCharactersPerAccount
    ensures CreateCharacter(lib, request, login, store, maxCharactersPerAccount, writeOk) ==
      (CreateErrorResponse(400, "Maximum number of characters reached for this account"), store)
  {
  }

  /** Every outcome of `createCharacter`: 201 adds one valid level-1
      character under a new name for `login` and nothing else, so the
      account's count grows by one and stays within the limit; any other
      outcome changes nothing. */
  lemma CreateCharacterOutcome(lib: JsonLib, request: RestServer.HttpRequest, login: string, store: Store,
                               maxCharactersPerAccount: int, writeOk: bool)
    ensures var (reply, after) := CreateCharacter(lib, request, login, store, maxCharactersPerAccount, writeOk);
      reply.statusCode in {400, 404, 409, 500, 201} &&
      (reply.statusCode != 201 ==> after == store && IsError(reply)) &&
      (reply.statusCode == 201 ==>
        var (name, classId) := CharacterFields(lib, request.body).value;
        login in store.accounts && name !in store.characters && writeOk &&
        IsValidName(name) && 1 <= classId <= 7 &&
        after.accounts == store.accounts &&
        after.characters == store.characters[name := Character(login, classId, 1)] &&
        CharacterCount(after, login) == CharacterCount(store, login) + 1 &&
        CharacterCount(after, login) <= maxCharactersPerAccount)
  {
    var (reply, after) := CreateCharacter(lib, request, login, store, maxCharactersPerAccount, writeOk);
    if reply.statusCode == 201 {
      CreateCharacterSuccess(lib, request, login, store, maxCharactersPerAccount, writeOk);
      ValidateCharacterDataIff(lib, request.body);
      var (name, classId) := CharacterFields(lib, request.body).value;
      AddCharacterCount(store, name, Character(login, classId, 1), login);
    } else {
      CreateCharacterRefusal(lib, request, login, store, maxCharactersPerAccount, writeOk);
    }
  }

  lemma CreateCharacterRefusal(lib: JsonLib, request: RestServer.HttpRequest, login: string, store: Store,
                               maxCharactersPerAccount: int, writeOk: bool)
    ensures var (reply, after) := CreateCharacter(lib, request, login, store, maxCharactersPerAccount, writeOk);
      reply.statusCode in {400, 404, 409, 500, 201} &&
      (reply.statusCode != 201 ==> after == store && IsError(reply))
  {
  }

  lemma CreateCharacterSuccess(lib: JsonLib, request: RestServer.HttpRequest, login: string, store: Store,
                               maxCharactersPerAccount: int, writeOk: bool)
    requires CreateCharacter(lib, request, login, store, maxCharactersPerAccount, writeOk).0.statusCode == 201
    ensures var after := CreateCharacter(lib, request, login, store, maxCharactersPerAccount, writeOk).1;
      ParseRequestJson(lib, request).Ok? && ValidateCharacterData(lib, request.body).None? &&
      var (name, classId) := CharacterFields(lib, request.body).value;
      login in store.accounts && CharacterCount(store, login) < maxCharactersPerAccount &&
      name !in store.characters && writeOk &&
      after == store.(characters := store.characters[name := Character(login, classId, 1)])
  {
  }

  /** No account ever exceeds the limit through `createCharacter`: the
      bound on every account's count is kept by every call. */
  lemma CharacterLimitKept(lib: JsonLib, request: RestServer.HttpRequest, login: string, store: Store,
                           maxCharactersPerAccount: int, writeOk: bool, other: string)
    requires CharacterCount(store, other) <= maxCharactersPerAccount
    ensures var after := CreateCharacter(lib, request, login, store, maxCharactersPerAccount, writeOk).1;
      CharacterCount(after, other) <= maxCharactersPerAccount
  {
    var (reply, after) := CreateCharacter(lib, request, login, store, maxCharactersPerAccount, writeOk);
    CreateCharacterOutcome(lib, request, login, store, maxCharactersPerAccount, writeOk);
    if reply.statusCode == 201 {
      var (name, classId) := CharacterFields(lib, request.body).value;
      AddCharacterCount(store, name, Character(login, classId, 1), other);
    }
  }
}
