/**
 * ControllerSupport: what the account and the admin controller share. Each
 * of them carries its own, identical copy of `parseRequestJson` and
 * `createErrorResponse`; the model defines them once.
 *
 * nlohmann::json is foreign. A parsed document is an abstract `Json` (an
 * object of typed members, or some other value), and the parser and the
 * text of the library's type errors are the two functions of a `JsonLib`.
 * `dump` is foreign too, so a reply's body is described by `Body` rather
 * than printed. The database is the `Store` value: the controllers' reads
 * are lookups in it, and whether each write succeeds is a parameter.
 */
module ControllerSupport {
  import opened Wrappers
  import RestServer

  /** A member of a parsed object, as far as the conversions the
      controllers use can tell values apart. `JNumber(n)` is a number whose
      conversion to `int` gives `n`. */
  datatype JsonValue = JString(s: string) | JNumber(n: int) | JBool(b: bool) | JNull | JArray | JObjectValue

  /** A parsed document: an object, or any other value. */
  datatype Json = JObject(members: map<string, JsonValue>) | JNotObject

  /** The foreign library: `json::parse`, giving the document or the text
      of its `parse_error`, and the text of the `type_error` a conversion to
      the named type throws on a value. */
  datatype JsonLib = JsonLib(parse: string -> Result<Json, string>, typeError: (string, JsonValue) -> string)

  /** `contains(key)`: false on anything but an object. */
  predicate Contains(doc: Json, key: string)
  {
    doc.JObject? && key in doc.members
  }

  /** `get<std::string>()`: strings only. */
  function AsString(lib: JsonLib, v: JsonValue): (r: Result<string, string>)
    ensures r.Ok? <==> v.JString?
    ensures r.Ok? ==> r.value == v.s
  {
    if v.JString? then Ok(v.s) else Err(lib.typeError("string", v))
  }

  /** `get<int>()`: numbers, and booleans as 0 or 1. */
  function AsInt(lib: JsonLib, v: JsonValue): (r: Result<int, string>)
    ensures r.Ok? <==> v.JNumber? || v.JBool?
    ensures v.JNumber? ==> r == Ok(v.n)
  {
    match v
    case JNumber(n) => Ok(n)
    case JBool(b) => Ok(if b then 1 else 0)
    case _ => Err(lib.typeError("number", v))
  }

  /** `get<bool>()`: booleans only. */
  function AsBool(lib: JsonLib, v: JsonValue): (r: Result<bool, string>)
    ensures r.Ok? <==> v.JBool?
    ensures r.Ok? ==> r.value == v.b
  {
    if v.JBool? then Ok(v.b) else Err(lib.typeError("boolean", v))
  }

  /** `value(key, default)`-style reads: an optional member converted to the
      type wanted, `default` when absent. */
  function OptionalBool(lib: JsonLib, doc: Json, key: string, default: bool): (r: Result<bool, string>)
    ensures !Contains(doc, key) ==> r == Ok(default)
    ensures Contains(doc, key) ==> r == AsBool(lib, doc.members[key])
  {
    if Contains(doc, key) then AsBool(lib, doc.members[key]) else Ok(default)
  }

  function OptionalString(lib: JsonLib, doc: Json, key: string, default: string): (r: Result<string, string>)
    ensures !Contains(doc, key) ==> r == Ok(default)
    ensures Contains(doc, key) ==> r == AsString(lib, doc.members[key])
  {
    if Contains(doc, key) then AsString(lib, doc.members[key]) else Ok(default)
  }

  function OptionalInt(lib: JsonLib, doc: Json, key: string, default: int): (r: Result<int, string>)
    ensures !Contains(doc, key) ==> r == Ok(default)
    ensures Contains(doc, key) ==> r == AsInt(lib, doc.members[key])
  {
    if Contains(doc, key) then AsInt(lib, doc.members[key]) else Ok(default)
  }

  /** What a reply's body holds: the `{"error":true,"message":...}` object
      of `createErrorResponse`, a fixed text, or the log listing. */
  datatype Body =
    | ErrorBody(message: string)
    | Text(text: string)
    | LogsBody(logLevel: string, totalLines: nat, logs: seq<string>)

  datatype Reply = Reply(statusCode: int, statusMessage: string, headers: map<string, string>, body: Body)

  /** Every controller reply carries this header map. */
  const JsonContent: map<string, string> := map["Content-Type" := "application/json"]

  const ErrorCodes: set<int> := {400, 401, 403, 404, 409, 500}

  /** The status-message switch of `createErrorResponse`. */
  function ErrorStatusMessage(code: int): string
  {
    match code
    case 400 => "Bad Request"
    case 401 => "Unauthorized"
    case 403 => "Forbidden"
    case 404 => "Not Found"
    case 409 => "Conflict"
    case 500 => "Internal Server Error"
    case _ => "Error"
  }

  /** "Error" is the message of exactly the codes outside the switch, and
      the codes in it have distinct messages. */
  lemma ErrorStatusMessages(a: int, b: int)
    ensures ErrorStatusMessage(a) == "Error" <==> a !in ErrorCodes
    ensures a in ErrorCodes && b in ErrorCodes && ErrorStatusMessage(a) == ErrorStatusMessage(b) ==> a == b
  {
  }

  /** `createErrorResponse(code, message)`. */
  function CreateErrorResponse(code: int, message: string): (r: Reply)
    ensures r.statusCode == code && r.headers == JsonContent && r.body == ErrorBody(message)
    ensures code in ErrorCodes <==> r.statusMessage != "Error"
  {
    ErrorStatusMessages(code, code);
    Reply(code, ErrorStatusMessage(code), JsonContent, ErrorBody(message))
  }

  /** A successful reply with a fixed body. */
  function Success(code: int, statusMessage: string, text: string): Reply
  {
    Reply(code, statusMessage, JsonContent, Text(text))
  }

  /** An error reply, as opposed to one of the success replies. */
  predicate IsError(r: Reply)
  {
    r.body.ErrorBody?
  }

  predicate JsonContentType(request: RestServer.HttpRequest)
  {
    "Content-Type" in request.headers && request.headers["Content-Type"] == "application/json"
  }

  /** `parseRequestJson`: the body, when the content type is exactly
      "application/json" and the body is non-empty text that parses;
      otherwise a 400 naming the first of those checks that failed. */
  function ParseRequestJson(lib: JsonLib, request: RestServer.HttpRequest): (r: Result<string, Reply>)
    ensures r.Ok? <==> JsonContentType(request) && request.body != [] && lib.parse(request.body).Ok?
    ensures r.Ok? ==> r.value == request.body
    ensures r.Err? ==> r.error.statusCode == 400 && IsError(r.error)
  {
    if !JsonContentType(request) then
      Err(CreateErrorResponse(400, "Content-Type must be application/json"))
    else if request.body == [] then
      Err(CreateErrorResponse(400, "Request body is empty"))
    else match lib.parse(request.body)
      case Err(what) => Err(CreateErrorResponse(400, "Invalid JSON: " + what))
      case Ok(_) => Ok(request.body)
  }

  /** The content type is checked before the body, and the body's
      presence before its syntax. */
  lemma ParseRequestJsonOrder(lib: JsonLib, request: RestServer.HttpRequest)
    ensures !JsonContentType(request) ==>
      ParseRequestJson(lib, request) == Err(CreateErrorResponse(400, "Content-Type must be application/json"))
    ensures JsonContentType(request) && request.body == [] ==>
      ParseRequestJson(lib, request) == Err(CreateErrorResponse(400, "Request body is empty"))
    ensures JsonContentType(request) && request.body != [] && lib.parse(request.body).Err? ==>
      ParseRequestJson(lib, request) == Err(CreateErrorResponse(400, "Invalid JSON: " + lib.parse(request.body).error))
  {
  }

  // ---------------------------------------------------------------------
  // The database, as the controllers see it
  // ---------------------------------------------------------------------

  /** An account as the controllers hand it to the database. `password` is
      the password passed to `createAccount` or `updateAccount`, not the
      salted hash the database keeps in its place. */
  datatype Account = Account(email: string, password: string, banned: bool, banReason: string)

  datatype Character = Character(owner: string, classId: int, level: int)

  /** Accounts by login and characters by name; a character name is unique
      across all accounts. */
  datatype Store = Store(accounts: map<string, Account>, characters: map<string, Character>)

  /** The names of the characters of `login`. */
  function CharactersOf(store: Store, login: string): set<string>
  {
    set name | name in store.characters && store.characters[name].owner == login
  }

  /** `getCharacterCount(login)`. */
  function CharacterCount(store: Store, login: string): nat
  {
    |CharactersOf(store, login)|
  }

  /** Adding a character under a new name counts once for its owner and
      not at all for anybody else. */
  lemma AddCharacterCount(store: Store, name: string, c: Character, login: string)
    requires name !in store.characters
    ensures var s := store.(characters := store.characters[name := c]);
      CharacterCount(s, login) == CharacterCount(store, login) + (if c.owner == login then 1 else 0)
  {
    var s := store.(characters := store.characters[name := c]);
    if c.owner == login {
      assert CharactersOf(s, login) == CharactersOf(store, login) + {name};
    } else {
      assert CharactersOf(s, login) == CharactersOf(store, login);
    }
  }
}
