/**
 * AdminController: the log listing of `getLogs` (query parsing, level
 * filter, tail), the ban switch of `banAccount`, and the replies and
 * defaults of `shutdownServer` and `restartServer`.
 *
 * The log file is the `LogFile` parameter: missing, unreadable, or its
 * lines. The process exit the shutdown and restart handlers schedule on
 * a detached thread is returned as the number of seconds after which it
 * happens; the logging around it is left out.
 */
module AdminController {
  import opened Wrappers
  import StringUtils
  import Stoi
  import RestServer
  import opened ControllerSupport

  // ---------------------------------------------------------------------
  // getLogs: the query
  // ---------------------------------------------------------------------

  datatype LogQuery = LogQuery(logLevel: string, lines: int)

  /** Level "INFO" and 100 lines when the query says nothing else. */
  const DefaultQuery := LogQuery("INFO", 100)

  /** A `lines` value: `std::stoi` of it, 100 when that throws or gives a
      value of at most 0, and 1000 above 1000. */
  function LinesValue(text: string): (n: int)
    ensures 1 <= n <= 1000
  {
    match Stoi.Stoi(text, 10)
    case None => 100
    case Some(v) => if v <= 0 then 100 else if v > 1000 then 1000 else v
  }

  /** Every count the clamp lets through is read back exactly from its
      decimal text. */
  lemma LinesValueReadsBack(n: int)
    requires 1 <= n <= 1000
    ensures LinesValue(Stoi.IntToString(n)) == n
  {
    Stoi.StoiIntToString(n);
  }

  /** A query pair `key=value` that splits into exactly two parts on '='. */
  predicate IsPairFor(pair: string, key: string)
  {
    var kv := StringUtils.SplitSpec(pair, '=');
    |kv| == 2 && kv[0] == key
  }

  function PairValue(pair: string): string
    requires |StringUtils.SplitSpec(pair, '=')| == 2
  {
    StringUtils.SplitSpec(pair, '=')[1]
  }

  /** One pair of the query: a "level" pair sets the level, a "lines" pair
      the count; everything else is ignored. */
  function ApplyPair(q: LogQuery, pair: string): LogQuery
  {
    if IsPairFor(pair, "level") then q.(logLevel := PairValue(pair))
    else if IsPairFor(pair, "lines") then q.(lines := LinesValue(PairValue(pair)))
    else q
  }

  /** The pairs applied in order. */
  function ApplyPairs(q: LogQuery, pairs: seq<string>): LogQuery
    decreases |pairs|
  {
    if pairs == [] then q else ApplyPair(ApplyPairs(q, pairs[..|pairs| - 1]), pairs[|pairs| - 1])
  }

  /** The query `getLogs` reads from the URI: the '&'-separated pairs after
      the first '?'. */
  function QueryOf(uri: string): LogQuery
  {
    var pos := StringUtils.IndexOfChar(uri, '?');
    if pos == |uri| then DefaultQuery
    else ApplyPairs(DefaultQuery, StringUtils.SplitSpec(uri[pos + 1..], '&'))
  }

  /** The query loop of `getLogs`. */
  method ParseLogQuery(uri: string) returns (logLevel: string, lines: int)
    ensures LogQuery(logLevel, lines) == QueryOf(uri)
  {
    logLevel := "INFO";
    lines := 100;
    var queryPos := StringUtils.IndexOfChar(uri, '?');
    if queryPos < |uri| {
      var queryString := uri[queryPos + 1..];
      var pairs := StringUtils.Split(queryString, '&');
      for i := 0 to |pairs|
        invariant LogQuery(logLevel, lines) == ApplyPairs(DefaultQuery, pairs[..i])
      {
        ApplyPairsSnoc(DefaultQuery, pairs, i);
        logLevel, lines := ReadPair(logLevel, lines, pairs[i]);
      }
      assert pairs[..|pairs|] == pairs;
    }
  }

  /** The body of the query loop: one `key=value` pair. */
  method ReadPair(logLevel0: string, lines0: int, pair: string) returns (logLevel: string, lines: int)
    ensures LogQuery(logLevel, lines) == ApplyPair(LogQuery(logLevel0, lines0), pair)
  {
    logLevel, lines := logLevel0, lines0;
    var keyValue := StringUtils.Split(pair, '=');
    if |keyValue| == 2 {
      if keyValue[0] == "level" {
        logLevel := keyValue[1];
      } else if keyValue[0] == "lines" {
        match Stoi.Stoi(keyValue[1], 10)
        case None =>
          lines := 100;
        case Some(v) =>
          lines := v;
          if lines <= 0 {
            lines := 100;
          }
          if lines > 1000 {
            lines := 1000;
          }
      }
    }
  }

  lemma ApplyPairsSnoc(q: LogQuery, pairs: seq<string>, i: nat)
    requires i < |pairs|
    ensures ApplyPairs(q, pairs[..i + 1]) == ApplyPair(ApplyPairs(q, pairs[..i]), pairs[i])
  {
    assert pairs[..i + 1][..i] == pairs[..i];
  }

  lemma {:induction false} ApplyPairsLines(q: LogQuery, pairs: seq<string>)
    requires 1 <= q.lines <= 1000
    ensures 1 <= ApplyPairs(q, pairs).lines <= 1000
    decreases |pairs|
  {
    if pairs != [] {
      ApplyPairsLines(q, pairs[..|pairs| - 1]);
    }
  }

  /** Whatever the URI, the count used lies in 1..1000. */
  lemma QueryLinesInRange(uri: string)
    ensures 1 <= QueryOf(uri).lines <= 1000
  {
    var pos := StringUtils.IndexOfChar(uri, '?');
    if pos < |uri| {
      ApplyPairsLines(DefaultQuery, StringUtils.SplitSpec(uri[pos + 1..], '&'));
    }
  }

  /** Without a "level" pair the level is kept. */
  lemma {:induction false} NoLevelKeeps(q: LogQuery, pairs: seq<string>)
    requires forall i :: 0 <= i < |pairs| ==> !IsPairFor(pairs[i], "level")
    ensures ApplyPairs(q, pairs).logLevel == q.logLevel
    decreases |pairs|
  {
    if pairs != [] {
      NoLevelKeeps(q, pairs[..|pairs| - 1]);
    }
  }

  /** The last "level" pair decides the level. */
  lemma {:induction false} LastLevelWins(q: LogQuery, pairs: seq<string>, i: nat)
    requires i < |pairs| && IsPairFor(pairs[i], "level")
    requires forall j :: i < j < |pairs| ==> !IsPairFor(pairs[j], "level")
    ensures ApplyPairs(q, pairs).logLevel == PairValue(pairs[i])
    decreases |pairs|
  {
    var front := pairs[..|pairs| - 1];
    if i < |front| {
      LastLevelWins(q, front, i);
    }
  }

  /** Without a "lines" pair the count is kept. */
  lemma {:induction false} NoLinesKeeps(q: LogQuery, pairs: seq<string>)
    requires forall i :: 0 <= i < |pairs| ==> !IsPairFor(pairs[i], "lines")
    ensures ApplyPairs(q, pairs).lines == q.lines
    decreases |pairs|
  {
    if pairs != [] {
      NoLinesKeeps(q, pairs[..|pairs| - 1]);
    }
  }

  /** The last "lines" pair decides the count. */
  lemma {:induction false} LastLinesWins(q: LogQuery, pairs: seq<string>, i: nat)
    requires i < |pairs| && IsPairFor(pairs[i], "lines")
    requires forall j :: i < j < |pairs| ==> !IsPairFor(pairs[j], "lines")
    ensures ApplyPairs(q, pairs).lines == LinesValue(PairValue(pairs[i]))
    decreases |pairs|
  {
    var front := pairs[..|pairs| - 1];
    if i < |front| {
      LastLinesWins(q, front, i);
    }
  }

  // ---------------------------------------------------------------------
  // getLogs: filter and tail
  // ---------------------------------------------------------------------

  /** Level "ALL" keeps every line; any other level the lines holding
      "[LEVEL]". */
  predicate Keeps(logLevel: string, line: string)
  {
    logLevel == "ALL" || StringUtils.Find(line, "[" + logLevel + "]").Some?
  }

  /** The kept lines, in file order. */
  function FilterLog(allLines: seq<string>, logLevel: string): seq<string>
    decreases |allLines|
  {
    if allLines == [] then []
    else
      var last := allLines[|allLines| - 1];
      FilterLog(allLines[..|allLines| - 1], logLevel) + (if Keeps(logLevel, last) then [last] else [])
  }

  /** The filter loop of `getLogs`. */
  method FilterLines(allLines: seq<string>, logLevel: string) returns (filteredLines: seq<string>)
    ensures filteredLines == FilterLog(allLines, logLevel)
  {
    filteredLines := [];
    for i := 0 to |allLines|
      invariant filteredLines == FilterLog(allLines[..i], logLevel)
    {
      assert allLines[..i + 1][..i] == allLines[..i];
      var line := allLines[i];
      if logLevel == "ALL" || StringUtils.Find(line, "[" + logLevel + "]").Some? {
        filteredLines := filteredLines + [line];
      }
    }
    assert allLines[..|allLines|] == allLines;
  }

  /** A line is kept exactly when it is in the file and matches. */
  lemma {:induction false} FilterLogMembers(allLines: seq<string>, logLevel: string)
    ensures |FilterLog(allLines, logLevel)| <= |allLines|
    ensures forall x :: x in FilterLog(allLines, logLevel) <==> x in allLines && Keeps(logLevel, x)
    decreases |allLines|
  {
    if allLines != [] {
      var front := allLines[..|allLines| - 1];
      FilterLogMembers(front, logLevel);
      assert allLines == front + [allLines[|allLines| - 1]];
    }
  }

  /** The filter keeps file order: filtering a concatenation concatenates
      the filtered parts. */
  lemma {:induction false} FilterLogAppend(a: seq<string>, b: seq<string>, logLevel: string)
    ensures FilterLog(a + b, logLevel) == FilterLog(a, logLevel) + FilterLog(b, logLevel)
    decreases |b|
  {
    if b == [] {
      assert a + b == a;
    } else {
      var front := b[..|b| - 1];
      FilterLogAppend(a, front, logLevel);
      assert (a + b)[..|a + b| - 1] == a + front;
    }
  }

  /** Level "ALL" returns the whole file. */
  lemma {:induction false} FilterLogAll(allLines: seq<string>)
    ensures FilterLog(allLines, "ALL") == allLines
    decreases |allLines|
  {
    if allLines != [] {
      FilterLogAll(allLines[..|allLines| - 1]);
    }
  }

  /** The last `lines` lines, or all of them when there are no more. */
  function Tail(filteredLines: seq<string>, lines: nat): (r: seq<string>)
    ensures |r| == (if |filteredLines| > lines then lines else |filteredLines|)
    ensures r == filteredLines[|filteredLines| - |r|..]
  {
    var startLine := if |filteredLines| > lines then |filteredLines| - lines else 0;
    filteredLines[startLine..]
  }

  datatype LogFile = Missing | Unreadable | Readable(allLines: seq<string>)

  /** What `getLogs` answers: 404 without the file, 500 when it cannot be
      read, otherwise the level, the number of kept lines and their tail. */
  function GetLogsSpec(uri: string, file: LogFile): Reply
  {
    match file
    case Missing => CreateErrorResponse(404, "Log file not found")
    case Unreadable => CreateErrorResponse(500, "Failed to read log file")
    case Readable(allLines) =>
      var q := QueryOf(uri);
      var filteredLines := FilterLog(allLines, q.logLevel);
      Reply(200, "OK", JsonContent,
            LogsBody(q.logLevel, |filteredLines|, Tail(filteredLines, if q.lines < 0 then 0 else q.lines)))
  }

  /** `getLogs`. */
  method GetLogs(request: RestServer.HttpRequest, file: LogFile) returns (reply: Reply)
    ensures reply == GetLogsSpec(request.uri, file)
  {
    var logLevel, lines := ParseLogQuery(request.uri);
    QueryLinesInRange(request.uri);
    if file.Missing? {
      return CreateErrorResponse(404, "Log file not found");
    }
    if file.Unreadable? {
      return CreateErrorResponse(500, "Failed to read log file");
    }
    var filteredLines := FilterLines(file.allLines, logLevel);
    var startLine := 0;
    if |filteredLines| > lines {
      startLine := |filteredLines| - lines;
    }
    var resultLines := filteredLines[startLine..];
    reply := Reply(200, "OK", JsonContent, LogsBody(logLevel, |filteredLines|, resultLines));
  }

  /** The listing of a readable file: the last min(lines, kept) kept lines
      in file order, at most 1000 of them, each one a line of the file at
      the requested level; `total_lines` counts every kept line. */
  lemma GetLogsMeaning(uri: string, allLines: seq<string>)
    ensures var reply := GetLogsSpec(uri, Readable(allLines));
      var q := QueryOf(uri);
      var kept := FilterLog(allLines, q.logLevel);
      reply.statusCode == 200 && reply.body.LogsBody? &&
      reply.body.logLevel == q.logLevel &&
      reply.body.totalLines == |kept| &&
      |reply.body.logs| == (if |kept| > q.lines then q.lines else |kept|) &&
      reply.body.logs == kept[|kept| - |reply.body.logs|..] &&
      |reply.body.logs| <= 1000 &&
      forall x :: x in reply.body.logs ==> x in allLines && Keeps(q.logLevel, x)
  {
    var q := QueryOf(uri);
    QueryLinesInRange(uri);
    var kept := FilterLog(allLines, q.logLevel);
    FilterLogMembers(allLines, q.logLevel);
    TailMembers(kept, q.lines);
    assert GetLogsSpec(uri, Readable(allLines)) == Reply(200, "OK", JsonContent, LogsBody(q.logLevel, |kept|, Tail(kept, q.lines)));
  }

  /** Every line of a tail is a line of what it was taken from. */
  lemma TailMembers(kept: seq<string>, n: nat)
    ensures forall x :: x in Tail(kept, n) ==> x in kept
  {
    var logs := Tail(kept, n);
    forall x | x in logs
      ensures x in kept
    {
      var k :| 0 <= k < |logs| && logs[k] == x;
      assert x == kept[|kept| - |logs| + k];
    }
  }

  // ---------------------------------------------------------------------
  // banAccount
  // ---------------------------------------------------------------------

  const AccountBanned := "{\"success\":true,\"message\":\"Account banned successfully\"}"
  const AccountUnbanned := "{\"success\":true,\"message\":\"Account unbanned successfully\"}"

  /** `banAccount(login)`: the body first, then the account; "banned"
      defaults to true and "reason" to "". A member of the wrong type
      throws inside the handler's `try` and gives 500. */
  function BanAccount(lib: JsonLib, request: RestServer.HttpRequest, login: string, store: Store, writeOk: bool): (r: (Reply, Store))
  {
    match ParseRequestJson(lib, request)
    case Err(reply) => (reply, store)
    case Ok(jsonStr) =>
      if login !in store.accounts then (CreateErrorResponse(404, "Account not found"), store)
      else match lib.parse(jsonStr)
      case Err(_) => (CreateErrorResponse(500, "Internal server error"), store)
      case Ok(doc) =>
        match (OptionalBool(lib, doc, "banned", true), OptionalString(lib, doc, "reason", ""))
        case (Ok(banned), Ok(reason)) =>
          if !writeOk then (CreateErrorResponse(500, "Failed to update ban status"), store)
          else
            (Success(200, "OK", if banned then AccountBanned else AccountUnbanned),
             store.(accounts := store.accounts[login := store.accounts[login].(banned := banned, banReason := reason)]))
        case _ => (CreateErrorResponse(500, "Internal server error"), store)
  }

  /** A bad body is reported before a missing account. */
  lemma BanBodyBeforeAccount(lib: JsonLib, request: RestServer.HttpRequest, login: string, store: Store, writeOk: bool)
    requires ParseRequestJson(lib, request).Err?
    ensures BanAccount(lib, request, login, store, writeOk) == (ParseRequestJson(lib, request).error, store)
    ensures BanAccount(lib, request, login, store, writeOk).0.statusCode == 400
  {
  }

  /** Every outcome of `banAccount`: 200 sets exactly the named account's
      ban flag and reason, to the given values or the defaults true and "";
      any other outcome changes nothing. */
  lemma BanAccountOutcome(lib: JsonLib, request: RestServer.HttpRequest, login: string, store: Store, writeOk: bool)
    ensures var (reply, after) := BanAccount(lib, request, login, store, writeOk);
      reply.statusCode in {400, 404, 500, 200} &&
      (reply.statusCode != 200 ==> after == store && IsError(reply)) &&
      (reply.statusCode == 200 ==>
        var doc := lib.parse(request.body).value;
        var banned := if Contains(doc, "banned") then doc.members["banned"].b else true;
        var reason := if Contains(doc, "reason") then doc.members["reason"].s else "";
        login in store.accounts && writeOk &&
        (Contains(doc, "banned") ==> doc.members["banned"].JBool?) &&
        (Contains(doc, "reason") ==> doc.members["reason"].JString?) &&
        after.characters == store.characters &&
        after.accounts == store.accounts[login := store.accounts[login].(banned := banned, banReason := reason)] &&
        reply.body == Text(if banned then AccountBanned else AccountUnbanned))
  {
  }

  // ---------------------------------------------------------------------
  // shutdownServer and restartServer
  // ---------------------------------------------------------------------

  datatype StopKind = Shutdown | Restart

  /** The verb of the delayed reply. */
  function Verb(kind: StopKind): string
  {
    match kind
    case Shutdown => "shut down"
    case Restart => "restart"
  }

  /** The reply without a delay. */
  function Immediate(kind: StopKind): string
  {
    match kind
    case Shutdown => "{\"success\":true,\"message\":\"Server is shutting down\"}"
    case Restart => "{\"success\":true,\"message\":\"Server is restarting\"}"
  }

  /** The reply with a delay of `delay` seconds. */
  function Delayed(kind: StopKind, delay: int): string
  {
    "{\"success\":true,\"message\":\"Server will " + Verb(kind) + " in " + Stoi.IntToString(delay) + " seconds\"}"
  }

  /** `shutdownServer` and `restartServer`, which differ only in their
      texts: "delay" defaults to 0 and "reason" to "Server maintenance";
      the process exits after `delay` seconds when it is positive, else
      after one second. The second component is that exit, if any. */
  function StopServer(lib: JsonLib, request: RestServer.HttpRequest, kind: StopKind): (r: (Reply, Option<int>))
  {
    match ParseRequestJson(lib, request)
    case Err(reply) => (reply, None)
    case Ok(jsonStr) =>
      match lib.parse(jsonStr)
      case Err(_) => (CreateErrorResponse(500, "Internal server error"), None)
      case Ok(doc) =>
        match (OptionalInt(lib, doc, "delay", 0), OptionalString(lib, doc, "reason", "Server maintenance"))
        case (Ok(delay), Ok(_)) =>
          if delay > 0 then (Success(200, "OK", Delayed(kind, delay)), Some(delay))
          else (Success(200, "OK", Immediate(kind)), Some(1))
        case _ => (CreateErrorResponse(500, "Internal server error"), None)
  }

  function ShutdownServer(lib: JsonLib, request: RestServer.HttpRequest): (Reply, Option<int>)
  {
    StopServer(lib, request, Shutdown)
  }

  function RestartServer(lib: JsonLib, request: RestServer.HttpRequest): (Reply, Option<int>)
  {
    StopServer(lib, request, Restart)
  }

  /** An exit is scheduled exactly when the reply is 200, and never
      sooner than a second; a missing "delay" counts as 0, and the reply
      names the delay exactly when it is positive. */
  lemma StopServerOutcome(lib: JsonLib, request: RestServer.HttpRequest, kind: StopKind)
    ensures var (reply, exitAfter) := StopServer(lib, request, kind);
      (exitAfter.Some? <==> reply.statusCode == 200) &&
      (reply.statusCode != 200 ==> IsError(reply)) &&
      (exitAfter.Some? ==>
        exitAfter.value >= 1 && lib.parse(request.body).Ok? &&
        var doc := lib.parse(request.body).value;
        var delay := if Contains(doc, "delay") then AsInt(lib, doc.members["delay"]).value else 0;
        (delay > 0 ==> reply.body == Text(Delayed(kind, delay)) && exitAfter.value == delay) &&
        (delay <= 0 ==> reply.body == Text(Immediate(kind)) && exitAfter.value == 1))
  {
  }

  /** The two replies can be told apart, and the delayed one determines
      the delay. */
  lemma StopRepliesDistinct(kind: StopKind, a: int, b: int)
    requires a > 0 && b > 0
    ensures Delayed(kind, a) != Immediate(kind)
    ensures Delayed(kind, a) == Delayed(kind, b) <==> a == b
  {
    var head := "{\"success\":true,\"message\":\"Server will " + Verb(kind) + " in ";
    var tail := " seconds\"}";
    assert Delayed(kind, a) == head + Stoi.NatToString(a) + tail;
    assert Delayed(kind, b) == head + Stoi.NatToString(b) + tail;
    assert Delayed(kind, a)[34] == 'w';
    assert Immediate(kind)[34] == 'i';
    if Delayed(kind, a) == Delayed(kind, b) {
      assert Stoi.NatToString(a) == Delayed(kind, a)[|head|..|Delayed(kind, a)| - |tail|];
      assert Stoi.NatToString(b) == Delayed(kind, b)[|head|..|Delayed(kind, b)| - |tail|];
      Stoi.NatToStringInjective(a, b);
    }
  }
}
