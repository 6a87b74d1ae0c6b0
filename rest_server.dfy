/**
 * RestServer: the HTTP layer of the REST API. Requests are parsed from the
 * raw text, looked up in the route table (exact routes first, then the
 * `{param}` patterns), answered, and formatted back to text; API keys come
 * from a Bearer token or an `api_key` query pair.
 *
 * The sockets, the asynchronous reads and writes, the route handlers and
 * the clock are outside the model: the handlers are named by their route,
 * the iteration order of the unordered maps and the current date are
 * parameters.
 */
module RestServer {
  import opened Wrappers
  import StringUtils
  import Stoi

  datatype HttpRequest = HttpRequest(httpMethod: string, uri: string, version: string, headers: map<string, string>, body: string)

  datatype HttpResponse = HttpResponse(statusCode: int, statusMessage: string, headers: map<string, string>, body: string)


  // ---------------------------------------------------------------------
  // Reading lines and words
  // ---------------------------------------------------------------------

  /** One `std::getline`: the text before the first '\n', and what follows
      that '\n' (nothing when there is none). */
  function GetLine(s: string): (r: (string, string))
    requires s != []
    ensures '\n' !in r.0
    ensures |r.1| < |s|
  {
    var e := StringUtils.IndexOfChar(s, '\n');
    (s[..e], if e < |s| then s[e + 1..] else [])
  }

  /** The first `c` of `a + [c] + b`, when `a` has none, is at |a|. */
  lemma IndexAfter(a: string, c: char, b: string)
    requires c !in a
    ensures StringUtils.IndexOfChar(a + [c] + b, c) == |a|
    ensures (a + [c] + b)[..|a|] == a && (a + [c] + b)[|a| + 1..] == b
  {
    var s := a + [c] + b;
    assert forall k :: 0 <= k < |a| ==> s[k] == a[k];
    StringUtils.IndexOfCharUnique(s, c, |a|);
    assert s[..|a|] == a;
    assert s[|a| + 1..] == b;
  }

  lemma GetLineOf(line: string, rest: string)
    requires '\n' !in line
    ensures GetLine(line + "\n" + rest) == (line, rest)
  {
    IndexAfter(line, '\n', rest);
  }

  /** The length of the leading run of non-whitespace characters. */
  function WordLength(s: string): (n: nat)
    ensures n <= |s|
    ensures forall k :: 0 <= k < n ==> !StringUtils.IsSpace(s[k])
    ensures n < |s| ==> StringUtils.IsSpace(s[n])
  {
    if s == [] || StringUtils.IsSpace(s[0]) then 0 else 1 + WordLength(s[1..])
  }

  /** `stream >> word`: whitespace skipped, then the text up to the next
      whitespace; "" when nothing is left. */
  function ReadWord(s: string): (r: (string, string))
  {
    var t := StringUtils.TrimLeft(s);
    var n := WordLength(t);
    (t[..n], t[n..])
  }

  /** The request line: method, URI and version are its first three words. */
  function RequestLine(line: string): (string, string, string)
  {
    var (m, r1) := ReadWord(line);
    var (u, r2) := ReadWord(r1);
    var (v, _) := ReadWord(r2);
    (m, u, v)
  }

  // ---------------------------------------------------------------------
  // parseRequest
  // ---------------------------------------------------------------------

  /** A header line is split at its first ':' into a trimmed name and a
      trimmed value; a line without ':' is skipped; a repeated name keeps
      the last value. */
  function AddHeader(headers: map<string, string>, line: string): map<string, string>
  {
    var colon := StringUtils.IndexOfChar(line, ':');
    if colon < |line| then
      headers[StringUtils.Trim(line[..colon]) := StringUtils.Trim(line[colon + 1..])]
    else headers
  }

  predicate EndOfHeaders(line: string)
  {
    line == "\r" || line == []
  }

  /** The header loop on the unread text: the headers, and the body (the
      raw text after the terminating line) when a terminator was read. */
  function ScanHeaders(s: string, headers: map<string, string>): (map<string, string>, Option<string>)
    decreases |s|
  {
    if s == [] then (headers, None)
    else
      var (line, rest) := GetLine(s);
      if EndOfHeaders(line) then (headers, Some(rest))
      else ScanHeaders(rest, AddHeader(headers, line))
  }

  /** `parseRequest`: request line, header lines up to "\r" or "", then the
      rest as the body, which stays "" when no terminator is read. */
  function ParseRequestSpec(data: string): HttpRequest
  {
    var (m, u, v) := if data == [] then ([], [], []) else RequestLine(GetLine(data).0);
    var rest := if data == [] then [] else GetLine(data).1;
    var (h, body) := ScanHeaders(rest, map[]);
    HttpRequest(m, u, v, h, body.GetOr([]))
  }

  /** `parseRequest`, one `getline` per step. */
  method ParseRequest(data: string) returns (request: HttpRequest)
    ensures request == ParseRequestSpec(data)
  {
    var m, u, v := [], [], [];
    var stream := data;
    if stream != [] {
      var (line, rest) := GetLine(stream);
      stream := rest;
      m, u, v := RequestLine(line).0, RequestLine(line).1, RequestLine(line).2;
    }
    ghost var start := stream;
    var headers: map<string, string> := map[];
    var body := [];
    var inHeaders := true;
    while inHeaders && stream != []
      invariant inHeaders ==> ScanHeaders(stream, headers) == ScanHeaders(start, map[])
      invariant !inHeaders ==> ScanHeaders(start, map[]) == (headers, Some(stream))
      decreases |stream|, inHeaders
    {
      var (line, rest) := GetLine(stream);
      stream := rest;
      if EndOfHeaders(line) {
        inHeaders := false;
      } else {
        headers := AddHeader(headers, line);
      }
    }
    if !inHeaders {
      body := stream;
    }
    request := HttpRequest(m, u, v, headers, body);
  }

  // ---------------------------------------------------------------------
  // Reading back a well-formed request
  // ---------------------------------------------------------------------

  /** A non-empty word without whitespace. */
  predicate IsToken(w: string)
  {
    w != [] && forall k :: 0 <= k < |w| ==> !StringUtils.IsSpace(w[k])
  }

  /** A header that reads back as itself from "name: value". */
  predicate SafeHeader(h: (string, string))
  {
    ':' !in h.0 && '\n' !in h.0 && '\n' !in h.1 && StringUtils.Trimmed(h.0) && StringUtils.Trimmed(h.1)
  }

  /** One header written as "name: value" and CRLF. */
  function HeaderLine(h: (string, string)): string
  {
    h.0 + ": " + h.1 + "\r\n"
  }

  predicate AllSafe(hs: seq<(string, string)>)
  {
    forall i :: 0 <= i < |hs| ==> SafeHeader(hs[i])
  }

  function HeaderText(hs: seq<(string, string)>): string
  {
    if hs == [] then [] else HeaderLine(hs[0]) + HeaderText(hs[1..])
  }

  /** The headers after the pairs of `hs`, in order, are stored over `h`. */
  function HeadersOf(h: map<string, string>, hs: seq<(string, string)>): map<string, string>
    decreases |hs|
  {
    if hs == [] then h else HeadersOf(h[hs[0].0 := hs[0].1], hs[1..])
  }

  /** A request written with CRLF line ends. */
  function RenderRequest(m: string, u: string, v: string, hs: seq<(string, string)>, body: string): string
  {
    m + " " + u + " " + v + "\r\n" + HeaderText(hs) + "\r\n" + body
  }

  lemma {:induction false} WordLengthOf(w: string, rest: string)
    requires forall k :: 0 <= k < |w| ==> !StringUtils.IsSpace(w[k])
    requires rest == [] || StringUtils.IsSpace(rest[0])
    ensures WordLength(w + rest) == |w|
    decreases |w|
  {
    if w == [] {
      assert w + rest == rest;
    } else {
      assert (w + rest)[0] == w[0];
      assert (w + rest)[1..] == w[1..] + rest;
      WordLengthOf(w[1..], rest);
    }
  }

  /** Reading a token followed by whitespace. */
  lemma ReadToken(lead: string, w: string, rest: string)
    requires lead == [] || lead == " "
    requires IsToken(w)
    requires rest != [] && StringUtils.IsSpace(rest[0])
    ensures ReadWord(lead + w + rest) == (w, rest)
  {
    var s := lead + w + rest;
    var t := w + rest;
    assert t[0] == w[0];
    assert StringUtils.TrimLeft(t) == t;
    if lead == " " {
      assert s[0] == ' ';
      assert s[1..] == t;
    } else {
      assert s == t;
    }
    WordLengthOf(w, rest);
    assert t[..|w|] == w && t[|w|..] == rest;
  }

  lemma RequestLineOf(m: string, u: string, v: string)
    requires IsToken(m) && IsToken(u) && IsToken(v)
    ensures RequestLine(m + " " + u + " " + v + "\r") == (m, u, v)
  {
    ReadToken([], m, " " + u + " " + v + "\r");
    assert [] + m + (" " + u + " " + v + "\r") == m + " " + u + " " + v + "\r";
    ReadToken(" ", u, " " + v + "\r");
    assert " " + u + (" " + v + "\r") == " " + u + " " + v + "\r";
    ReadToken(" ", v, "\r");
  }

  lemma TrimPadded(v: string)
    requires StringUtils.Trimmed(v)
    ensures StringUtils.Trim(" " + v + "\r") == v
  {
    var s := " " + v + "\r";
    assert s[1..] == v + "\r";
    if v == [] {
      assert (v + "\r") == "\r";
      assert StringUtils.TrimLeft("\r") == [];
    } else {
      assert (v + "\r")[0] == v[0];
      assert StringUtils.TrimLeft(v + "\r") == v + "\r";
      assert (v + "\r")[..|v|] == v;
      StringUtils.TrimOfTrimmed(v);
    }
  }

  /** A header line is split at its first ':'. */
  lemma AddHeaderSplit(headers: map<string, string>, name: string, rest: string)
    requires ':' !in name
    ensures AddHeader(headers, name + ":" + rest) == headers[StringUtils.Trim(name) := StringUtils.Trim(rest)]
  {
    IndexAfter(name, ':', rest);
  }

  lemma AddHeaderOf(headers: map<string, string>, h: (string, string))
    requires SafeHeader(h)
    ensures AddHeader(headers, h.0 + ": " + h.1 + "\r") == headers[h.0 := h.1]
  {
    assert h.0 + ": " + h.1 + "\r" == h.0 + ":" + (" " + h.1 + "\r");
    AddHeaderSplit(headers, h.0, " " + h.1 + "\r");
    StringUtils.TrimOfTrimmed(h.0);
    TrimPadded(h.1);
  }

  /** The header lines of a written request, up to its blank line, read
      back as its headers, and the text after the blank line as its body. */
  lemma {:induction false} ScanHeaderText(hs: seq<(string, string)>, h: map<string, string>, body: string)
    requires AllSafe(hs)
    ensures ScanHeaders(HeaderText(hs) + "\r\n" + body, h) == (HeadersOf(h, hs), Some(body))
    decreases |hs|
  {
    if hs == [] {
      assert HeaderText(hs) + "\r\n" + body == "\r" + "\n" + body;
      GetLineOf("\r", body);
    } else {
      var line := hs[0].0 + ": " + hs[0].1 + "\r";
      var rest := HeaderText(hs[1..]) + "\r\n" + body;
      assert HeaderLine(hs[0]) == line + "\n";
      assert HeaderText(hs) + "\r\n" + body == line + "\n" + rest;
      assert '\n' !in line;
      GetLineOf(line, rest);
      assert !EndOfHeaders(line) by {
        assert line[|hs[0].0|] == ':';
      }
      AddHeaderOf(h, hs[0]);
      assert AllSafe(hs[1..]) by {
        assert forall i :: 0 <= i < |hs| - 1 ==> hs[1..][i] == hs[i + 1];
      }
      ScanHeaderText(hs[1..], h[hs[0].0 := hs[0].1], body);
    }
  }

  /** A request written with well-formed request line and headers parses
      back to its parts: each header with the last value given for its
      name, and the body unchanged. */
  lemma ParseRenderedRequest(m: string, u: string, v: string, hs: seq<(string, string)>, body: string)
    requires IsToken(m) && IsToken(u) && IsToken(v)
    requires AllSafe(hs)
    ensures ParseRequestSpec(RenderRequest(m, u, v, hs, body)) == HttpRequest(m, u, v, HeadersOf(map[], hs), body)
  {
    var words := m + " " + u + " " + v;
    var first := words + "\r";
    var rest := HeaderText(hs) + "\r\n" + body;
    assert words + "\r\n" == first + "\n";
    StringUtils.ConcatAssoc(first + "\n", HeaderText(hs), "\r\n");
    StringUtils.ConcatAssoc(first + "\n", HeaderText(hs) + "\r\n", body);
    StringUtils.ConcatAssoc(first, "\n", rest);
    assert RenderRequest(m, u, v, hs, body) == first + "\n" + rest;
    TokenHasNoNewline(m);
    TokenHasNoNewline(u);
    TokenHasNoNewline(v);
    assert '\n' !in m + " " + u;
    assert '\n' !in words;
    assert '\n' !in first;
    ParseRequestOf(first, rest);
    RequestLineOf(m, u, v);
    ScanHeaderText(hs, map[], body);
  }

  lemma TokenHasNoNewline(w: string)
    requires IsToken(w)
    ensures '\n' !in w
  {
    assert StringUtils.IsSpace('\n');
  }

  /** `parseRequest` on a first line and the text after it. */
  lemma ParseRequestOf(first: string, rest: string)
    requires '\n' !in first
    ensures ParseRequestSpec(first + "\n" + rest) ==
      HttpRequest(RequestLine(first).0, RequestLine(first).1, RequestLine(first).2,
                  ScanHeaders(rest, map[]).0, ScanHeaders(rest, map[]).1.GetOr([]))
  {
    GetLineOf(first, rest);
  }

  /** A later value for a header name replaces an earlier one. */
  lemma {:induction false} HeadersOfLastWins(h: map<string, string>, hs: seq<(string, string)>, i: nat)
    requires i < |hs|
    requires forall j :: i < j < |hs| ==> hs[j].0 != hs[i].0
    ensures hs[i].0 in HeadersOf(h, hs) && HeadersOf(h, hs)[hs[i].0] == hs[i].1
    decreases |hs|
  {
    if i == 0 {
      HeadersOfKeeps(h[hs[0].0 := hs[0].1], hs[1..], hs[0].0);
    } else {
      HeadersOfLastWins(h[hs[0].0 := hs[0].1], hs[1..], i - 1);
    }
  }

  /** A name that no later pair sets keeps its value. */
  lemma {:induction false} HeadersOfKeeps(h: map<string, string>, hs: seq<(string, string)>, name: string)
    requires forall j :: 0 <= j < |hs| ==> hs[j].0 != name
    ensures name in HeadersOf(h, hs) <==> name in h
    ensures name in h ==> HeadersOf(h, hs)[name] == h[name]
    decreases |hs|
  {
    if hs != [] {
      HeadersOfKeeps(h[hs[0].0 := hs[0].1], hs[1..], name);
    }
  }

  /** Reading pairs one after another is reading the first part, then the
      second. */
  lemma {:induction false} HeadersOfAppend(h: map<string, string>, a: seq<(string, string)>, b: seq<(string, string)>)
    ensures HeadersOf(h, a + b) == HeadersOf(HeadersOf(h, a), b)
    decreases |a|
  {
    if a == [] {
      assert a + b == b;
    } else {
      assert (a + b)[0] == a[0];
      assert (a + b)[1..] == a[1..] + b;
      HeadersOfAppend(h[a[0].0 := a[0].1], a[1..], b);
    }
  }

  lemma {:induction false} HeaderTextAppend(a: seq<(string, string)>, b: seq<(string, string)>)
    ensures HeaderText(a + b) == HeaderText(a) + HeaderText(b)
    decreases |a|
  {
    if a == [] {
      assert a + b == b;
    } else {
      assert (a + b)[0] == a[0];
      assert (a + b)[1..] == a[1..] + b;
      HeaderTextAppend(a[1..], b);
    }
  }

  // ---------------------------------------------------------------------
  // formatResponse
  // ---------------------------------------------------------------------

  function StatusLine(code: int, message: string): string
  {
    "HTTP/1.1 " + Stoi.IntToString(code) + " " + message + "\r\n"
  }

  /** `order` lists every key of `m` once: the iteration order of an
      unordered map, which the model leaves open. */
  ghost predicate Enumerates<V>(m: map<string, V>, order: seq<string>)
  {
    (forall k :: k in m <==> k in order) &&
    (forall i, j :: 0 <= i < j < |order| ==> order[i] != order[j])
  }

  /** The headers of `m` in the order `order`. */
  function Pairs(m: map<string, string>, order: seq<string>): (r: seq<(string, string)>)
    requires forall i :: 0 <= i < |order| ==> order[i] in m
    ensures |r| == |order|
    ensures forall i :: 0 <= i < |r| ==> r[i] == (order[i], m[order[i]])
  {
    if order == [] then [] else [(order[0], m[order[0]])] + Pairs(m, order[1..])
  }

  /** The headers `formatResponse` adds when the response lacks them:
      Content-Length, Date and Server, in that order. */
  function AddedHeaders(headers: map<string, string>, bodyLength: nat, date: string, serverName: string): seq<(string, string)>
  {
    IfAbsent(headers, ("Content-Length", Stoi.NatToString(bodyLength))) +
    IfAbsent(headers, ("Date", date)) +
    IfAbsent(headers, ("Server", "D3Server/" + serverName))
  }

  function IfAbsent(headers: map<string, string>, h: (string, string)): seq<(string, string)>
  {
    if h.0 in headers then [] else [h]
  }

  /** `formatResponse`: the status line, the headers in iteration order,
      the added headers, a blank line and the body. */
  function FormatSpec(response: HttpResponse, order: seq<string>, date: string, serverName: string): string
    requires forall i :: 0 <= i < |order| ==> order[i] in response.headers
  {
    StatusLine(response.statusCode, response.statusMessage) +
    HeaderText(Pairs(response.headers, order) + AddedHeaders(response.headers, |response.body|, date, serverName)) +
    "\r\n" + response.body
  }

  /** `formatResponse`, one stream insertion per header. */
  method FormatResponse(response: HttpResponse, order: seq<string>, date: string, serverName: string) returns (text: string)
    requires forall i :: 0 <= i < |order| ==> order[i] in response.headers
    ensures text == FormatSpec(response, order, date, serverName)
  {
    var headers := response.headers;
    var status := StatusLine(response.statusCode, response.statusMessage);
    text := status;
    ghost var written: seq<(string, string)> := [];
    var i := 0;
    while i < |order|
      invariant 0 <= i <= |order|
      invariant written == Pairs(headers, order[..i])
      invariant text == status + HeaderText(written)
    {
      var header := (order[i], headers[order[i]]);
      HeaderTextSnoc(written, header);
      PairsSnoc(headers, order, i);
      written := written + [header];
      text := text + HeaderLine(header);
      i := i + 1;
    }
    assert order[..i] == order;
    var contentLength := ("Content-Length", Stoi.NatToString(|response.body|));
    var dateHeader := ("Date", date);
    var serverHeader := ("Server", "D3Server/" + serverName);
    text := WriteIfAbsent(text, headers, contentLength);
    text := WriteIfAbsent(text, headers, dateHeader);
    text := WriteIfAbsent(text, headers, serverHeader);
    AddedHeadersText(status, written, headers, |response.body|, date, serverName);
    text := text + "\r\n";
    text := text + response.body;
  }

  lemma AddedHeadersText(status: string, written: seq<(string, string)>, headers: map<string, string>,
                         bodyLength: nat, date: string, serverName: string)
    ensures status + HeaderText(written)
      + HeaderText(IfAbsent(headers, ("Content-Length", Stoi.NatToString(bodyLength))))
      + HeaderText(IfAbsent(headers, ("Date", date)))
      + HeaderText(IfAbsent(headers, ("Server", "D3Server/" + serverName)))
      == status + HeaderText(written + AddedHeaders(headers, bodyLength, date, serverName))
  {
    var a1 := IfAbsent(headers, ("Content-Length", Stoi.NatToString(bodyLength)));
    var a2 := IfAbsent(headers, ("Date", date));
    var a3 := IfAbsent(headers, ("Server", "D3Server/" + serverName));
    HeaderTextAppend(a1, a2);
    HeaderTextAppend(a1 + a2, a3);
    HeaderTextAppend(written, a1 + a2 + a3);
    ConcatParts(status, HeaderText(written), HeaderText(a1), HeaderText(a2), HeaderText(a3));
  }

  lemma ConcatParts(a: string, b: string, c: string, d: string, e: string)
    ensures a + b + c + d + e == a + (b + (c + d + e))
  {
  }

  /** One of the optional headers: written only when the response lacks it. */
  method WriteIfAbsent(text: string, headers: map<string, string>, h: (string, string)) returns (r: string)
    ensures r == text + HeaderText(IfAbsent(headers, h))
  {
    r := text;
    if h.0 !in headers {
      assert HeaderText([h]) == HeaderLine(h) + [];
      r := r + HeaderLine(h);
    }
  }

  lemma HeaderTextSnoc(hs: seq<(string, string)>, h: (string, string))
    ensures HeaderText(hs + [h]) == HeaderText(hs) + HeaderLine(h)
  {
    HeaderTextAppend(hs, [h]);
    assert HeaderText([h]) == HeaderLine(h) + [];
  }

  lemma {:induction false} PairsSnoc(m: map<string, string>, order: seq<string>, i: nat)
    requires i < |order|
    requires forall j :: 0 <= j < |order| ==> order[j] in m
    ensures Pairs(m, order[..i + 1]) == Pairs(m, order[..i]) + [(order[i], m[order[i]])]
  {
    var r := Pairs(m, order[..i]) + [(order[i], m[order[i]])];
    assert |Pairs(m, order[..i + 1])| == |r|;
    assert forall j :: 0 <= j < |r| ==> Pairs(m, order[..i + 1])[j] == r[j];
  }

  /** The headers of a formatted response: its own, with the added ones
      where it had none. */
  function ResponseHeaders(response: HttpResponse, date: string, serverName: string): map<string, string>
  {
    var h := response.headers;
    var withLength := if "Content-Length" in h then h else h["Content-Length" := Stoi.NatToString(|response.body|)];
    var withDate := if "Date" in h then withLength else withLength["Date" := date];
    if "Server" in h then withDate else withDate["Server" := "D3Server/" + serverName]
  }

  /** A response keeps every header it had, and always carries
      Content-Length, Date and Server; an added Content-Length reads back
      as the body's length. */
  lemma ResponseHeadersComplete(response: HttpResponse, date: string, serverName: string)
    ensures var r := ResponseHeaders(response, date, serverName);
      r.Keys == response.headers.Keys + {"Content-Length", "Date", "Server"} &&
      (forall k :: k in response.headers ==> r[k] == response.headers[k]) &&
      ("Content-Length" !in response.headers && |response.body| <= StringUtils.INT_MAX ==>
         Stoi.Stoi(r["Content-Length"], 10) == Some(|response.body|))
  {
    var h := response.headers;
    var length := Stoi.NatToString(|response.body|);
    AddedNamesDistinct();
    var withLength := if "Content-Length" in h then h else h["Content-Length" := length];
    var withDate := if "Date" in h then withLength else withLength["Date" := date];
    var r := if "Server" in h then withDate else withDate["Server" := "D3Server/" + serverName];
    assert r == ResponseHeaders(response, date, serverName);
    assert withLength.Keys == h.Keys + {"Content-Length"};
    assert withDate.Keys == h.Keys + {"Content-Length", "Date"};
    assert r.Keys == h.Keys + {"Content-Length", "Date", "Server"};
    forall k | k in h
      ensures r[k] == h[k]
    {
      assert withLength[k] == h[k];
      assert withDate[k] == h[k];
    }
    if "Content-Length" !in h {
      assert withDate["Content-Length"] == length;
      assert r["Content-Length"] == length;
      if |response.body| <= StringUtils.INT_MAX {
        LengthReadsBack(|response.body|);
      }
    }
  }

  /** The names of the three added headers are distinct. */
  lemma AddedNamesDistinct()
    ensures "Content-Length" != "Date" && "Content-Length" != "Server" && "Date" != "Server"
  {
    assert |"Content-Length"| == 14 && |"Date"| == 4 && |"Server"| == 6;
  }

  lemma LengthReadsBack(n: nat)
    requires n <= StringUtils.INT_MAX
    ensures Stoi.Stoi(Stoi.NatToString(n), 10) == Some(n)
  {
    Stoi.StoiIntToString(n);
  }

  lemma {:induction false} HeadersOfPairs(h: map<string, string>, m: map<string, string>, order: seq<string>)
    requires forall i :: 0 <= i < |order| ==> order[i] in m
    ensures forall k :: k in HeadersOf(h, Pairs(m, order)) <==> k in h || k in order
    ensures forall k :: k in order ==> HeadersOf(h, Pairs(m, order))[k] == m[k]
    ensures forall k :: k !in order && k in h ==> HeadersOf(h, Pairs(m, order))[k] == h[k]
    decreases |order|
  {
    if order != [] {
      var p := Pairs(m, order);
      assert p[0] == (order[0], m[order[0]]);
      assert p[1..] == Pairs(m, order[1..]);
      HeadersOfPairs(h[order[0] := m[order[0]]], m, order[1..]);
      assert forall k :: k in order <==> k == order[0] || k in order[1..];
    }
  }

  /** Reading the headers of a map back in an enumeration order gives
      the map. */
  lemma HeadersOfEnumeration(m: map<string, string>, order: seq<string>)
    requires Enumerates(m, order)
    ensures HeadersOf(map[], Pairs(m, order)) == m
  {
    HeadersOfPairs(map[], m, order);
  }

  lemma AddedHeadersRead(response: HttpResponse, date: string, serverName: string)
    ensures HeadersOf(response.headers, AddedHeaders(response.headers, |response.body|, date, serverName))
      == ResponseHeaders(response, date, serverName)
  {
    var h := response.headers;
    var a1 := IfAbsent(h, ("Content-Length", Stoi.NatToString(|response.body|)));
    var a2 := IfAbsent(h, ("Date", date));
    var a3 := IfAbsent(h, ("Server", "D3Server/" + serverName));
    HeadersOfAppend(h, a1 + a2, a3);
    HeadersOfAppend(h, a1, a2);
  }

  lemma DigitsText(s: string)
    requires Stoi.AllDigits(s, 10)
    ensures forall k :: 0 <= k < |s| ==> !StringUtils.IsSpace(s[k]) && s[k] != ':'
  {
  }

  lemma IntToStringIsToken(n: int)
    ensures IsToken(Stoi.IntToString(n))
  {
    var m: nat := if n < 0 then -n else n;
    DigitsText(Stoi.NatToString(m));
  }

  /** Everything in a formatted response reads back: the version and the
      status code from the status line, then exactly the headers of
      `ResponseHeaders` and, after the blank line, the body. */
  lemma FormatReadsBack(response: HttpResponse, order: seq<string>, date: string, serverName: string)
    requires Enumerates(response.headers, order)
    requires forall k :: k in response.headers ==> SafeHeader((k, response.headers[k]))
    requires SafeHeader(("Date", date)) && SafeHeader(("Server", "D3Server/" + serverName))
    requires Stoi.InIntRange(response.statusCode) && '\n' !in response.statusMessage
    ensures var text := FormatSpec(response, order, date, serverName);
      text != [] &&
      var (line, rest) := GetLine(text);
      ReadWord(line).0 == "HTTP/1.1" &&
      Stoi.Stoi(ReadWord(ReadWord(line).1).0, 10) == Some(response.statusCode) &&
      ScanHeaders(rest, map[]) == (ResponseHeaders(response, date, serverName), Some(response.body))
  {
    var code := Stoi.IntToString(response.statusCode);
    var msg := response.statusMessage;
    var first := "HTTP/1.1 " + code + " " + msg + "\r";
    var hs := Pairs(response.headers, order) + AddedHeaders(response.headers, |response.body|, date, serverName);
    var rest := HeaderText(hs) + "\r\n" + response.body;
    StatusLineSplit(code, msg, HeaderText(hs), response.body);
    assert FormatSpec(response, order, date, serverName) == first + "\n" + rest;
    IntToStringIsToken(response.statusCode);
    TokenHasNoNewline(code);
    assert '\n' !in first;
    GetLineOf(first, rest);
    StatusLineWords(code, msg);
    Stoi.StoiIntToString(response.statusCode);
    HeaderPartReadsBack(response, order, date, serverName);
  }

  lemma HeaderPartReadsBack(response: HttpResponse, order: seq<string>, date: string, serverName: string)
    requires Enumerates(response.headers, order)
    requires forall k :: k in response.headers ==> SafeHeader((k, response.headers[k]))
    requires SafeHeader(("Date", date)) && SafeHeader(("Server", "D3Server/" + serverName))
    ensures var hs := Pairs(response.headers, order) + AddedHeaders(response.headers, |response.body|, date, serverName);
      ScanHeaders(HeaderText(hs) + "\r\n" + response.body, map[]) == (ResponseHeaders(response, date, serverName), Some(response.body))
  {
    var p := Pairs(response.headers, order);
    var a := AddedHeaders(response.headers, |response.body|, date, serverName);
    ResponseHeadersSafe(response, order, date, serverName);
    ScanHeaderText(p + a, map[], response.body);
    HeadersOfAppend(map[], p, a);
    HeadersOfEnumeration(response.headers, order);
    AddedHeadersRead(response, date, serverName);
  }

  lemma StatusLineSplit(code: string, msg: string, headerText: string, body: string)
    ensures "HTTP/1.1 " + code + " " + msg + "\r\n" + headerText + "\r\n" + body
      == ("HTTP/1.1 " + code + " " + msg + "\r") + "\n" + (headerText + "\r\n" + body)
  {
    var words := "HTTP/1.1 " + code + " " + msg;
    assert words + "\r\n" == words + "\r" + "\n";
    StringUtils.ConcatAssoc(words + "\r" + "\n", headerText, "\r\n");
    StringUtils.ConcatAssoc(words + "\r" + "\n", headerText + "\r\n", body);
  }

  lemma StatusLineWords(code: string, msg: string)
    requires IsToken(code)
    ensures ReadWord("HTTP/1.1 " + code + " " + msg + "\r").0 == "HTTP/1.1"
    ensures ReadWord(ReadWord("HTTP/1.1 " + code + " " + msg + "\r").1).0 == code
  {
    var version := "HTTP/1.1";
    VersionIsToken();
    assert "HTTP/1.1 " == version + " ";
    var front := version + " " + code + " ";
    assert "HTTP/1.1 " + code + " " == front;
    StringUtils.ConcatAssoc(front, msg, "\r");
    TwoWords(version, code, msg + "\r");
  }

  lemma VersionIsToken()
    ensures IsToken("HTTP/1.1")
  {
    var version := "HTTP/1.1";
    assert forall k :: 0 <= k < |version| ==> !StringUtils.IsSpace(version[k]);
  }

  /** The first two words of "v code rest", for tokens v and code. */
  lemma TwoWords(v: string, code: string, rest: string)
    requires IsToken(v) && IsToken(code)
    ensures ReadWord(v + " " + code + " " + rest).0 == v
    ensures ReadWord(ReadWord(v + " " + code + " " + rest).1).0 == code
  {
    var tail := " " + code + " " + rest;
    assert v + " " + code + " " + rest == [] + v + tail;
    ReadToken([], v, tail);
    assert tail == " " + code + (" " + rest);
    ReadToken(" ", code, " " + rest);
  }

  lemma ResponseHeadersSafe(response: HttpResponse, order: seq<string>, date: string, serverName: string)
    requires forall i :: 0 <= i < |order| ==> order[i] in response.headers
    requires forall k :: k in response.headers ==> SafeHeader((k, response.headers[k]))
    requires SafeHeader(("Date", date)) && SafeHeader(("Server", "D3Server/" + serverName))
    ensures AllSafe(Pairs(response.headers, order) + AddedHeaders(response.headers, |response.body|, date, serverName))
  {
    LengthHeaderSafe(|response.body|);
    var p := Pairs(response.headers, order);
    forall i | 0 <= i < |p|
      ensures SafeHeader(p[i])
    {
      assert p[i] == (order[i], response.headers[order[i]]);
    }
    var h := response.headers;
    var a1 := IfAbsent(h, ("Content-Length", Stoi.NatToString(|response.body|)));
    var a2 := IfAbsent(h, ("Date", date));
    var a3 := IfAbsent(h, ("Server", "D3Server/" + serverName));
    IfAbsentSafe(h, ("Content-Length", Stoi.NatToString(|response.body|)));
    IfAbsentSafe(h, ("Date", date));
    IfAbsentSafe(h, ("Server", "D3Server/" + serverName));
    AllSafeAppend(a1, a2);
    AllSafeAppend(a1 + a2, a3);
    AllSafeAppend(p, a1 + a2 + a3);
  }

  lemma IfAbsentSafe(headers: map<string, string>, h: (string, string))
    requires SafeHeader(h)
    ensures AllSafe(IfAbsent(headers, h))
  {
  }

  lemma AllSafeAppend(a: seq<(string, string)>, b: seq<(string, string)>)
    requires AllSafe(a) && AllSafe(b)
    ensures AllSafe(a + b)
  {
    forall i | 0 <= i < |a + b|
      ensures SafeHeader((a + b)[i])
    {
      if i < |a| {
        assert (a + b)[i] == a[i];
      } else {
        assert (a + b)[i] == b[i - |a|];
      }
    }
  }

  /** The Content-Length header written for a body is safe. */
  lemma LengthHeaderSafe(n: nat)
    ensures SafeHeader(("Content-Length", Stoi.NatToString(n)))
  {
    var length := Stoi.NatToString(n);
    DigitsText(length);
    var name := "Content-Length";
    assert forall k :: 0 <= k < |name| ==> name[k] != ':' && name[k] != '\n';
    assert !StringUtils.IsSpace(name[0]) && !StringUtils.IsSpace(name[|name| - 1]);
    assert !StringUtils.IsSpace(length[0]) && !StringUtils.IsSpace(length[|length| - 1]);
  }

  // ---------------------------------------------------------------------
  // Route patterns
  // ---------------------------------------------------------------------

  /** Where a `{name}` parameter at the start of `p` ends: the index of its
      '}', or 0 when `p` does not start with one ("{}" is not one). */
  function ParamEnd(p: string): (e: nat)
    ensures e == 0 || (2 <= e < |p| && p[0] == '{' && p[e] == '}')
    ensures e > 0 ==> forall k :: 0 < k < e ==> p[k] != '}'
  {
    if p != [] && p[0] == '{' then
      var e := StringUtils.IndexOfChar(p, '}');
      if 2 <= e < |p| then e else 0
    else 0
  }

  /** `regex_match` of `uri` against the pattern's regular expression, in
      which each `{name}` became `([^/]+)`: a parameter stands for one or
      more characters other than '/', every other character for itself. */
  function Match(p: string, u: string): bool
    decreases |p|, 1, 0
  {
    if p == [] then u == []
    else if ParamEnd(p) > 0 then MatchParam(p[ParamEnd(p) + 1..], u, 1)
    else u != [] && u[0] == p[0] && Match(p[1..], u[1..])
  }

  /** A parameter that takes at least u[..k], then `rest` matches what is
      left. */
  function MatchParam(rest: string, u: string, k: nat): bool
    requires k >= 1
    decreases |rest|, 2, |u| - k
  {
    k <= |u| && u[k - 1] != '/' && (Match(rest, u[k..]) || MatchParam(rest, u, k + 1))
  }

  function ParamCount(p: string): nat
    decreases |p|
  {
    if p == [] then 0
    else if ParamEnd(p) > 0 then 1 + ParamCount(p[ParamEnd(p) + 1..])
    else ParamCount(p[1..])
  }

  /** The URI a pattern names once its parameters take the values `args`. */
  function Instantiate(p: string, args: seq<string>): string
    requires |args| == ParamCount(p)
    decreases |p|
  {
    if p == [] then []
    else if ParamEnd(p) > 0 then args[0] + Instantiate(p[ParamEnd(p) + 1..], args[1..])
    else [p[0]] + Instantiate(p[1..], args)
  }

  /** A value a parameter can take: one or more characters, no '/'. */
  predicate ValidArgs(args: seq<string>)
  {
    forall i :: 0 <= i < |args| ==> args[i] != [] && '/' !in args[i]
  }

  lemma {:induction false} MatchParamFrom(rest: string, u: string, k: nat, j: nat)
    requires 1 <= k <= j <= |u|
    requires forall i :: k - 1 <= i < j ==> u[i] != '/'
    requires Match(rest, u[j..])
    ensures MatchParam(rest, u, k)
    decreases j - k
  {
    if k < j {
      MatchParamFrom(rest, u, k + 1, j);
    }
  }

  /** Every instance of a pattern matches it. */
  lemma {:induction false} MatchInstance(p: string, args: seq<string>)
    requires |args| == ParamCount(p) && ValidArgs(args)
    ensures Match(p, Instantiate(p, args))
    decreases |p|
  {
    if p != [] {
      if ParamEnd(p) > 0 {
        var rest := p[ParamEnd(p) + 1..];
        var tail := Instantiate(rest, args[1..]);
        assert ValidArgs(args[1..]) by {
          assert forall i :: 0 <= i < |args[1..]| ==> args[1..][i] == args[i + 1];
        }
        MatchInstance(rest, args[1..]);
        var u := args[0] + tail;
        assert u[|args[0]|..] == tail;
        assert forall i :: 0 <= i < |args[0]| ==> u[i] == args[0][i];
        MatchParamFrom(rest, u, 1, |args[0]|);
      } else {
        MatchInstance(p[1..], args);
        var u := Instantiate(p, args);
        assert u[1..] == Instantiate(p[1..], args);
      }
    }
  }

  /** Where the parameter's value ends, the shortest choice that lets the
      rest of the pattern match. */
  function ParamSplit(rest: string, u: string, k: nat): (j: nat)
    requires k >= 1 && MatchParam(rest, u, k)
    ensures k <= j <= |u| && Match(rest, u[j..])
    ensures forall i :: k - 1 <= i < j ==> u[i] != '/'
    decreases |u| - k
  {
    if Match(rest, u[k..]) then k else ParamSplit(rest, u, k + 1)
  }

  /** The values the parameters take in a matching URI (the submatches of
      `std::smatch`); the URI is the pattern instantiated with them. */
  function Captures(p: string, u: string): (args: seq<string>)
    requires Match(p, u)
    ensures |args| == ParamCount(p) && ValidArgs(args)
    ensures Instantiate(p, args) == u
    decreases |p|
  {
    if p == [] then []
    else if ParamEnd(p) > 0 then
      var rest := p[ParamEnd(p) + 1..];
      var j := ParamSplit(rest, u, 1);
      var tail := Captures(rest, u[j..]);
      var args := [u[..j]] + tail;
      assert args[1..] == tail;
      assert '/' !in u[..j] by {
        assert forall i :: 0 <= i < j ==> u[..j][i] == u[i];
      }
      assert u[..j] + u[j..] == u;
      args
    else
      Captures(p[1..], u[1..])
  }

  /** A URI matches a pattern exactly when it is an instance of it. */
  lemma MatchIffInstance(p: string, u: string)
    ensures Match(p, u) <==>
      exists args :: |args| == ParamCount(p) && ValidArgs(args) && Instantiate(p, args) == u
  {
    if Match(p, u) {
      var args := Captures(p, u);
      assert Instantiate(p, args) == u;
    }
    if exists args :: |args| == ParamCount(p) && ValidArgs(args) && Instantiate(p, args) == u {
      var args :| |args| == ParamCount(p) && ValidArgs(args) && Instantiate(p, args) == u;
      MatchInstance(p, args);
    }
  }

  lemma {:induction false} InstantiateLiteral(lit: string, p: string, args: seq<string>)
    requires '{' !in lit
    requires |args| == ParamCount(p)
    ensures ParamCount(lit + p) == ParamCount(p)
    ensures Instantiate(lit + p, args) == lit + Instantiate(p, args)
    decreases |lit|
  {
    if lit == [] {
      assert lit + p == p;
    } else {
      var s := lit + p;
      assert s[0] == lit[0] && s[1..] == lit[1..] + p;
      InstantiateLiteral(lit[1..], p, args);
    }
  }

  lemma InstantiateParam(name: string, p: string, args: seq<string>)
    requires name != [] && '}' !in name
    requires |args| == 1 + ParamCount(p)
    ensures ParamCount("{" + name + "}" + p) == 1 + ParamCount(p)
    ensures Instantiate("{" + name + "}" + p, args) == args[0] + Instantiate(p, args[1..])
  {
    var s := "{" + name + "}" + p;
    assert forall k :: 0 < k <= |name| ==> s[k] == name[k - 1];
    StringUtils.IndexOfCharUnique(s, '}', |name| + 1);
    assert ParamEnd(s) == |name| + 1;
    assert s[|name| + 2..] == p;
  }

  lemma ParamPatternInstance(prefix: string, name: string, suffix: string, args: seq<string>)
    requires '{' !in prefix && '{' !in suffix && name != [] && '}' !in name && |args| == 1
    ensures ParamCount(prefix + "{" + name + "}" + suffix) == 1
    ensures Instantiate(prefix + "{" + name + "}" + suffix, args) == prefix + args[0] + suffix
  {
    var tail := "{" + name + "}" + suffix;
    ParamTail(name, suffix, args);
    InstantiateLiteral(prefix, tail, args);
    PrefixParts(prefix, "{", name, "}", suffix);
    assert prefix + (args[0] + suffix) == prefix + args[0] + suffix;
  }

  lemma PrefixParts(a: string, b: string, c: string, d: string, e: string)
    ensures a + b + c + d + e == a + (b + c + d + e)
  {
  }

  lemma ParamTail(name: string, suffix: string, args: seq<string>)
    requires '{' !in suffix && name != [] && '}' !in name && |args| == 1
    ensures ParamCount("{" + name + "}" + suffix) == 1
    ensures Instantiate("{" + name + "}" + suffix, args) == args[0] + suffix
  {
    LiteralInstance(suffix);
    InstantiateParam(name, suffix, args);
    assert args[1..] == [];
  }

  lemma LiteralInstance(lit: string)
    requires '{' !in lit
    ensures ParamCount(lit) == 0 && Instantiate(lit, []) == lit
  {
    InstantiateLiteral(lit, [], []);
    assert lit + [] == lit;
  }

  /** A pattern with one parameter between literal texts matches exactly
      the URIs that put one or more characters other than '/' in the
      parameter. */
  lemma ParamPatternMatch(prefix: string, name: string, suffix: string, u: string)
    requires '{' !in prefix && '{' !in suffix && name != [] && '}' !in name
    ensures Match(prefix + "{" + name + "}" + suffix, u) <==>
      exists a :: a != [] && '/' !in a && u == prefix + a + suffix
  {
    var p := prefix + "{" + name + "}" + suffix;
    ParamPatternInstance(prefix, name, suffix, ["x"]);
    MatchIffInstance(p, u);
    if Match(p, u) {
      var args :| |args| == ParamCount(p) && ValidArgs(args) && Instantiate(p, args) == u;
      ParamPatternInstance(prefix, name, suffix, args);
      assert u == prefix + args[0] + suffix;
    }
    if exists a :: a != [] && '/' !in a && u == prefix + a + suffix {
      var a :| a != [] && '/' !in a && u == prefix + a + suffix;
      ParamPatternInstance(prefix, name, suffix, [a]);
      assert Instantiate(p, [a]) == u;
    }
  }

  /** The registered account patterns: "/api/accounts/{login}" and a
      literal suffix. */
  lemma AccountPatternMatch(suffix: string, u: string)
    requires '{' !in suffix
    ensures Match("/api/accounts/{login}" + suffix, u) <==>
      exists login :: login != [] && '/' !in login && u == "/api/accounts/" + login + suffix
  {
    assert "/api/accounts/{login}" == "/api/accounts/" + "{" + "login" + "}";
    assert '{' !in "/api/accounts/" && '}' !in "login";
    ParamPatternMatch("/api/accounts/", "login", suffix, u);
  }

  /** A parameter value has no '/', so it cannot also end before one. */
  lemma ParamThenSlash(prefix: string, a: string, b: string, y: string)
    requires '/' !in a && y != [] && y[0] == '/'
    ensures prefix + a != prefix + b + y
  {
    if |a| == |b| + |y| {
      assert (prefix + b + y)[|prefix| + |b|] == y[0];
      assert (prefix + a)[|prefix| + |b|] == a[|b|];
    }
  }

  /** Two parameter values, each followed by '/', end at the same place. */
  lemma ParamSlashSplit(prefix: string, a: string, b: string, x: string, y: string)
    requires '/' !in a && '/' !in b
    requires x != [] && x[0] == '/' && y != [] && y[0] == '/'
    requires prefix + a + x == prefix + b + y
    ensures a == b && x == y
  {
    var u := prefix + a + x;
    assert u[|prefix|..] == a + x;
    assert (prefix + b + y)[|prefix|..] == b + y;
    assert a + x == a + [x[0]] + x[1..];
    assert b + y == b + [y[0]] + y[1..];
    IndexAfter(a, '/', x[1..]);
    IndexAfter(b, '/', y[1..]);
  }

  lemma GetPatternsExclusive(u: string)
    ensures !(Match("/api/accounts/{login}", u) && Match("/api/accounts/{login}/characters", u))
  {
    assert "/api/accounts/{login}" + "" == "/api/accounts/{login}";
    assert "/api/accounts/{login}" + "/characters" == "/api/accounts/{login}/characters";
    assert '{' !in "/characters";
    AccountPatternMatch("", u);
    AccountPatternMatch("/characters", u);
    if Match("/api/accounts/{login}", u) && Match("/api/accounts/{login}/characters", u) {
      var a :| a != [] && '/' !in a && u == "/api/accounts/" + a + "";
      var b :| b != [] && '/' !in b && u == "/api/accounts/" + b + "/characters";
      assert "/api/accounts/" + a + "" == "/api/accounts/" + a;
      ParamThenSlash("/api/accounts/", a, b, "/characters");
      assert false;
    }
  }

  lemma PostPatternsExclusive(u: string)
    ensures !(Match("/api/accounts/{login}/ban", u) && Match("/api/accounts/{login}/characters", u))
  {
    assert '{' !in "/ban" && '{' !in "/characters";
    assert "/api/accounts/{login}" + "/characters" == "/api/accounts/{login}/characters";
    assert "/api/accounts/{login}" + "/ban" == "/api/accounts/{login}/ban";
    AccountPatternMatch("/ban", u);
    AccountPatternMatch("/characters", u);
    if Match("/api/accounts/{login}/ban", u) && Match("/api/accounts/{login}/characters", u) {
      var a :| a != [] && '/' !in a && u == "/api/accounts/" + a + "/ban";
      var b :| b != [] && '/' !in b && u == "/api/accounts/" + b + "/characters";
      ParamSlashSplit("/api/accounts/", a, b, "/ban", "/characters");
      assert false;
    }
  }

  // ---------------------------------------------------------------------
  // processRequest
  // ---------------------------------------------------------------------

  /** The route handlers of `registerRoutes`, one per registered route. */
  datatype Handler =
    | CreateAccount | GetAllAccounts | GetAccount | UpdateAccount | DeleteAccount | BanAccount
    | GetCharacters | CreateCharacter | GetServerStatus | ShutdownServer | RestartServer | GetLogs

  /** Method, then URI pattern, to handler. */
  type RouteTable = map<string, map<string, Handler>>

  /** The table `registerRoutes` builds. */
  const Routes: RouteTable := map[
    "POST" := map[
      "/api/accounts" := CreateAccount,
      "/api/accounts/{login}/ban" := BanAccount,
      "/api/accounts/{login}/characters" := CreateCharacter,
      "/api/server/shutdown" := ShutdownServer,
      "/api/server/restart" := RestartServer],
    "GET" := map[
      "/api/accounts" := GetAllAccounts,
      "/api/accounts/{login}" := GetAccount,
      "/api/accounts/{login}/characters" := GetCharacters,
      "/api/server/status" := GetServerStatus,
      "/api/logs" := GetLogs],
    "PUT" := map["/api/accounts/{login}" := UpdateAccount],
    "DELETE" := map["/api/accounts/{login}" := DeleteAccount]]

  /** The first pattern in `order` that holds a '{' and matches `uri`;
      patterns without a '{' are skipped. */
  function FirstPatternMatch(table: map<string, Handler>, order: seq<string>, uri: string): Option<Handler>
  {
    if order == [] then None
    else if order[0] in table && '{' in order[0] && Match(order[0], uri) then Some(table[order[0]])
    else FirstPatternMatch(table, order[1..], uri)
  }

  /** The route lookup of `processRequest`: the exact URI first, then the
      patterns in the table's iteration order `order`. */
  function FindRoute(routes: RouteTable, order: seq<string>, httpMethod: string, uri: string): Option<Handler>
  {
    if httpMethod !in routes then None
    else if uri in routes[httpMethod] then Some(routes[httpMethod][uri])
    else FirstPatternMatch(routes[httpMethod], order, uri)
  }

  lemma {:induction false} FirstPatternSound(table: map<string, Handler>, order: seq<string>, uri: string)
    ensures FirstPatternMatch(table, order, uri).Some? ==>
      exists i :: 0 <= i < |order| && order[i] in table && '{' in order[i] && Match(order[i], uri) &&
        table[order[i]] == FirstPatternMatch(table, order, uri).value
    ensures FirstPatternMatch(table, order, uri).None? ==>
      forall i :: 0 <= i < |order| && order[i] in table && '{' in order[i] ==> !Match(order[i], uri)
    decreases |order|
  {
    if order != [] {
      FirstPatternSound(table, order[1..], uri);
      if FirstPatternMatch(table, order, uri).Some? && !(order[0] in table && '{' in order[0] && Match(order[0], uri)) {
        var i :| 0 <= i < |order[1..]| && order[1..][i] in table && '{' in order[1..][i] && Match(order[1..][i], uri) &&
          table[order[1..][i]] == FirstPatternMatch(table, order[1..], uri).value;
        assert order[i + 1] == order[1..][i];
      }
      if FirstPatternMatch(table, order, uri).None? {
        assert forall i :: 1 <= i < |order| ==> order[i] == order[1..][i - 1];
      }
    }
  }

  /** The lookup finds nothing exactly when the method is unknown, or the
      URI is no route of it and matches none of its patterns; what it finds
      is the handler of the URI itself or of a pattern it matches. */
  lemma FindRouteMeaning(routes: RouteTable, order: seq<string>, httpMethod: string, uri: string)
    requires httpMethod in routes ==> Enumerates(routes[httpMethod], order)
    ensures FindRoute(routes, order, httpMethod, uri).None? <==>
      httpMethod !in routes ||
      (uri !in routes[httpMethod] &&
       forall q :: q in routes[httpMethod] && '{' in q ==> !Match(q, uri))
    ensures FindRoute(routes, order, httpMethod, uri).Some? ==>
      httpMethod in routes &&
      exists q :: q in routes[httpMethod] && routes[httpMethod][q] == FindRoute(routes, order, httpMethod, uri).value &&
        (q == uri || ('{' in q && Match(q, uri)))
  {
    if httpMethod in routes && uri !in routes[httpMethod] {
      var table := routes[httpMethod];
      FirstPatternSound(table, order, uri);
      if FirstPatternMatch(table, order, uri).None? {
        forall q | q in table && '{' in q
          ensures !Match(q, uri)
        {
          var i :| 0 <= i < |order| && order[i] == q;
        }
      } else {
        var i :| 0 <= i < |order| && order[i] in table && '{' in order[i] && Match(order[i], uri) &&
          table[order[i]] == FirstPatternMatch(table, order, uri).value;
      }
    }
  }

  /** At most one pattern of the table matches `uri`. */
  ghost predicate UniqueMatch(table: map<string, Handler>, uri: string)
  {
    forall p, q :: p in table && q in table && '{' in p && '{' in q && Match(p, uri) && Match(q, uri) ==> p == q
  }

  lemma {:induction false} FirstPatternIs(table: map<string, Handler>, order: seq<string>, uri: string, p: string)
    requires p in order && p in table && '{' in p && Match(p, uri)
    requires UniqueMatch(table, uri)
    ensures FirstPatternMatch(table, order, uri) == Some(table[p])
    decreases |order|
  {
    if order[0] != p {
      assert p in order[1..];
      FirstPatternIs(table, order[1..], uri, p);
    }
  }

  /** When at most one pattern matches, the iteration order of the table
      does not change what the lookup finds. */
  lemma FindRouteOrderFree(routes: RouteTable, o1: seq<string>, o2: seq<string>, httpMethod: string, uri: string)
    requires httpMethod in routes ==> Enumerates(routes[httpMethod], o1) && Enumerates(routes[httpMethod], o2)
    requires httpMethod in routes ==> UniqueMatch(routes[httpMethod], uri)
    ensures FindRoute(routes, o1, httpMethod, uri) == FindRoute(routes, o2, httpMethod, uri)
  {
    if httpMethod in routes && uri !in routes[httpMethod] {
      var table := routes[httpMethod];
      if p :| p in table && '{' in p && Match(p, uri) {
        FirstPatternIs(table, o1, uri, p);
        FirstPatternIs(table, o2, uri, p);
      } else {
        FindRouteMeaning(routes, o1, httpMethod, uri);
        FindRouteMeaning(routes, o2, httpMethod, uri);
      }
    }
  }

  /** The patterns of the registered table, per method. */
  lemma RoutePatterns()
    ensures forall q :: q in Routes["GET"] && '{' in q ==>
      q == "/api/accounts/{login}" || q == "/api/accounts/{login}/characters"
    ensures forall q :: q in Routes["POST"] && '{' in q ==>
      q == "/api/accounts/{login}/ban" || q == "/api/accounts/{login}/characters"
    ensures Routes["PUT"].Keys == {"/api/accounts/{login}"}
    ensures Routes["DELETE"].Keys == {"/api/accounts/{login}"}
    ensures Routes.Keys == {"GET", "POST", "PUT", "DELETE"}
  {
    assert '{' !in "/api/accounts" && '{' !in "/api/server/shutdown" && '{' !in "/api/server/restart";
    assert '{' !in "/api/server/status" && '{' !in "/api/logs";
  }

  /** Under every method of the registered table at most one pattern
      matches a URI. */
  lemma RoutesUniqueMatch(httpMethod: string, uri: string)
    requires httpMethod in Routes
    ensures UniqueMatch(Routes[httpMethod], uri)
  {
    RoutePatterns();
    GetPatternsExclusive(uri);
    PostPatternsExclusive(uri);
    if httpMethod == "GET" {
      TwoPatternsUnique(Routes["GET"], "/api/accounts/{login}", "/api/accounts/{login}/characters", uri);
    } else if httpMethod == "POST" {
      TwoPatternsUnique(Routes["POST"], "/api/accounts/{login}/ban", "/api/accounts/{login}/characters", uri);
    } else {
      assert Routes[httpMethod].Keys == {"/api/accounts/{login}"};
    }
  }

  lemma TwoPatternsUnique(table: map<string, Handler>, a: string, b: string, uri: string)
    requires forall q :: q in table && '{' in q ==> q == a || q == b
    requires !(Match(a, uri) && Match(b, uri))
    ensures UniqueMatch(table, uri)
  {
  }

  /** So what the registered table answers does not depend on the
      iteration order of its unordered maps. */
  lemma RoutesOrderFree(o1: seq<string>, o2: seq<string>, httpMethod: string, uri: string)
    requires httpMethod in Routes ==> Enumerates(Routes[httpMethod], o1) && Enumerates(Routes[httpMethod], o2)
    ensures FindRoute(Routes, o1, httpMethod, uri) == FindRoute(Routes, o2, httpMethod, uri)
  {
    if httpMethod in Routes {
      RoutesUniqueMatch(httpMethod, uri);
    }
    FindRouteOrderFree(Routes, o1, o2, httpMethod, uri);
  }

  /** The lookup matches the whole URI, query string included: no GET
      route answers "/api/logs?…", although the logs handler reads its
      options from that query. */
  lemma QueryDefeatsExactRoute(order: seq<string>, query: string)
    requires Enumerates(Routes["GET"], order)
    ensures FindRoute(Routes, order, "GET", "/api/logs?" + query) == None
  {
    var u := "/api/logs?" + query;
    var table := Routes["GET"];
    assert u[5] == 'l' && u[9] == '?';
    assert u !in table;
    RoutePatterns();
    forall q | q in table && '{' in q
      ensures !Match(q, u)
    {
      NotAnAccountUri(u, q);
    }
    FindRouteMeaning(Routes, order, "GET", u);
  }

  /** A URI whose sixth character is not 'a' matches neither GET account
      pattern. */
  lemma NotAnAccountUri(u: string, q: string)
    requires |u| > 5 && u[5] != 'a'
    requires q == "/api/accounts/{login}" || q == "/api/accounts/{login}/characters"
    ensures !Match(q, u)
  {
    assert "/api/accounts/{login}" + "" == "/api/accounts/{login}";
    assert "/api/accounts/{login}" + "/characters" == "/api/accounts/{login}/characters";
    assert '{' !in "/characters";
    var suffix := if q == "/api/accounts/{login}" then "" else "/characters";
    AccountPatternMatch(suffix, u);
    forall login | login != [] && '/' !in login
      ensures u != "/api/accounts/" + login + suffix
    {
      assert ("/api/accounts/" + login + suffix)[5] == 'a';
    }
  }

  /** The part of a URI before its query string. */
  function RoutePath(uri: string): (path: string)
    ensures '?' !in path && |path| <= |uri| && path == uri[..|path|]
  {
    uri[..StringUtils.IndexOfChar(uri, '?')]
  }

  /** The lookup on the path alone, which the handlers' own query parsing
      presupposes. */
  function FindRouteOnPath(routes: RouteTable, order: seq<string>, httpMethod: string, uri: string): Option<Handler>
  {
    FindRoute(routes, order, httpMethod, RoutePath(uri))
  }

  /** On the path a query string no longer changes the route, and a URI
      without one is routed as before. */
  lemma PathLookupIgnoresQuery(routes: RouteTable, order: seq<string>, httpMethod: string, path: string, query: string)
    requires '?' !in path
    ensures FindRouteOnPath(routes, order, httpMethod, path + "?" + query) == FindRoute(routes, order, httpMethod, path)
    ensures FindRouteOnPath(routes, order, httpMethod, path) == FindRoute(routes, order, httpMethod, path)
  {
    IndexAfter(path, '?', query);
    assert path + "?" + query == path + ['?'] + query;
    StringUtils.IndexOfCharUnique(path, '?', |path|);
    assert path[..|path|] == path;
  }

  lemma PathLookupFindsLogs(order: seq<string>, query: string)
    ensures FindRouteOnPath(Routes, order, "GET", "/api/logs?" + query) == Some(GetLogs)
  {
    assert '?' !in "/api/logs";
    assert "/api/logs" + "?" + query == "/api/logs?" + query;
    PathLookupIgnoresQuery(Routes, order, "GET", "/api/logs", query);
    assert "GET" in Routes;
    assert "/api/logs" in Routes["GET"];
    assert Routes["GET"]["/api/logs"] == GetLogs;
    assert FindRoute(Routes, order, "GET", "/api/logs") == Some(GetLogs);
  }

  // ---------------------------------------------------------------------
  // Responses
  // ---------------------------------------------------------------------

  const KnownStatusCodes: set<int> := {200, 201, 204, 400, 401, 403, 404, 409, 500}

  function StatusMessage(code: int): string
  {
    if code == 200 then "OK"
    else if code == 201 then "Created"
    else if code == 204 then "No Content"
    else if code == 400 then "Bad Request"
    else if code == 401 then "Unauthorized"
    else if code == 403 then "Forbidden"
    else if code == 404 then "Not Found"
    else if code == 409 then "Conflict"
    else if code == 500 then "Internal Server Error"
    else "Unknown"
  }

  /** Only an unlisted code reads "Unknown", and listed codes have distinct
      messages. */
  lemma StatusMessages(a: int, b: int)
    ensures StatusMessage(a) == "Unknown" <==> a !in KnownStatusCodes
    ensures a in KnownStatusCodes && b in KnownStatusCodes && StatusMessage(a) == StatusMessage(b) ==> a == b
  {
  }

  /** `createJsonResponse`: the code, its message, a JSON content type and
      the body. */
  function CreateJsonResponse(code: int, body: string): (r: HttpResponse)
    ensures r.statusCode == code && r.body == body
    ensures r.headers == map["Content-Type" := "application/json"]
    ensures r.statusMessage == StatusMessage(code)
  {
    HttpResponse(code, StatusMessage(code), map["Content-Type" := "application/json"], body)
  }

  /** `handleUnauthorized`: a JSON 401 that also asks for a Bearer token. */
  function HandleUnauthorized(): (r: HttpResponse)
    ensures r.statusCode == 401 && r.statusMessage == "Unauthorized"
    ensures r.headers == map["Content-Type" := "application/json", "WWW-Authenticate" := "Bearer"]
  {
    var r := CreateJsonResponse(401, "{\"error\":\"Unauthorized\",\"message\":\"Authentication required\"}");
    r.(headers := r.headers["WWW-Authenticate" := "Bearer"])
  }

  /** The 404 of `processRequest`, built by hand there, is the JSON
      response for 404. */
  function NotFoundResponse(): (r: HttpResponse)
    ensures r == CreateJsonResponse(404, r.body)
  {
    HttpResponse(404, "Not Found", map["Content-Type" := "application/json"],
                 "{\"error\":\"Not Found\",\"message\":\"The requested resource was not found\"}")
  }

  // ---------------------------------------------------------------------
  // API keys
  // ---------------------------------------------------------------------

  /** A query pair that splits at '=' into exactly "api_key" and a value. */
  predicate IsKeyPair(pair: string)
  {
    var kv := StringUtils.SplitSpec(pair, '=');
    |kv| == 2 && kv[0] == "api_key"
  }

  function QueryApiKey(pairs: seq<string>): string
  {
    if pairs == [] then []
    else if IsKeyPair(pairs[0]) then StringUtils.SplitSpec(pairs[0], '=')[1]
    else QueryApiKey(pairs[1..])
  }

  /** The token of a "Bearer " Authorization header. */
  function BearerToken(request: HttpRequest): Option<string>
  {
    if "Authorization" in request.headers && StringUtils.StartsWith(request.headers["Authorization"], "Bearer ") then
      Some(request.headers["Authorization"][7..])
    else None
  }

  /** The value of the first `api_key` pair of the query, or "". */
  function QueryKey(uri: string): string
  {
    var queryPos := StringUtils.IndexOfChar(uri, '?');
    if queryPos < |uri| then QueryApiKey(StringUtils.SplitSpec(uri[queryPos + 1..], '&')) else []
  }

  /** `getApiKey`: the token of a "Bearer " Authorization header, else the
      value of the first `api_key` pair of the query, else "". */
  function GetApiKeySpec(request: HttpRequest): string
  {
    match BearerToken(request)
    case Some(token) => token
    case None => QueryKey(request.uri)
  }

  /** `getApiKey`, splitting the query and scanning its pairs. */
  method GetApiKey(request: HttpRequest) returns (key: string)
    ensures key == GetApiKeySpec(request)
  {
    if "Authorization" in request.headers {
      var authHeader := request.headers["Authorization"];
      if StringUtils.StartsWith(authHeader, "Bearer ") {
        return authHeader[7..];
      }
    }
    assert BearerToken(request).None?;
    var queryPos := StringUtils.IndexOfChar(request.uri, '?');
    if queryPos < |request.uri| {
      var queryString := request.uri[queryPos + 1..];
      var pairs := StringUtils.Split(queryString, '&');
      assert QueryKey(request.uri) == QueryApiKey(pairs);
      var i := 0;
      while i < |pairs|
        invariant 0 <= i <= |pairs|
        invariant QueryApiKey(pairs[i..]) == QueryApiKey(pairs)
      {
        var keyValue := StringUtils.Split(pairs[i], '=');
        QueryApiKeyStep(pairs, i);
        if |keyValue| == 2 && keyValue[0] == "api_key" {
          return keyValue[1];
        }
        i := i + 1;
      }
      assert pairs[i..] == [];
    }
    return [];
  }

  /** One pair of the scan: the key when the pair is an `api_key` pair,
      otherwise whatever the remaining pairs give. */
  lemma QueryApiKeyStep(pairs: seq<string>, i: nat)
    requires i < |pairs|
    ensures IsKeyPair(pairs[i]) ==> QueryApiKey(pairs[i..]) == StringUtils.SplitSpec(pairs[i], '=')[1]
    ensures !IsKeyPair(pairs[i]) ==> QueryApiKey(pairs[i..]) == QueryApiKey(pairs[i + 1..])
  {
    assert pairs[i..][0] == pairs[i];
    assert pairs[i..][1..] == pairs[i + 1..];
  }


  /** The query's key is the value of its first `api_key` pair, and ""
      when it has none. */
  lemma {:induction false} QueryApiKeyFirst(pairs: seq<string>, i: nat)
    requires i < |pairs| && IsKeyPair(pairs[i])
    requires forall j :: 0 <= j < i ==> !IsKeyPair(pairs[j])
    ensures QueryApiKey(pairs) == StringUtils.SplitSpec(pairs[i], '=')[1]
    decreases i
  {
    if i > 0 {
      assert !IsKeyPair(pairs[0]);
      QueryApiKeyFirst(pairs[1..], i - 1);
    }
  }

  lemma {:induction false} QueryApiKeyAbsent(pairs: seq<string>)
    requires forall j :: 0 <= j < |pairs| ==> !IsKeyPair(pairs[j])
    ensures QueryApiKey(pairs) == []
    decreases |pairs|
  {
    if pairs != [] {
      assert !IsKeyPair(pairs[0]);
      QueryApiKeyAbsent(pairs[1..]);
    }
  }

  /** A Bearer token is taken as the key whatever the query says. */
  lemma BearerTokenWins(request: HttpRequest, token: string)
    requires "Authorization" in request.headers && request.headers["Authorization"] == "Bearer " + token
    ensures GetApiKeySpec(request) == token
  {
    assert ("Bearer " + token)[..7] == "Bearer ";
    assert ("Bearer " + token)[7..] == token;
  }

  /** Without a Bearer header, "?api_key=KEY" supplies KEY. */
  lemma QueryKeyRead(request: HttpRequest, path: string, key: string)
    requires request.uri == path + "?api_key=" + key
    requires '?' !in path && key != [] && '&' !in key && '=' !in key
    requires "Authorization" in request.headers ==> !StringUtils.StartsWith(request.headers["Authorization"], "Bearer ")
    ensures GetApiKeySpec(request) == key
  {
    var query := "api_key=" + key;
    assert request.uri == path + ['?'] + query;
    IndexAfter(path, '?', query);
    KeyQuerySplits(key);
  }

  lemma KeyQuerySplits(key: string)
    requires key != [] && '&' !in key && '=' !in key
    ensures StringUtils.SplitSpec("api_key=" + key, '&') == ["api_key=" + key]
    ensures IsKeyPair("api_key=" + key) && StringUtils.SplitSpec("api_key=" + key, '=')[1] == key
  {
    var name := "api_key";
    var query := name + ['='] + key;
    assert query == "api_key=" + key;
    assert '&' !in name && '=' !in name by {
      assert forall k :: 0 <= k < |name| ==> name[k] != '&' && name[k] != '=';
    }
    assert '&' !in query;
    NoDelimiterSplit(query, '&');
    SplitPair(name, key, '=');
  }

  /** Two delimiter-free parts joined by the delimiter split back. */
  lemma SplitPair(a: string, b: string, d: char)
    requires a != [] && b != [] && d !in a && d !in b
    ensures StringUtils.SplitSpec(a + [d] + b, d) == [a, b]
  {
    IndexAfter(a, d, b);
    NoDelimiterSplit(b, d);
    var s := a + [d] + b;
    assert StringUtils.SplitSpec(s, d) == [s[..|a|]] + StringUtils.SplitSpec(s[|a| + 1..], d);
  }

  lemma NoDelimiterSplit(s: string, d: char)
    requires s != [] && d !in s
    ensures StringUtils.SplitSpec(s, d) == [s]
  {
    StringUtils.IndexOfCharUnique(s, d, |s|);
  }

  /** `validateApiKey`: non-empty and at least 32 characters. */
  function ValidateApiKey(apiKey: string): bool
  {
    apiKey != [] && |apiKey| >= 32
  }

  /** `isAuthorized`: a non-empty key that validates; so exactly a key of
      32 characters or more. */
  function IsAuthorized(request: HttpRequest): (ok: bool)
    ensures ok <==> |GetApiKeySpec(request)| >= 32
  {
    var apiKey := GetApiKeySpec(request);
    apiKey != [] && ValidateApiKey(apiKey)
  }

  /** A short Bearer token denies access even when the query carries a
      valid key. */
  lemma ShortBearerDenies(request: HttpRequest, token: string)
    requires "Authorization" in request.headers && request.headers["Authorization"] == "Bearer " + token
    requires |token| < 32
    ensures !IsAuthorized(request)
  {
    BearerTokenWins(request, token);
  }

  // ---------------------------------------------------------------------
  // Dispatch
  // ---------------------------------------------------------------------

  /** What serving a request comes to: a handler runs, or the server
      answers itself with `HandleUnauthorized()` or `NotFoundResponse()`. */
  datatype Reply = Invoke(handler: Handler) | Unauthorized | NotFound

  /** The found route runs; every route but account creation first
      answers 401 to a request that is not authorised; no route is 404.
      `authorized` is `IsAuthorized` of the request. */
  function Answer(route: Option<Handler>, authorized: bool): (r: Reply)
    ensures r.Invoke? <==> route.Some? && (route.value == CreateAccount || authorized)
    ensures r.Invoke? ==> r.handler == route.value
    ensures r.NotFound? <==> route.None?
    ensures r.Unauthorized? <==> route.Some? && route.value != CreateAccount && !authorized
  {
    match route
    case None => NotFound
    case Some(h) => if h != CreateAccount && !authorized then Unauthorized else Invoke(h)
  }

  /** `processRequest`: the exact route first, then one pattern at a time. */
  method ProcessRequest(routes: RouteTable, order: seq<string>, request: HttpRequest) returns (reply: Reply)
    requires request.httpMethod in routes ==> Enumerates(routes[request.httpMethod], order)
    ensures reply == Answer(FindRoute(routes, order, request.httpMethod, request.uri), IsAuthorized(request))
  {
    if request.httpMethod in routes {
      var table := routes[request.httpMethod];
      if request.uri in table {
        return Answer(Some(table[request.uri]), IsAuthorized(request));
      }
      var i := 0;
      while i < |order|
        invariant 0 <= i <= |order|
        invariant FirstPatternMatch(table, order[i..], request.uri) == FirstPatternMatch(table, order, request.uri)
      {
        var pattern := order[i];
        assert pattern in table;
        if '{' in pattern && Match(pattern, request.uri) {
          return Answer(Some(table[pattern]), IsAuthorized(request));
        }
        assert order[i..][1..] == order[i + 1..];
        i := i + 1;
      }
    }
    return Answer(None, IsAuthorized(request));
  }

  /** Account creation is open: a POST to /api/accounts always reaches its
      handler, whatever key the request carries. */
  lemma AccountCreationIsOpen(order: seq<string>, request: HttpRequest)
    requires request.httpMethod == "POST" && request.uri == "/api/accounts"
    ensures Answer(FindRoute(Routes, order, request.httpMethod, request.uri), IsAuthorized(request)) == Invoke(CreateAccount)
  {
    assert "POST" in Routes;
    assert "/api/accounts" in Routes["POST"];
    assert Routes["POST"]["/api/accounts"] == CreateAccount;
    assert FindRoute(Routes, order, "POST", "/api/accounts") == Some(CreateAccount);
  }
}
