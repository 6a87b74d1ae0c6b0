/**
 * Config: the server configuration, an INI-style two-level map from
 * section and key to a string value, with the typed database, network and
 * server settings parsed out of it.
 *
 * The file system is abstract: loading takes whether the file exists and
 * the file's text (`None` when it cannot be opened), which it splits into
 * lines as `std::getline` does, and saving produces the text it would
 * write, every line ended by a line break. The iteration order of the
 * unordered maps when saving is a parameter.
 */
module Config {
  import opened Wrappers
  import StringUtils
  import Stoi

  type ConfigMap = map<string, map<string, string>>

  /** `getValue(section, key, defaultValue)`. */
  function GetValue(cfg: ConfigMap, section: string, key: string, defaultValue: string): (r: string)
  {
    if section in cfg && key in cfg[section] then cfg[section][key] else defaultValue
  }

  /** `m_config[section][key] = value`: creates the section when missing. */
  function SetEntry(cfg: ConfigMap, section: string, key: string, value: string): (r: ConfigMap)
    ensures r.Keys == cfg.Keys + {section}
  {
    cfg[section := SectionOf(cfg, section)[key := value]]
  }

  /** The pairs of `section`; none when it is missing. */
  function SectionOf(cfg: ConfigMap, section: string): map<string, string>
  {
    if section in cfg then cfg[section] else map[]
  }

  /** A lookup finds the stored value, and the default exactly when the
      section or the key is missing. */
  lemma GetValueFindsStored(cfg: ConfigMap, section: string, key: string, d: string)
    ensures section in cfg && key in cfg[section] ==> GetValue(cfg, section, key, d) == cfg[section][key]
    ensures !(section in cfg && key in cfg[section]) ==> GetValue(cfg, section, key, d) == d
  {
  }

  /** After `setValue(s, k, v)` the pair (s, k) reads v and every other
      pair reads what it read before. */
  lemma GetAfterSet(cfg: ConfigMap, s: string, k: string, v: string, s2: string, k2: string, d: string)
    ensures GetValue(SetEntry(cfg, s, k, v), s2, k2, d) ==
      if s2 == s && k2 == k then v else GetValue(cfg, s2, k2, d)
  {
  }

  // ---------------------------------------------------------------------
  // Typed settings
  // ---------------------------------------------------------------------

  datatype DatabaseConfig = DatabaseConfig(dbType: string, filePath: string, accountsDb: string, worldsDb: string)

  datatype NetworkConfig = NetworkConfig(
    bindIp: string, publicIp: string,
    battleNetPort: int, gameServerPort: int, restApiPort: int,
    enableSsl: bool, sslCertPath: string, sslKeyPath: string)

  datatype ServerConfig = ServerConfig(
    serverName: string, maxPlayers: int, maxAccountsPerIp: int, maxCharactersPerAccount: int,
    defaultLocale: string, motd: string, enableDebug: bool, logLevel: string, logPath: string)

  /** The three settings after `parseConfig`, and whether it completed
      (false when a `std::stoi` threw). */
  datatype Parsed = Parsed(db: DatabaseConfig, net: NetworkConfig, srv: ServerConfig, ok: bool)

  /** `std::stoi` in base 10, with `None` where it throws. */
  function Stoi10(s: string): Option<int>
  {
    Stoi.Stoi(s, 10)
  }

  /**
   * `parseConfig`: the fields are assigned in order, each from `getValue`
   * with its default; the numeric ones go through `std::stoi`, and the first
   * one that throws ends the parse with the fields before it already
   * assigned and the rest as they were.
   */
  function ParseSpec(cfg: ConfigMap, db: DatabaseConfig, net: NetworkConfig, srv: ServerConfig): Parsed
  {
    ParseWith(cfg, Stoi10, db, net, srv)
  }

  /** The parse with the number conversion as a parameter. */
  function ParseWith(cfg: ConfigMap, conv: string -> Option<int>,
                     db: DatabaseConfig, net: NetworkConfig, srv: ServerConfig): Parsed
  {
    var (n, netOk) := ParseNetwork(cfg, conv, net);
    if !netOk then Parsed(ParseDatabase(cfg), n, srv, false)
    else
      var (s, srvOk) := ParseServer(cfg, conv, srv);
      Parsed(ParseDatabase(cfg), n, s, srvOk)
  }

  function ParseDatabase(cfg: ConfigMap): DatabaseConfig
  {
    DatabaseConfig(
      GetValue(cfg, "Database", "Type", "sqlite"), GetValue(cfg, "Database", "FilePath", "d3server.db"),
      GetValue(cfg, "Database", "AccountsDB", "accounts"), GetValue(cfg, "Database", "WorldsDB", "worlds"))
  }

  /** The network fields, in order, stopping at the first port that does
      not convert. */
  function ParseNetwork(cfg: ConfigMap, conv: string -> Option<int>, net: NetworkConfig): (NetworkConfig, bool)
  {
    var n1 := net.(bindIp := GetValue(cfg, "Network", "BindIP", "0.0.0.0"),
                   publicIp := GetValue(cfg, "Network", "PublicIP", "127.0.0.1"));
    match conv(GetValue(cfg, "Network", "BattleNetPort", "1119"))
    case None => (n1, false)
    case Some(bp) =>
      var n2 := n1.(battleNetPort := bp);
      match conv(GetValue(cfg, "Network", "GameServerPort", "1120"))
      case None => (n2, false)
      case Some(gp) =>
        var n3 := n2.(gameServerPort := gp);
        match conv(GetValue(cfg, "Network", "RestApiPort", "8080"))
        case None => (n3, false)
        case Some(rp) =>
          (n3.(restApiPort := rp,
               enableSsl := GetValue(cfg, "Network", "EnableSSL", "true") == "true",
               sslCertPath := GetValue(cfg, "Network", "SSLCertPath", "certs/server.crt"),
               sslKeyPath := GetValue(cfg, "Network", "SSLKeyPath", "certs/server.key")), true)
  }

  /** The server fields, in order, stopping at the first number that does
      not convert. */
  function ParseServer(cfg: ConfigMap, conv: string -> Option<int>, srv: ServerConfig): (ServerConfig, bool)
  {
    var s1 := srv.(serverName := GetValue(cfg, "Server", "ServerName", "D3Server"));
    match conv(GetValue(cfg, "Server", "MaxPlayers", "1000"))
    case None => (s1, false)
    case Some(mp) =>
      var s2 := s1.(maxPlayers := mp);
      match conv(GetValue(cfg, "Server", "MaxAccountsPerIP", "10"))
      case None => (s2, false)
      case Some(ma) =>
        var s3 := s2.(maxAccountsPerIp := ma);
        match conv(GetValue(cfg, "Server", "MaxCharactersPerAccount", "10"))
        case None => (s3, false)
        case Some(mc) =>
          (s3.(maxCharactersPerAccount := mc,
               defaultLocale := GetValue(cfg, "Server", "DefaultLocale", "enUS"),
               motd := GetValue(cfg, "Server", "MOTD", "Welcome to D3Server!"),
               enableDebug := GetValue(cfg, "Server", "EnableDebug", "false") == "true",
               logLevel := GetValue(cfg, "Server", "LogLevel", "INFO"),
               logPath := GetValue(cfg, "Server", "LogPath", "logs/d3server.log")), true)
  }

  /** The network part of `parseConfig`, field by field. */
  method ParseNetworkFields(cfg: ConfigMap, network: NetworkConfig) returns (net: NetworkConfig, ok: bool)
    ensures (net, ok) == ParseNetwork(cfg, Stoi10, network)
  {
    net := network.(bindIp := GetValue(cfg, "Network", "BindIP", "0.0.0.0"));
    net := net.(publicIp := GetValue(cfg, "Network", "PublicIP", "127.0.0.1"));
    var v := Stoi10(GetValue(cfg, "Network", "BattleNetPort", "1119"));
    if v.None? { return net, false; }
    net := net.(battleNetPort := v.value);
    v := Stoi10(GetValue(cfg, "Network", "GameServerPort", "1120"));
    if v.None? { return net, false; }
    net := net.(gameServerPort := v.value);
    v := Stoi10(GetValue(cfg, "Network", "RestApiPort", "8080"));
    if v.None? { return net, false; }
    net := net.(restApiPort := v.value);
    net := net.(enableSsl := GetValue(cfg, "Network", "EnableSSL", "true") == "true");
    net := net.(sslCertPath := GetValue(cfg, "Network", "SSLCertPath", "certs/server.crt"));
    net := net.(sslKeyPath := GetValue(cfg, "Network", "SSLKeyPath", "certs/server.key"));
    return net, true;
  }

  /** The server part of `parseConfig`, field by field. */
  method ParseServerFields(cfg: ConfigMap, server: ServerConfig) returns (srv: ServerConfig, ok: bool)
    ensures (srv, ok) == ParseServer(cfg, Stoi10, server)
  {
    srv := server.(serverName := GetValue(cfg, "Server", "ServerName", "D3Server"));
    var v := Stoi10(GetValue(cfg, "Server", "MaxPlayers", "1000"));
    if v.None? { return srv, false; }
    srv := srv.(maxPlayers := v.value);
    v := Stoi10(GetValue(cfg, "Server", "MaxAccountsPerIP", "10"));
    if v.None? { return srv, false; }
    srv := srv.(maxAccountsPerIp := v.value);
    v := Stoi10(GetValue(cfg, "Server", "MaxCharactersPerAccount", "10"));
    if v.None? { return srv, false; }
    srv := srv.(maxCharactersPerAccount := v.value);
    srv := srv.(defaultLocale := GetValue(cfg, "Server", "DefaultLocale", "enUS"));
    srv := srv.(motd := GetValue(cfg, "Server", "MOTD", "Welcome to D3Server!"));
    srv := srv.(enableDebug := GetValue(cfg, "Server", "EnableDebug", "false") == "true");
    srv := srv.(logLevel := GetValue(cfg, "Server", "LogLevel", "INFO"));
    srv := srv.(logPath := GetValue(cfg, "Server", "LogPath", "logs/d3server.log"));
    return srv, true;
  }

  /** The parse completes exactly when all six numeric values convert, and
      then every field comes from the map (or its default) and none from the
      previous settings; the flags are true exactly when the text is
      "true". */
  lemma ParseOutcome(cfg: ConfigMap, conv: string -> Option<int>, db: DatabaseConfig, net: NetworkConfig, srv: ServerConfig)
    ensures var p := ParseWith(cfg, conv, db, net, srv);
      p.ok <==>
        conv(GetValue(cfg, "Network", "BattleNetPort", "1119")).Some? &&
        conv(GetValue(cfg, "Network", "GameServerPort", "1120")).Some? &&
        conv(GetValue(cfg, "Network", "RestApiPort", "8080")).Some? &&
        conv(GetValue(cfg, "Server", "MaxPlayers", "1000")).Some? &&
        conv(GetValue(cfg, "Server", "MaxAccountsPerIP", "10")).Some? &&
        conv(GetValue(cfg, "Server", "MaxCharactersPerAccount", "10")).Some?
    ensures var p := ParseWith(cfg, conv, db, net, srv);
      p.ok ==>
        p.net.battleNetPort == conv(GetValue(cfg, "Network", "BattleNetPort", "1119")).value &&
        p.net.gameServerPort == conv(GetValue(cfg, "Network", "GameServerPort", "1120")).value &&
        p.net.restApiPort == conv(GetValue(cfg, "Network", "RestApiPort", "8080")).value &&
        p.srv.maxPlayers == conv(GetValue(cfg, "Server", "MaxPlayers", "1000")).value &&
        p.srv.maxAccountsPerIp == conv(GetValue(cfg, "Server", "MaxAccountsPerIP", "10")).value &&
        p.srv.maxCharactersPerAccount == conv(GetValue(cfg, "Server", "MaxCharactersPerAccount", "10")).value &&
        (p.net.enableSsl <==> GetValue(cfg, "Network", "EnableSSL", "true") == "true") &&
        (p.srv.enableDebug <==> GetValue(cfg, "Server", "EnableDebug", "false") == "true") &&
        p.srv.logLevel == GetValue(cfg, "Server", "LogLevel", "INFO")
    ensures var p := ParseWith(cfg, conv, db, net, srv);
      p.db.filePath == GetValue(cfg, "Database", "FilePath", "d3server.db") &&
      p.net.bindIp == GetValue(cfg, "Network", "BindIP", "0.0.0.0")
    ensures forall db', net', srv' :: ParseWith(cfg, conv, db, net, srv).ok ==>
      ParseWith(cfg, conv, db', net', srv') == ParseWith(cfg, conv, db, net, srv)
  {
  }

  // ---------------------------------------------------------------------
  // Defaults
  // ---------------------------------------------------------------------

  /** The table `setDefaults` stores with its `setValue` calls, one map
      per section. */
  const DatabaseDefaults: map<string, string> := map[
    "Type" := "sqlite", "FilePath" := "d3server.db", "AccountsDB" := "accounts", "WorldsDB" := "worlds"]

  const NetworkDefaults: map<string, string> := map[
    "BindIP" := "0.0.0.0", "PublicIP" := "127.0.0.1", "BattleNetPort" := "1119",
    "GameServerPort" := "1120", "RestApiPort" := "8080", "EnableSSL" := "true",
    "SSLCertPath" := "certs/server.crt", "SSLKeyPath" := "certs/server.key"]

  const ServerDefaults: map<string, string> := map[
    "ServerName" := "D3Server", "MaxPlayers" := "1000", "MaxAccountsPerIP" := "10",
    "MaxCharactersPerAccount" := "10", "DefaultLocale" := "enUS", "MOTD" := "Welcome to D3Server!",
    "EnableDebug" := "false", "LogLevel" := "INFO", "LogPath" := "logs/d3server.log"]

  const Defaults: ConfigMap := map["Database" := DatabaseDefaults, "Network" := NetworkDefaults, "Server" := ServerDefaults]

  lemma DecimalLiterals()
    ensures Stoi.Stoi("10", 10) == Some(10)
    ensures Stoi.Stoi("1000", 10) == Some(1000)
    ensures Stoi.Stoi("1119", 10) == Some(1119)
    ensures Stoi.Stoi("1120", 10) == Some(1120)
    ensures Stoi.Stoi("8080", 10) == Some(8080)
  {
    assert Stoi.NatToString(1) == "1";
    assert Stoi.NatToString(10) == "10";
    assert Stoi.NatToString(100) == "100";
    assert Stoi.NatToString(1000) == "1000";
    assert Stoi.NatToString(11) == "11";
    assert Stoi.NatToString(111) == "111";
    assert Stoi.NatToString(1119) == "1119";
    assert Stoi.NatToString(112) == "112";
    assert Stoi.NatToString(1120) == "1120";
    assert Stoi.NatToString(8) == "8";
    assert Stoi.NatToString(80) == "80";
    assert Stoi.NatToString(808) == "808";
    assert Stoi.NatToString(8080) == "8080";
    Stoi.StoiIntToString(10);
    Stoi.StoiIntToString(1000);
    Stoi.StoiIntToString(1119);
    Stoi.StoiIntToString(1120);
    Stoi.StoiIntToString(8080);
  }

  /** The defaults parse, giving ports 1119, 1120 and 8080, SSL on, at most
      1000 players, 10 accounts per address, 10 characters per account and
      debug off. */
  lemma DefaultsParse(db: DatabaseConfig, net: NetworkConfig, srv: ServerConfig)
    ensures var p := ParseSpec(Defaults, db, net, srv);
      p.ok &&
      p.db == DatabaseConfig("sqlite", "d3server.db", "accounts", "worlds") &&
      p.net == NetworkConfig("0.0.0.0", "127.0.0.1", 1119, 1120, 8080, true, "certs/server.crt", "certs/server.key") &&
      p.srv == ServerConfig("D3Server", 1000, 10, 10, "enUS", "Welcome to D3Server!", false, "INFO", "logs/d3server.log")
  {
    DecimalLiterals();
    DefaultsParseWith(Stoi10, db, net, srv);
  }

  lemma DefaultsParseWith(conv: string -> Option<int>, db: DatabaseConfig, net: NetworkConfig, srv: ServerConfig)
    requires conv("10") == Some(10) && conv("1000") == Some(1000)
    requires conv("1119") == Some(1119) && conv("1120") == Some(1120) && conv("8080") == Some(8080)
    ensures var p := ParseWith(Defaults, conv, db, net, srv);
      p.ok &&
      p.db == DatabaseConfig("sqlite", "d3server.db", "accounts", "worlds") &&
      p.net == NetworkConfig("0.0.0.0", "127.0.0.1", 1119, 1120, 8080, true, "certs/server.crt", "certs/server.key") &&
      p.srv == ServerConfig("D3Server", 1000, 10, 10, "enUS", "Welcome to D3Server!", false, "INFO", "logs/d3server.log")
  {
    DefaultDatabase();
    DefaultNetwork(conv, net);
    DefaultServer(conv, srv);
  }

  lemma DefaultDatabase()
    ensures ParseDatabase(Defaults) == DatabaseConfig("sqlite", "d3server.db", "accounts", "worlds")
  {
    DefaultLookups();
  }

  lemma DefaultNetwork(conv: string -> Option<int>, net: NetworkConfig)
    requires conv("1119") == Some(1119) && conv("1120") == Some(1120) && conv("8080") == Some(8080)
    ensures ParseNetwork(Defaults, conv, net) ==
      (NetworkConfig("0.0.0.0", "127.0.0.1", 1119, 1120, 8080, true, "certs/server.crt", "certs/server.key"), true)
  {
    NetworkLookups();
  }

  lemma DefaultServer(conv: string -> Option<int>, srv: ServerConfig)
    requires conv("10") == Some(10) && conv("1000") == Some(1000)
    ensures ParseServer(Defaults, conv, srv) ==
      (ServerConfig("D3Server", 1000, 10, 10, "enUS", "Welcome to D3Server!", false, "INFO", "logs/d3server.log"), true)
  {
    ServerLookups();
  }

  lemma DefaultLookups()
    ensures "Database" in Defaults && Defaults["Database"] == DatabaseDefaults
    ensures "Network" in Defaults && Defaults["Network"] == NetworkDefaults
    ensures "Server" in Defaults && Defaults["Server"] == ServerDefaults
  {
  }

  /** Each network value of the table is the default its lookup names. */
  lemma NetworkLookups()
    ensures GetValue(Defaults, "Network", "BindIP", "0.0.0.0") == "0.0.0.0"
    ensures GetValue(Defaults, "Network", "PublicIP", "127.0.0.1") == "127.0.0.1"
    ensures GetValue(Defaults, "Network", "BattleNetPort", "1119") == "1119"
    ensures GetValue(Defaults, "Network", "GameServerPort", "1120") == "1120"
    ensures GetValue(Defaults, "Network", "RestApiPort", "8080") == "8080"
    ensures GetValue(Defaults, "Network", "EnableSSL", "true") == "true"
    ensures GetValue(Defaults, "Network", "SSLCertPath", "certs/server.crt") == "certs/server.crt"
    ensures GetValue(Defaults, "Network", "SSLKeyPath", "certs/server.key") == "certs/server.key"
  {
    DefaultLookups();
  }

  /** Each server value of the table is the default its lookup names. */
  lemma ServerLookups()
    ensures GetValue(Defaults, "Server", "ServerName", "D3Server") == "D3Server"
    ensures GetValue(Defaults, "Server", "MaxPlayers", "1000") == "1000"
    ensures GetValue(Defaults, "Server", "MaxAccountsPerIP", "10") == "10"
    ensures GetValue(Defaults, "Server", "MaxCharactersPerAccount", "10") == "10"
    ensures GetValue(Defaults, "Server", "DefaultLocale", "enUS") == "enUS"
    ensures GetValue(Defaults, "Server", "MOTD", "Welcome to D3Server!") == "Welcome to D3Server!"
    ensures GetValue(Defaults, "Server", "EnableDebug", "false") == "false"
    ensures GetValue(Defaults, "Server", "LogLevel", "INFO") == "INFO"
    ensures GetValue(Defaults, "Server", "LogPath", "logs/d3server.log") == "logs/d3server.log"
  {
    DefaultLookups();
  }

  // ---------------------------------------------------------------------
  // The line parser of loadFromFile
  // ---------------------------------------------------------------------

  datatype LoadState = LoadState(cfg: ConfigMap, section: string)

  predicate IsCommentOrEmpty(line: string)
  {
    line == [] || line[0] == '#' || line[0] == ';'
  }

  /** A trimmed line of the form "[name]". */
  predicate IsSectionHeader(t: string)
  {
    |t| >= 2 && t[0] == '[' && t[|t| - 1] == ']'
  }

  /**
   * One line of `loadFromFile`: skipped when empty or starting with '#' or
   * ';' (tested before trimming); otherwise trimmed; "[name]" sets the
   * section; a line with '=' stores the trimmed text before the first '='
   * under the trimmed text after it; anything else is ignored. A line of
   * whitespace only trims to "" and is ignored: the test of its first
   * character then reads the terminating '\0'.
   */
  function ApplyLine(st: LoadState, line: string): LoadState
  {
    if IsCommentOrEmpty(line) then st else ApplyTrimmed(st, StringUtils.Trim(line))
  }

  /** The handling of a line once trimmed. */
  function ApplyTrimmed(st: LoadState, t: string): LoadState
  {
    if t == [] then st
    else if IsSectionHeader(t) then LoadState(st.cfg, t[1..|t| - 1])
    else
      var pos := StringUtils.IndexOfChar(t, '=');
      if pos < |t| then
        LoadState(SetEntry(st.cfg, st.section, StringUtils.Trim(t[..pos]), StringUtils.Trim(t[pos + 1..])), st.section)
      else st
  }

  /** The state after the lines, in order. */
  function ParseLines(st: LoadState, lines: seq<string>): LoadState
    decreases |lines|
  {
    if lines == [] then st else ParseLines(ApplyLine(st, lines[0]), lines[1..])
  }

  /** Empty lines and comments change nothing. */
  lemma CommentsSkipped(st: LoadState, line: string)
    requires IsCommentOrEmpty(line)
    ensures ApplyLine(st, line) == st
  {
  }

  lemma {:induction false} TrimLeftSkipsSpaces(ws: string, t: string)
    requires forall i :: 0 <= i < |ws| ==> StringUtils.IsSpace(ws[i])
    ensures StringUtils.TrimLeft(ws + t) == StringUtils.TrimLeft(t)
    decreases |ws|
  {
    if ws == [] {
      assert ws + t == t;
    } else {
      assert (ws + t)[0] == ws[0];
      assert (ws + t)[1..] == ws[1..] + t;
      TrimLeftSkipsSpaces(ws[1..], t);
    }
  }

  /** The comment test looks at the line before trimming: a line starting
      with '#' is skipped, but the same line indented is read as content
      (so "  #a=b" stores "b" under the key "#a"). */
  lemma IndentedCommentIsRead(st: LoadState, ws: string, t: string)
    requires ws != [] && forall i :: 0 <= i < |ws| ==> StringUtils.IsSpace(ws[i])
    requires t != [] && t[0] == '#'
    ensures ApplyLine(st, t) == st
    ensures ApplyLine(st, ws + t) == ApplyTrimmed(st, StringUtils.Trim(t))
  {
    var line := ws + t;
    assert line[0] == ws[0];
    assert !IsCommentOrEmpty(line);
    TrimLeftSkipsSpaces(ws, t);
    assert StringUtils.Trim(line) == StringUtils.Trim(t);
  }

  /** A section header sets the current section and stores nothing. */
  lemma SectionHeaderSetsSection(st: LoadState, line: string, name: string)
    requires !IsCommentOrEmpty(line) && StringUtils.Trim(line) == "[" + name + "]"
    ensures ApplyLine(st, line) == LoadState(st.cfg, name)
  {
    var t := StringUtils.Trim(line);
    assert t[1..|t| - 1] == name;
    assert t[0] == '[';
  }

  /** A non-header line with '=' stores the trimmed key and value in the
      current section; later lines with the same key overwrite it. */
  lemma KeyValueStored(st: LoadState, line: string)
    requires !IsCommentOrEmpty(line)
    requires var t := StringUtils.Trim(line); !IsSectionHeader(t) && '=' in t
    ensures var t := StringUtils.Trim(line); var pos := StringUtils.IndexOfChar(t, '=');
      ApplyLine(st, line) == LoadState(
        SetEntry(st.cfg, st.section, StringUtils.Trim(t[..pos]), StringUtils.Trim(t[pos + 1..])), st.section)
  {
  }

  /** A line that is neither a header nor holds '=' changes nothing. */
  lemma OtherLinesIgnored(st: LoadState, line: string)
    requires var t := StringUtils.Trim(line); !IsSectionHeader(t) && '=' !in t
    ensures ApplyLine(st, line) == st
  {
  }

  lemma {:induction false} ParseLinesAppend(st: LoadState, a: seq<string>, b: seq<string>)
    ensures ParseLines(st, a + b) == ParseLines(ParseLines(st, a), b)
    decreases |a|
  {
    if a == [] {
      assert a + b == b;
    } else {
      assert (a + b)[1..] == a[1..] + b;
      ParseLinesAppend(ApplyLine(st, a[0]), a[1..], b);
    }
  }

  // ---------------------------------------------------------------------
  // The file saveToFile writes, and reading it back
  // ---------------------------------------------------------------------

  /** The three header lines: two comments and a blank line. */
  function Header(timeString: string): seq<string>
  {
    ["# D3Server Configuration File", "# Generated on " + timeString, ""]
  }

  function HeaderLine(name: string): string
  {
    "[" + name + "]"
  }

  function KeyLine(key: string, value: string): string
  {
    key + " = " + value
  }

  /** "key = value" for the keys in the order given. */
  function RenderPairs(m: map<string, string>, keys: seq<string>): (r: seq<string>)
    requires forall k :: k in keys ==> k in m
    ensures |r| == |keys|
  {
    if keys == [] then []
    else RenderPairs(m, keys[..|keys| - 1]) + [KeyLine(keys[|keys| - 1], m[keys[|keys| - 1]])]
  }

  /** The lines of one section: header, pairs, blank line. */
  function RenderSection(name: string, m: map<string, string>, keys: seq<string>): seq<string>
    requires forall k :: k in keys ==> k in m
  {
    [HeaderLine(name)] + RenderPairs(m, keys) + [""]
  }

  /** How the unordered maps are walked: each section once, and for each
      section a list of exactly its keys. */
  ghost predicate IterationOrder(cfg: ConfigMap, order: seq<string>, keyOrder: map<string, seq<string>>)
  {
    (forall i, j :: 0 <= i < j < |order| ==> order[i] != order[j]) &&
    (forall s :: s in cfg <==> s in order) &&
    (forall s :: s in cfg ==> s in keyOrder && forall k :: k in keyOrder[s] <==> k in cfg[s])
  }

  /** Every section of `order` exists and has a key list of its own keys. */
  predicate Walkable(cfg: ConfigMap, order: seq<string>, keyOrder: map<string, seq<string>>)
  {
    forall j :: 0 <= j < |order| ==> Listed(cfg, order[j], keyOrder)
  }

  /** Section `s` exists and has a key list of its own keys. */
  predicate Listed(cfg: ConfigMap, s: string, keyOrder: map<string, seq<string>>)
  {
    s in cfg && s in keyOrder && forall k :: k in keyOrder[s] ==> k in cfg[s]
  }

  /** The sections in `order`, empty ones skipped. */
  function RenderSections(cfg: ConfigMap, order: seq<string>, keyOrder: map<string, seq<string>>): seq<string>
    requires Walkable(cfg, order, keyOrder)
  {
    if order == [] then []
    else
      var s := order[|order| - 1];
      RenderSections(cfg, order[..|order| - 1], keyOrder) +
      (if cfg[s] == map[] then [] else RenderSection(s, cfg[s], keyOrder[s]))
  }

  lemma RenderPairsSnoc(m: map<string, string>, keys: seq<string>, j: nat)
    requires j < |keys| && forall k :: k in keys ==> k in m
    ensures RenderPairs(m, keys[..j + 1]) == RenderPairs(m, keys[..j]) + [KeyLine(keys[j], m[keys[j]])]
  {
    assert keys[..j + 1][..j] == keys[..j];
  }

  lemma WalkablePrefix(cfg: ConfigMap, order: seq<string>, keyOrder: map<string, seq<string>>, i: nat)
    requires Walkable(cfg, order, keyOrder) && i <= |order|
    ensures Walkable(cfg, order[..i], keyOrder)
  {
    forall j | 0 <= j < i
      ensures Listed(cfg, order[..i][j], keyOrder)
    {
      assert order[..i][j] == order[j];
    }
  }

  /** A section's turn in the walk: an empty one adds nothing. */
  lemma RenderSectionsSkip(cfg: ConfigMap, order: seq<string>, keyOrder: map<string, seq<string>>, i: nat)
    requires Walkable(cfg, order, keyOrder) && i < |order|
    requires Listed(cfg, order[i], keyOrder) && cfg[order[i]] == map[]
    ensures Walkable(cfg, order[..i], keyOrder) && Walkable(cfg, order[..i + 1], keyOrder)
    ensures RenderSections(cfg, order[..i + 1], keyOrder) == RenderSections(cfg, order[..i], keyOrder)
  {
    WalkablePrefix(cfg, order, keyOrder, i);
    WalkablePrefix(cfg, order, keyOrder, i + 1);
    assert order[..i + 1][..i] == order[..i];
    var front := RenderSections(cfg, order[..i], keyOrder);
    assert RenderSections(cfg, order[..i + 1], keyOrder) == front + [];
    assert front + [] == front;
  }

  /** A section's turn in the walk: a non-empty one adds its lines. */
  lemma RenderSectionsAdd(cfg: ConfigMap, order: seq<string>, keyOrder: map<string, seq<string>>, i: nat)
    requires Walkable(cfg, order, keyOrder) && i < |order|
    requires Listed(cfg, order[i], keyOrder) && cfg[order[i]] != map[]
    ensures Walkable(cfg, order[..i], keyOrder) && Walkable(cfg, order[..i + 1], keyOrder)
    ensures var s := order[i];
      RenderSections(cfg, order[..i + 1], keyOrder) ==
      RenderSections(cfg, order[..i], keyOrder) + RenderSection(s, cfg[s], keyOrder[s])
  {
    WalkablePrefix(cfg, order, keyOrder, i);
    WalkablePrefix(cfg, order, keyOrder, i + 1);
    assert order[..i + 1][..i] == order[..i];
  }

  function RenderFile(timeString: string, cfg: ConfigMap, order: seq<string>, keyOrder: map<string, seq<string>>): seq<string>
    requires Walkable(cfg, order, keyOrder)
  {
    Header(timeString) + RenderSections(cfg, order, keyOrder)
  }

  /** A key that reads back as itself from "key = value": not empty, no
      surrounding whitespace, no '=', no line break, and not starting like a
      comment or a section header. */
  predicate SafeKey(k: string)
  {
    k != [] && StringUtils.Trimmed(k) && '=' !in k && '\n' !in k && k[0] != '#' && k[0] != ';' && k[0] != '['
  }

  /** Every key is safe, and every value is its own trim and holds no line
      break. */
  predicate WritablePairs(m: map<string, string>)
  {
    forall k :: k in m ==> SafeKey(k) && StringUtils.Trimmed(m[k]) && '\n' !in m[k]
  }

  /** Every section is writable and its name holds no line break. */
  predicate Writable(cfg: ConfigMap)
  {
    forall s :: s in cfg ==> '\n' !in s && WritablePairs(cfg[s])
  }

  /** The sections that have at least one key. */
  function NonEmptySections(cfg: ConfigMap): (r: ConfigMap)
    ensures forall s :: s in r <==> s in cfg && cfg[s] != map[]
    ensures forall s :: s in r ==> r[s] == cfg[s]
  {
    map s | s in cfg && cfg[s] != map[] :: cfg[s]
  }

  lemma TrimTrailingSpace(k: string)
    requires k != [] && StringUtils.Trimmed(k)
    ensures StringUtils.Trim(k + " ") == k
  {
    assert (k + " ")[0] == k[0];
    assert StringUtils.TrimLeft(k + " ") == k + " ";
    assert (k + " ")[..|k|] == k;
    StringUtils.TrimOfTrimmed(k);
  }

  lemma TrimLeadingSpace(v: string)
    requires StringUtils.Trimmed(v)
    ensures StringUtils.Trim(" " + v) == v
  {
    assert (" " + v)[1..] == v;
    StringUtils.TrimOfTrimmed(v);
  }

  /** A header line reads back as its section name. */
  lemma HeaderLineRead(st: LoadState, name: string)
    ensures ApplyLine(st, HeaderLine(name)) == LoadState(st.cfg, name)
  {
    var line := HeaderLine(name);
    assert line[0] == '[' && line[|line| - 1] == ']';
    StringUtils.TrimOfTrimmed(line);
    assert line[1..|line| - 1] == name;
  }

  /** The trim of a written "key = value" line. */
  lemma KeyLineTrim(k: string, v: string)
    requires SafeKey(k) && StringUtils.Trimmed(v)
    ensures StringUtils.Trim(KeyLine(k, v)) == k + " =" + (if v == [] then [] else " " + v)
  {
    var line := KeyLine(k, v);
    var t := k + " =" + (if v == [] then [] else " " + v);
    assert line[0] == k[0];
    assert StringUtils.TrimLeft(line) == line;
    if v == [] {
      assert line == t + " ";
      assert t[|t| - 1] == '=';
      assert (t + " ")[..|t|] == t;
      assert StringUtils.TrimRight(t) == t;
    } else {
      assert line == t;
      assert line[|line| - 1] == v[|v| - 1];
    }
  }

  /** A safe key with a trimmed value reads back as written. */
  lemma KeyLineRead(st: LoadState, k: string, v: string)
    requires SafeKey(k) && StringUtils.Trimmed(v)
    ensures ApplyLine(st, KeyLine(k, v)) == LoadState(SetEntry(st.cfg, st.section, k, v), st.section)
  {
    var line := KeyLine(k, v);
    var rest := if v == [] then [] else " " + v;
    var t := k + " =" + rest;
    assert line[0] == k[0];
    assert ApplyLine(st, line) == ApplyTrimmed(st, StringUtils.Trim(line));
    KeyLineTrim(k, v);
    KeyTextSplit(k, rest);
    ApplyKeyText(st, t, |k| + 1);
    TrimTrailingSpace(k);
    ValueTextTrim(v);
  }

  /** The text after " =" trims back to the value. */
  lemma ValueTextTrim(v: string)
    requires StringUtils.Trimmed(v)
    ensures StringUtils.Trim(if v == [] then [] else " " + v) == v
  {
    if v != [] {
      TrimLeadingSpace(v);
    }
  }

  /** In the trimmed text of a written line, the first '=' follows the key
      and a space. */
  lemma KeyTextSplit(k: string, rest: string)
    requires SafeKey(k)
    ensures var t := k + " =" + rest;
      StringUtils.IndexOfChar(t, '=') == |k| + 1 && t[..|k| + 1] == k + " " && t[|k| + 2..] == rest
      && t != [] && t[0] != '['
  {
    var t := k + " =" + rest;
    assert t[0] == k[0];
    assert t[|k| + 1] == '=';
    forall j | 0 <= j < |k| + 1
      ensures t[j] != '='
    {
      if j < |k| {
        assert t[j] == k[j];
      }
    }
    StringUtils.IndexOfCharUnique(t, '=', |k| + 1);
    assert t[..|k| + 1] == k + " ";
    assert t[|k| + 2..] == rest;
  }

  /** A trimmed text that is no section header and has its first '=' at
      `pos` stores the trimmed halves. */
  lemma ApplyKeyText(st: LoadState, t: string, pos: nat)
    requires t != [] && t[0] != '[' && pos < |t| && StringUtils.IndexOfChar(t, '=') == pos
    ensures ApplyTrimmed(st, t)
      == LoadState(SetEntry(st.cfg, st.section, StringUtils.Trim(t[..pos]), StringUtils.Trim(t[pos + 1..])), st.section)
  {
  }

  /** The writes of `keys`, in order, into `section`, with the values of m. */
  function StorePairs(cfg: ConfigMap, section: string, m: map<string, string>, keys: seq<string>): ConfigMap
    requires forall k :: k in keys ==> k in m
  {
    if keys == [] then cfg
    else
      var k := keys[|keys| - 1];
      SetEntry(StorePairs(cfg, section, m, keys[..|keys| - 1]), section, k, m[k])
  }

  /** The last element of a sequence without repetitions is not among
      the others, and every element is one or the other. */
  lemma SplitLast(xs: seq<string>)
    requires xs != []
    requires forall i, j :: 0 <= i < j < |xs| ==> xs[i] != xs[j]
    ensures xs[|xs| - 1] !in xs[..|xs| - 1]
    ensures forall x :: x in xs <==> x in xs[..|xs| - 1] || x == xs[|xs| - 1]
  {
    var front := xs[..|xs| - 1];
    assert xs == front + [xs[|xs| - 1]];
    forall i | 0 <= i < |front|
      ensures front[i] != xs[|xs| - 1]
    {
      assert front[i] == xs[i];
    }
  }

  /** Every element is the last one or among the others. */
  lemma SplitLastCover(xs: seq<string>)
    requires xs != []
    ensures forall x :: x in xs <==> x in xs[..|xs| - 1] || x == xs[|xs| - 1]
  {
    assert xs == xs[..|xs| - 1] + [xs[|xs| - 1]];
  }

  /** The pairs of m under `keys`. */
  function KeysMap(m: map<string, string>, keys: seq<string>): map<string, string>
    requires forall k :: k in keys ==> k in m
  {
    map k | k in keys :: m[k]
  }

  lemma KeysMapSnoc(base: map<string, string>, m: map<string, string>, keys: seq<string>)
    requires keys != []
    requires forall k :: k in keys ==> k in m
    ensures var front := keys[..|keys| - 1]; var last := keys[|keys| - 1];
      base + KeysMap(m, keys) == (base + KeysMap(m, front))[last := m[last]]
  {
    SplitLastCover(keys);
  }

  /** Writing keys with their values of m adds exactly those pairs to the
      section. */
  lemma {:induction false} StorePairsAdds(cfg: ConfigMap, section: string, m: map<string, string>, keys: seq<string>)
    requires forall k :: k in keys ==> k in m
    ensures keys == [] ==> StorePairs(cfg, section, m, keys) == cfg
    ensures keys != [] ==> StorePairs(cfg, section, m, keys) == cfg[section := SectionOf(cfg, section) + KeysMap(m, keys)]
    decreases |keys|
  {
    if keys != [] {
      var front := keys[..|keys| - 1];
      var last := keys[|keys| - 1];
      var base := SectionOf(cfg, section);
      StorePairsAdds(cfg, section, m, front);
      KeysMapSnoc(base, m, keys);
      if front == [] {
        assert KeysMap(m, front) == map[];
        assert base + KeysMap(m, front) == base;
      } else {
        UpdateTwice(cfg, section, base + KeysMap(m, front), (base + KeysMap(m, front))[last := m[last]]);
      }
    }
  }

  /** Storing a section twice keeps the second. */
  lemma UpdateTwice(cfg: ConfigMap, section: string, a: map<string, string>, b: map<string, string>)
    ensures cfg[section := a][section := b] == cfg[section := b]
  {
  }


  lemma ParseLinesSingle(st: LoadState, line: string)
    ensures ParseLines(st, [line]) == ApplyLine(st, line)
  {
    assert [line][1..] == [];
  }

  /** Lines that are all empty or comments change nothing. */
  lemma {:induction false} SkipLines(st: LoadState, lines: seq<string>)
    requires forall i :: 0 <= i < |lines| ==> IsCommentOrEmpty(lines[i])
    ensures ParseLines(st, lines) == st
    decreases |lines|
  {
    if lines != [] {
      CommentsSkipped(st, lines[0]);
      SkipLines(st, lines[1..]);
    }
  }

  /** Reading back the pair lines of a section performs their writes. */
  lemma {:induction false} PairsRead(st: LoadState, m: map<string, string>, keys: seq<string>)
    requires forall k :: k in keys ==> k in m && SafeKey(k) && StringUtils.Trimmed(m[k])
    ensures ParseLines(st, RenderPairs(m, keys)) == LoadState(StorePairs(st.cfg, st.section, m, keys), st.section)
    decreases |keys|
  {
    if keys != [] {
      var front := keys[..|keys| - 1];
      var last := keys[|keys| - 1];
      PairsRead(st, m, front);
      var mid := ParseLines(st, RenderPairs(m, front));
      ParseLinesAppend(st, RenderPairs(m, front), [KeyLine(last, m[last])]);
      ParseLinesSingle(mid, KeyLine(last, m[last]));
      KeyLineRead(mid, last, m[last]);
    }
  }

  /** The pair lines of a section, read back in that section, add exactly
      its pairs. */
  lemma PairsAdd(st: LoadState, m: map<string, string>, keys: seq<string>)
    requires forall k :: k in keys <==> k in m
    requires WritablePairs(m)
    requires m != map[]
    ensures ParseLines(st, RenderPairs(m, keys)) ==
      LoadState(st.cfg[st.section := SectionOf(st.cfg, st.section) + m], st.section)
  {
    PairsRead(st, m, keys);
    StorePairsAdds(st.cfg, st.section, m, keys);
    assert KeysMap(m, keys) == m;
    assert keys != [] by {
      var k0 :| k0 in m;
    }
  }

  /** Reading back one rendered section puts exactly its pairs into it. */
  lemma SectionRead(st: LoadState, name: string, m: map<string, string>, keys: seq<string>)
    requires forall k :: k in keys <==> k in m
    requires WritablePairs(m)
    requires m != map[]
    ensures ParseLines(st, RenderSection(name, m, keys)).cfg ==
      st.cfg[name := SectionOf(st.cfg, name) + m]
  {
    var head := [HeaderLine(name)];
    var pairs := RenderPairs(m, keys);
    var afterHeader := LoadState(st.cfg, name);
    HeaderLineRead(st, name);
    ParseLinesSingle(st, HeaderLine(name));
    PairsAdd(afterHeader, m, keys);
    var afterPairs := ParseLines(afterHeader, pairs);
    ParseLinesAppend(st, head, pairs);
    ParseLinesAppend(st, head + pairs, [""]);
    ParseLinesSingle(afterPairs, "");
    assert RenderSection(name, m, keys) == head + pairs + [""];
  }

  /** The header lines are all skipped. */
  lemma HeaderSkipped(st: LoadState, timeString: string)
    ensures ParseLines(st, Header(timeString)) == st
  {
    SkipLines(st, Header(timeString));
  }

  /** The non-empty sections among `order`. */
  function Collected(cfg: ConfigMap, order: seq<string>): (r: ConfigMap)
    requires forall s :: s in order ==> s in cfg
  {
    map s | s in order && cfg[s] != map[] :: cfg[s]
  }

  lemma CollectedSnoc(cfg: ConfigMap, order: seq<string>)
    requires order != []
    requires forall s :: s in order ==> s in cfg
    ensures var front := order[..|order| - 1]; var last := order[|order| - 1];
      Collected(cfg, order) ==
        if cfg[last] == map[] then Collected(cfg, front) else Collected(cfg, front)[last := cfg[last]]
  {
    SplitLastCover(order);
  }

  lemma OverlayUpdate(a: ConfigMap, b: ConfigMap, k: string, v: map<string, string>)
    ensures (a + b)[k := v] == a + b[k := v]
  {
  }

  /** A section read into a configuration that does not have it yet. */
  lemma NewSectionRead(mid: LoadState, name: string, m: map<string, string>, keys: seq<string>,
                       collected: ConfigMap, base: ConfigMap)
    requires forall k :: k in keys <==> k in m
    requires WritablePairs(m) && m != map[]
    requires mid.cfg == base + collected && name !in mid.cfg
    ensures ParseLines(mid, RenderSection(name, m, keys)).cfg == base + collected[name := m]
  {
    SectionRead(mid, name, m, keys);
    var empty: map<string, string> := map[];
    assert empty + m == m;
    OverlayUpdate(base, collected, name, m);
  }

  /** Reading back the rendered sections adds the non-empty ones of `order`
      to a configuration that holds none of them. */
  lemma {:induction false} SectionsRead(st: LoadState, cfg: ConfigMap, order: seq<string>, keyOrder: map<string, seq<string>>)
    requires forall i, j :: 0 <= i < j < |order| ==> order[i] != order[j]
    requires forall s :: s in order ==> s in cfg && s in keyOrder && forall k :: k in keyOrder[s] <==> k in cfg[s]
    requires forall s :: s in order ==> s !in st.cfg
    requires Writable(cfg)
    ensures ParseLines(st, RenderSections(cfg, order, keyOrder)).cfg == st.cfg + Collected(cfg, order)
    decreases |order|
  {
    if order == [] {
      assert Collected(cfg, order) == map[];
      assert st.cfg + map[] == st.cfg;
    } else {
      var front := order[..|order| - 1];
      var last := order[|order| - 1];
      SplitLast(order);
      SectionsRead(st, cfg, front, keyOrder);
      var mid := ParseLines(st, RenderSections(cfg, front, keyOrder));
      var block := if cfg[last] == map[] then [] else RenderSection(last, cfg[last], keyOrder[last]);
      ParseLinesAppend(st, RenderSections(cfg, front, keyOrder), block);
      CollectedSnoc(cfg, order);
      if cfg[last] != map[] {
        NewSectionRead(mid, last, cfg[last], keyOrder[last], Collected(cfg, front), st.cfg);
      } else {
        assert block == [];
      }
    }
  }

  lemma CollectedAll(cfg: ConfigMap, order: seq<string>)
    requires forall s :: s in cfg <==> s in order
    ensures map[] + Collected(cfg, order) == NonEmptySections(cfg)
  {
  }

  /** The text of a file whose lines are each written followed by
      `std::endl`. */
  function FileText(lines: seq<string>): string
    decreases |lines|
  {
    if lines == [] then [] else lines[0] + "\n" + FileText(lines[1..])
  }

  /** No line holds a line break of its own. */
  predicate LineFree(lines: seq<string>)
  {
    forall i :: 0 <= i < |lines| ==> '\n' !in lines[i]
  }

  /** Reading a file with `getline` gives back the lines written to it,
      when none of them holds a line break. */
  lemma {:induction false} FileTextRead(lines: seq<string>)
    requires LineFree(lines)
    ensures StringUtils.SplitSpec(FileText(lines), '\n') == lines
    decreases |lines|
  {
    if lines != [] {
      var l := lines[0];
      var rest := FileText(lines[1..]);
      var t := l + "\n" + rest;
      assert FileText(lines) == t;
      StringUtils.IndexOfCharUnique(t, '\n', |l|);
      StringUtils.SplitAt(t, '\n', |l|);
      assert t[..|l|] == l && t[|l| + 1..] == rest;
      FileTextRead(lines[1..]);
      assert lines == [l] + lines[1..];
    }
  }

  /** A value with a line break is written as two lines, and the second
      one is read as a line of its own. */
  lemma LineBreakSplitsValue()
    ensures StringUtils.SplitSpec(FileText([KeyLine("k", "a\nb")]), '\n') == ["k = a", "b"]
  {
    var t: string := "k = a\nb\n";
    LineBreakText();
    var rest: string := "b\n";
    assert t[6..] == rest;
    StringUtils.IndexOfCharUnique(t, '\n', 5);
    StringUtils.SplitAt(t, '\n', 5);
    StringUtils.IndexOfCharUnique(rest, '\n', 1);
    StringUtils.SplitAt(rest, '\n', 1);
    assert t[..5] == "k = a" && rest[..1] == "b" && rest[2..] == [];
    assert StringUtils.SplitSpec(t, '\n') == ["k = a"] + (["b"] + []);
  }

  lemma LineBreakText()
    ensures FileText([KeyLine("k", "a\nb")]) == "k = a\nb\n"
  {
    assert [KeyLine("k", "a\nb")][1..] == [];
  }

  lemma LineFreeAppend(a: seq<string>, b: seq<string>)
    requires LineFree(a) && LineFree(b)
    ensures LineFree(a + b)
  {
    forall i | 0 <= i < |a + b|
      ensures '\n' !in (a + b)[i]
    {
      if i < |a| {
        assert (a + b)[i] == a[i];
      } else {
        assert (a + b)[i] == b[i - |a|];
      }
    }
  }

  lemma {:induction false} RenderPairsLineFree(m: map<string, string>, keys: seq<string>)
    requires forall k :: k in keys ==> k in m && '\n' !in k && '\n' !in m[k]
    ensures LineFree(RenderPairs(m, keys))
    decreases |keys|
  {
    if keys != [] {
      var k := keys[|keys| - 1];
      RenderPairsLineFree(m, keys[..|keys| - 1]);
      var line := KeyLine(k, m[k]);
      assert forall j :: 0 <= j < |line| ==> line[j] != '\n' by {
        forall j | 0 <= j < |line|
          ensures line[j] != '\n'
        {
          if j < |k| {
            assert line[j] == k[j];
          } else if j >= |k| + 3 {
            assert line[j] == m[k][j - |k| - 3];
          }
        }
      }
      LineFreeAppend(RenderPairs(m, keys[..|keys| - 1]), [line]);
    }
  }

  /** The written sections have no line breaks inside their lines. */
  lemma {:induction false} RenderSectionsLineFree(cfg: ConfigMap, order: seq<string>, keyOrder: map<string, seq<string>>)
    requires Walkable(cfg, order, keyOrder) && Writable(cfg)
    ensures LineFree(RenderSections(cfg, order, keyOrder))
    decreases |order|
  {
    if order != [] {
      var s := order[|order| - 1];
      WalkablePrefix(cfg, order, keyOrder, |order| - 1);
      RenderSectionsLineFree(cfg, order[..|order| - 1], keyOrder);
      if cfg[s] != map[] {
        var h := HeaderLine(s);
        assert forall j :: 0 <= j < |h| ==> h[j] != '\n' by {
          forall j | 0 <= j < |h|
            ensures h[j] != '\n'
          {
            if 0 < j < |h| - 1 {
              assert h[j] == s[j - 1];
            }
          }
        }
        RenderPairsLineFree(cfg[s], keyOrder[s]);
        LineFreeAppend([h], RenderPairs(cfg[s], keyOrder[s]));
        LineFreeAppend([h] + RenderPairs(cfg[s], keyOrder[s]), [""]);
        LineFreeAppend(RenderSections(cfg, order[..|order| - 1], keyOrder), RenderSection(s, cfg[s], keyOrder[s]));
      } else {
        assert RenderSections(cfg, order, keyOrder) == RenderSections(cfg, order[..|order| - 1], keyOrder) + [];
        assert RenderSections(cfg, order[..|order| - 1], keyOrder) + [] == RenderSections(cfg, order[..|order| - 1], keyOrder);
      }
    }
  }

  /** Every line of the saved file is free of line breaks. */
  lemma RenderFileLineFree(timeString: string, cfg: ConfigMap, order: seq<string>, keyOrder: map<string, seq<string>>)
    requires Walkable(cfg, order, keyOrder) && Writable(cfg) && '\n' !in timeString
    ensures LineFree(RenderFile(timeString, cfg, order, keyOrder))
  {
    var g := "# Generated on " + timeString;
    assert forall j :: 0 <= j < |g| ==> g[j] != '\n' by {
      forall j | 0 <= j < |g|
        ensures g[j] != '\n'
      {
        if j >= 15 {
          assert g[j] == timeString[j - 15];
        }
      }
    }
    assert LineFree(Header(timeString));
    RenderSectionsLineFree(cfg, order, keyOrder);
    LineFreeAppend(Header(timeString), RenderSections(cfg, order, keyOrder));
  }

  /**
   * Saving then loading: the text `saveToFile` writes (each line followed by
   * a line break), split into lines by `getline` and read back by the loop
   * of `loadFromFile` into an empty configuration, gives back every
   * non-empty section with all its pairs, provided every key is safe, every
   * value is its own trim, and no key, value, section name or time stamp
   * holds a line break. Empty sections are not written and so are lost.
   */
  lemma SaveThenLoad(timeString: string, cfg: ConfigMap, order: seq<string>, keyOrder: map<string, seq<string>>)
    requires IterationOrder(cfg, order, keyOrder)
    requires Writable(cfg) && '\n' !in timeString
    ensures var text := FileText(RenderFile(timeString, cfg, order, keyOrder));
      ParseLines(LoadState(map[], []), StringUtils.SplitSpec(text, '\n')).cfg == NonEmptySections(cfg)
  {
    var st := LoadState(map[], []);
    RenderFileLineFree(timeString, cfg, order, keyOrder);
    FileTextRead(RenderFile(timeString, cfg, order, keyOrder));
    HeaderSkipped(st, timeString);
    ParseLinesAppend(st, Header(timeString), RenderSections(cfg, order, keyOrder));
    SectionsRead(st, cfg, order, keyOrder);
    CollectedAll(cfg, order);
  }

  /** The body of the `loadFromFile` loop for one line. */
  method ReadLine(config: ConfigMap, currentSection: string, line: string)
    returns (config': ConfigMap, section': string)
    ensures LoadState(config', section') == ApplyLine(LoadState(config, currentSection), line)
  {
    config', section' := config, currentSection;
    if IsCommentOrEmpty(line) {
      return;
    }
    var t := StringUtils.Trim(line);
    if t == [] {
      return;
    }
    if IsSectionHeader(t) {
      section' := t[1..|t| - 1];
      return;
    }
    var pos := StringUtils.IndexOfChar(t, '=');
    if pos < |t| {
      var key := StringUtils.Trim(t[..pos]);
      var value := StringUtils.Trim(t[pos + 1..]);
      config' := SetEntry(config, currentSection, key, value);
    }
  }

  // ---------------------------------------------------------------------
  // The class
  // ---------------------------------------------------------------------

  class Config {
    var config: ConfigMap
    var database: DatabaseConfig
    var network: NetworkConfig
    var server: ServerConfig

    /** The constructor runs `setDefaults`: its `setValue` calls store the
        default table, and the parse of it gives the default settings (the
        parses after each earlier `setValue` are all overwritten by the
        last). */
    constructor ()
      ensures config == Defaults
      ensures database == DatabaseConfig("sqlite", "d3server.db", "accounts", "worlds")
      ensures network == NetworkConfig("0.0.0.0", "127.0.0.1", 1119, 1120, 8080, true, "certs/server.crt", "certs/server.key")
      ensures server == ServerConfig("D3Server", 1000, 10, 10, "enUS", "Welcome to D3Server!", false, "INFO", "logs/d3server.log")
    {
      config := Defaults;
      database := DatabaseConfig([], [], [], []);
      network := NetworkConfig([], [], 0, 0, 0, false, [], []);
      server := ServerConfig([], 0, 0, 0, [], [], false, [], []);
      new;
      var ok := ParseConfig();
      DefaultsParse(DatabaseConfig([], [], [], []), NetworkConfig([], [], 0, 0, 0, false, [], []),
                    ServerConfig([], 0, 0, 0, [], [], false, [], []));
    }

    /** `parseConfig`, step by step; `ok` is false where a `std::stoi`
        throws, with the fields before it assigned. */
    method ParseConfig() returns (ok: bool)
      modifies this
      ensures var p := ParseSpec(old(config), old(database), old(network), old(server));
        database == p.db && network == p.net && server == p.srv && ok == p.ok
      ensures config == old(config)
    {
      var cfg, net0, srv0 := config, network, server;
      ghost var p := ParseSpec(cfg, database, net0, srv0);
      database := ParseDatabase(cfg);
      var net, netOk := ParseNetworkFields(cfg, net0);
      network := net;
      if !netOk {
        assert p == Parsed(ParseDatabase(cfg), net, srv0, false);
        return false;
      }
      var srv, srvOk := ParseServerFields(cfg, srv0);
      server := srv;
      assert p == Parsed(ParseDatabase(cfg), net, srv, srvOk);
      return srvOk;
    }

    /** `setValue`: stores the value and re-parses; `ok` is false where the
        parse throws. */
    method SetValue(section: string, key: string, value: string) returns (ok: bool)
      modifies this
      ensures config == SetEntry(old(config), section, key, value)
      ensures var p := ParseSpec(config, old(database), old(network), old(server));
        database == p.db && network == p.net && server == p.srv && ok == p.ok
    {
      config := SetEntry(config, section, key, value);
      ok := ParseConfig();
    }

    /** The lines `saveToFile` writes for one non-empty section: its header,
        its pairs in the iteration order, and a blank line. */
    static method WriteSection(name: string, m: map<string, string>, keys: seq<string>) returns (lines: seq<string>)
      requires forall k :: k in keys ==> k in m
      ensures lines == RenderSection(name, m, keys)
    {
      lines := [HeaderLine(name)];
      var j := 0;
      while j < |keys|
        invariant 0 <= j <= |keys|
        invariant lines == [HeaderLine(name)] + RenderPairs(m, keys[..j])
      {
        RenderPairsSnoc(m, keys, j);
        lines := lines + [KeyLine(keys[j], m[keys[j]])];
        j := j + 1;
      }
      assert keys[..j] == keys;
      lines := lines + [""];
    }

    /** `saveToFile`: nothing when the file cannot be opened; otherwise the
        header, then each non-empty section in the iteration order, its
        pairs in their iteration order, and a blank line after each; every
        line is ended by `std::endl`. */
    method SaveToFile(opens: bool, timeString: string, order: seq<string>, keyOrder: map<string, seq<string>>)
      returns (ok: bool, text: string)
      requires Walkable(config, order, keyOrder)
      ensures ok == opens
      ensures text == if opens then FileText(RenderFile(timeString, config, order, keyOrder)) else []
    {
      if !opens {
        return false, [];
      }
      var cfg := config;
      var head := Header(timeString);
      var lines := head;
      var i := 0;
      WalkablePrefix(cfg, order, keyOrder, 0);
      while i < |order|
        invariant 0 <= i <= |order|
        invariant Walkable(cfg, order[..i], keyOrder)
        invariant lines == head + RenderSections(cfg, order[..i], keyOrder)
      {
        var name := order[i];
        assert Listed(cfg, name, keyOrder);
        if cfg[name] != map[] {
          RenderSectionsAdd(cfg, order, keyOrder, i);
          var section := WriteSection(name, cfg[name], keyOrder[name]);
          StringUtils.ConcatAssoc(head, RenderSections(cfg, order[..i], keyOrder), section);
          lines := lines + section;
        } else {
          RenderSectionsSkip(cfg, order, keyOrder, i);
        }
        i := i + 1;
      }
      assert order[..i] == order;
      text := FileText(lines);
      ok := true;
    }

    /** `loadFromFile`: false when the file is missing or cannot be opened,
        changing nothing; otherwise the text is read line by line with
        `getline`, every line is applied, starting in section "", and the
        result is parsed; false when the parse throws. */
    method LoadFromFile(fileExists: bool, contents: Option<string>) returns (ok: bool)
      modifies this
      ensures !fileExists || contents.None? ==>
        !ok && config == old(config) && database == old(database) &&
        network == old(network) && server == old(server)
      ensures fileExists && contents.Some? ==>
        config == ParseLines(LoadState(old(config), []), StringUtils.SplitSpec(contents.value, '\n')).cfg &&
        var p := ParseSpec(config, old(database), old(network), old(server));
        database == p.db && network == p.net && server == p.srv && ok == p.ok
    {
      if !fileExists {
        return false;
      }
      if contents.None? {
        return false;
      }
      var file := StringUtils.Split(contents.value, '\n');
      var currentSection: string := [];
      var i := 0;
      while i < |file|
        invariant 0 <= i <= |file|
        invariant ParseLines(LoadState(old(config), []), file) ==
          ParseLines(LoadState(config, currentSection), file[i..])
        invariant database == old(database) && network == old(network) && server == old(server)
      {
        assert file[i..][1..] == file[i + 1..];
        config, currentSection := ReadLine(config, currentSection, file[i]);
        i := i + 1;
      }
      ok := ParseConfig();
    }
  }
}
