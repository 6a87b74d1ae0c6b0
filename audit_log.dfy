/**
 * AuditLog: the in-memory audit trail. Entries are kept in insertion order
 * in a buffer bounded by `maxEntries`; recording is gated by the enabled and
 * initialised flags. Timestamps, the CSV file and the callback are left out.
 */
module AuditLog {
  import Stoi

  datatype AuditActionType =
    | Authentication | AccountManagement | CharacterManagement | GameSession
    | Configuration | AdminAction | Security | Database | Network | Custom

  datatype AuditResult = Success | Failure | Warning | Unauthorized

  function ActionTypeToString(t: AuditActionType): string
  {
    match t
    case Authentication => "AUTHENTICATION"
    case AccountManagement => "ACCOUNT_MANAGEMENT"
    case CharacterManagement => "CHARACTER_MANAGEMENT"
    case GameSession => "GAME_SESSION"
    case Configuration => "CONFIGURATION"
    case AdminAction => "ADMIN_ACTION"
    case Security => "SECURITY"
    case Database => "DATABASE"
    case Network => "NETWORK"
    case Custom => "CUSTOM"
  }

  function ResultToString(r: AuditResult): string
  {
    match r
    case Success => "SUCCESS"
    case Failure => "FAILURE"
    case Warning => "WARNING"
    case Unauthorized => "UNAUTHORIZED"
  }

  /** Distinct action types have distinct names, none of them "UNKNOWN". */
  lemma ActionTypeNamesDistinct(a: AuditActionType, b: AuditActionType)
    ensures ActionTypeToString(a) == ActionTypeToString(b) <==> a == b
    ensures ActionTypeToString(a) != "UNKNOWN"
  {
  }

  /** Distinct results have distinct names, none of them "UNKNOWN". */
  lemma ResultNamesDistinct(a: AuditResult, b: AuditResult)
    ensures ResultToString(a) == ResultToString(b) <==> a == b
    ensures ResultToString(a) != "UNKNOWN"
  {
  }

  datatype AuditEntry = AuditEntry(
    userId: string,
    ipAddress: string,
    actionType: AuditActionType,
    actionDescription: string,
    result: AuditResult,
    details: string,
    sourceLocation: string)

  /** The buffer update: when it holds `cap` or more entries the oldest is
      erased, then the new entry is appended. */
  function Append(entries: seq<AuditEntry>, cap: nat, e: AuditEntry): seq<AuditEntry>
    requires cap >= 1
  {
    if |entries| >= cap then entries[1..] + [e] else entries + [e]
  }

  /** The new entry is last, the rest is the old buffer with at most its
      oldest entry dropped, and the size stays within max(old size, cap). */
  lemma AppendKeepsOrderAndBound(entries: seq<AuditEntry>, cap: nat, e: AuditEntry)
    requires cap >= 1
    ensures var r := Append(entries, cap, e);
      |r| >= 1 && r[|r| - 1] == e &&
      r == (entries + [e])[|entries| + 1 - |r|..] &&
      |r| == (if |entries| >= cap then |entries| else |entries| + 1) &&
      (|entries| <= cap ==> |r| <= cap)
  {
    var r := Append(entries, cap, e);
    if |entries| >= cap {
      assert r == entries[1..] + [e];
      assert |r| == |entries|;
      assert (entries + [e])[1..] == entries[1..] + [e];
    } else {
      assert r == entries + [e];
      assert |r| == |entries| + 1;
      assert (entries + [e])[0..] == entries + [e];
    }
  }

  /** The entries of `s` satisfying `p`, in order. */
  function FilterSeq(s: seq<AuditEntry>, p: AuditEntry -> bool): (r: seq<AuditEntry>)
    ensures |r| <= |s|
    ensures forall x :: x in r ==> x in s && p(x)
    ensures forall x :: x in s && p(x) ==> x in r
  {
    if s == [] then [] else
      var rest := FilterSeq(s[1..], p);
      if p(s[0]) then [s[0]] + rest else rest
  }

  lemma FilterSnoc(s: seq<AuditEntry>, p: AuditEntry -> bool, x: AuditEntry)
    ensures FilterSeq(s + [x], p) == FilterSeq(s, p) + (if p(x) then [x] else [])
  {
    if s == [] {
      assert [x][1..] == [];
    } else {
      assert (s + [x])[1..] == s[1..] + [x];
      FilterSnoc(s[1..], p, x);
    }
  }

  /** `path(file).filename()`: the text after the last '/' (all of it when
      there is none). */
  function Filename(path: string): (f: string)
    ensures '/' !in f && |f| <= |path|
  {
    if path == [] then []
    else if path[|path| - 1] == '/' then []
    else Filename(path[..|path| - 1]) + [path[|path| - 1]]
  }

  /** The file name is the part of the path after its last '/'. */
  lemma {:induction false} FilenameIsLastComponent(path: string)
    ensures var f := Filename(path);
      f == path[|path| - |f|..] && (|f| < |path| ==> path[|path| - |f| - 1] == '/')
  {
    if path != [] && path[|path| - 1] != '/' {
      var front := path[..|path| - 1];
      FilenameIsLastComponent(front);
      var g := Filename(front);
      assert path[|path| - |g| - 1..] == front[|front| - |g|..] + [path[|path| - 1]];
    }
  }

  /** "file:line function", with the file reduced to its name. */
  function SourceLocation(file: string, line: int, functionName: string): string
  {
    Filename(file) + ":" + Stoi.IntToString(line) + " " + functionName
  }

  function BoolText(b: bool): string
  {
    if b then "true" else "false"
  }

  class Log {
    var entries: seq<AuditEntry>
    var maxEntries: nat
    var enabled: bool
    var initialized: bool
    var logFilePath: string
    /** The value of `__FILE__` in the build, used by the log's own entries. */
    const sourceFile: string

    predicate Valid()
      reads this
    {
      maxEntries >= 1
    }

    constructor (sourceFile: string)
      ensures Valid()
      ensures entries == [] && maxEntries == 1000 && !enabled && !initialized
      ensures this.sourceFile == sourceFile
    {
      entries := [];
      maxEntries := 1000;
      enabled := false;
      initialized := false;
      logFilePath := [];
      this.sourceFile := sourceFile;
    }

    function IsEnabled(): (r: bool)
      reads this
      ensures r <==> enabled && initialized
    {
      enabled && initialized
    }

    function SystemEntry(description: string, details: string, line: nat, functionName: string): AuditEntry
      reads this
    {
      AuditEntry("SYSTEM", "127.0.0.1", Configuration, description, Success, details,
                 sourceFile + ":" + Stoi.NatToString(line) + " " + functionName)
    }

    function InitEntry(maxEntries: nat, enabled: bool): AuditEntry
      reads this
    {
      SystemEntry("Audit Log Initialized",
                  "Max entries: " + Stoi.NatToString(maxEntries) + ", Enabled: " + BoolText(enabled),
                  103, "init")
    }

    /** `init`: stores path, cap and flag; when the log file cannot be
        prepared (`fileOpens` false) it fails there, otherwise the log is
        initialised and records one "Audit Log Initialized" entry. */
    method Init(logFilePath: string, maxEntries: nat, enabled: bool, fileOpens: bool) returns (ok: bool)
      requires maxEntries >= 1
      modifies this
      ensures Valid()
      ensures this.logFilePath == logFilePath && this.maxEntries == maxEntries && this.enabled == enabled
      ensures ok == fileOpens
      ensures !ok ==> entries == old(entries) && initialized == old(initialized)
      ensures ok ==> initialized && entries == Append(old(entries), maxEntries, InitEntry(maxEntries, enabled))
    {
      this.logFilePath := logFilePath;
      this.maxEntries := maxEntries;
      this.enabled := enabled;
      if !fileOpens {
        return false;
      }
      initialized := true;
      var initEntry := InitEntry(maxEntries, enabled);
      if |entries| >= this.maxEntries {
        entries := entries[1..];
      }
      entries := entries + [initEntry];
      return true;
    }

    /** `logAction`: nothing while disabled or uninitialised; otherwise one
        entry under the eviction rule, its location "file:line function"
        with the file reduced to its name. */
    method LogAction(userId: string, ipAddress: string, actionType: AuditActionType,
                     actionDescription: string, result: AuditResult, details: string,
                     file: string, line: int, functionName: string)
      requires Valid()
      modifies this
      ensures Valid()
      ensures !old(IsEnabled()) ==> entries == old(entries)
      ensures old(IsEnabled()) ==> entries == Append(old(entries), maxEntries,
        AuditEntry(userId, ipAddress, actionType, actionDescription, result, details,
                   SourceLocation(file, line, functionName)))
      ensures maxEntries == old(maxEntries) && enabled == old(enabled) && initialized == old(initialized)
    {
      if !enabled || !initialized {
        return;
      }
      var entry := AuditEntry(userId, ipAddress, actionType, actionDescription, result, details,
                              SourceLocation(file, line, functionName));
      if |entries| >= maxEntries {
        entries := entries[1..];
      }
      entries := entries + [entry];
    }

    /** `getRecentEntries(count)`: the last min(count, size) entries in
        order; nothing while disabled or uninitialised. */
    method GetRecentEntries(count: nat) returns (r: seq<AuditEntry>)
      ensures !IsEnabled() ==> r == []
      ensures IsEnabled() ==>
        |r| == (if count < |entries| then count else |entries|) &&
        r == entries[|entries| - |r|..]
    {
      if !enabled || !initialized {
        return [];
      }
      if count >= |entries| {
        return entries;
      }
      r := entries[|entries| - count..];
    }

    /** `getEntriesByFilter(filter)`: the entries satisfying `filter`, in
        buffer order; nothing while disabled or uninitialised. */
    method GetEntriesByFilter(filter: AuditEntry -> bool) returns (r: seq<AuditEntry>)
      ensures !IsEnabled() ==> r == []
      ensures IsEnabled() ==> r == FilterSeq(entries, filter)
    {
      if !enabled || !initialized {
        return [];
      }
      r := [];
      var i := 0;
      while i < |entries|
        invariant 0 <= i <= |entries|
        invariant r == FilterSeq(entries[..i], filter)
      {
        FilterSnoc(entries[..i], filter, entries[i]);
        assert entries[..i + 1] == entries[..i] + [entries[i]];
        if filter(entries[i]) {
          r := r + [entries[i]];
        }
        i := i + 1;
      }
      assert entries[..i] == entries;
    }

    /** `setEnabled`: an unchanged value does nothing; enabling an
        initialised log records one "Audit Log Status Changed" entry;
        disabling records none. */
    method SetEnabled(enabled: bool)
      requires Valid()
      modifies this
      ensures Valid()
      ensures this.enabled == enabled
      ensures entries == if old(this.enabled) != enabled && initialized && enabled
        then Append(old(entries), maxEntries, SystemEntry("Audit Log Status Changed", "Enabled: true", 302, "setEnabled"))
        else old(entries)
      ensures maxEntries == old(maxEntries) && initialized == old(initialized)
    {
      if this.enabled != enabled {
        this.enabled := enabled;
        if initialized {
          var entry := SystemEntry("Audit Log Status Changed", "Enabled: " + BoolText(enabled), 302, "setEnabled");
          if enabled {
            assert entry == SystemEntry("Audit Log Status Changed", "Enabled: true", 302, "setEnabled");
            if |entries| >= maxEntries {
              entries := entries[1..];
            }
            entries := entries + [entry];
          }
        }
      }
    }

    /** `shutdown`: an initialised log drops its buffer and becomes
        uninitialised. */
    method Shutdown()
      modifies this
      ensures old(initialized) ==> entries == [] && !initialized
      ensures !old(initialized) ==> entries == old(entries) && !initialized
      ensures enabled == old(enabled) && maxEntries == old(maxEntries)
    {
      if initialized {
        entries := [];
        initialized := false;
      }
    }
  }
}
