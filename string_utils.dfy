/**
 * StringUtils: the string helpers of the utilities library.
 * Strings are sequences of characters; character classification follows
 * the C locale (`isspace`, `tolower`, `toupper` on ASCII).
 */
module StringUtils {
  import opened Wrappers

  /** `isspace` in the C locale: space, \t, \n, \v, \f, \r. */
  predicate IsSpace(c: char)
  {
    c == ' ' || c == '\t' || c == '\n' || c == '\U{000B}' || c == '\U{000C}' || c == '\r'
  }

  predicate IsUpper(c: char) { 'A' <= c <= 'Z' }
  predicate IsLower(c: char) { 'a' <= c <= 'z' }
  predicate IsAlpha(c: char) { IsUpper(c) || IsLower(c) }
  predicate IsDigit(c: char) { '0' <= c <= '9' }
  predicate IsAlnum(c: char) { IsAlpha(c) || IsDigit(c) }

  // ---------------------------------------------------------------------
  // trimLeft / trimRight / trim
  // ---------------------------------------------------------------------

  /** The suffix of `s` that starts at its first non-whitespace character. */
  function TrimLeft(s: string): (r: string)
    ensures |r| <= |s| && r == s[|s| - |r|..]
    ensures forall i :: 0 <= i < |s| - |r| ==> IsSpace(s[i])
    ensures r == [] || !IsSpace(r[0])
  {
    if s == [] then []
    else if IsSpace(s[0]) then TrimLeft(s[1..])
    else s
  }

  /** The prefix of `s` that ends at its last non-whitespace character. */
  function TrimRight(s: string): (r: string)
    ensures |r| <= |s| && r == s[..|r|]
    ensures forall i :: |r| <= i < |s| ==> IsSpace(s[i])
    ensures r == [] || !IsSpace(r[|r| - 1])
  {
    if s == [] then []
    else if IsSpace(s[|s| - 1]) then TrimRight(s[..|s| - 1])
    else s
  }

  predicate Trimmed(s: string)
  {
    s == [] || (!IsSpace(s[0]) && !IsSpace(s[|s| - 1]))
  }

  /** `trim` is `trimRight(trimLeft(s))`. */
  function Trim(s: string): (r: string)
  {
    TrimRight(TrimLeft(s))
  }

  /** The result of `trim` is the piece of the input between the leading
      and the trailing whitespace, and has no whitespace at either end. */
  lemma {:induction false} TrimProperties(s: string)
    ensures Trimmed(Trim(s))
    ensures |s| - |TrimLeft(s)| + |Trim(s)| <= |s|
    ensures Trim(s) == s[|s| - |TrimLeft(s)|..|s| - |TrimLeft(s)| + |Trim(s)|]
    ensures forall i :: 0 <= i < |s| - |TrimLeft(s)| ==> IsSpace(s[i])
    ensures forall i :: |s| - |TrimLeft(s)| + |Trim(s)| <= i < |s| ==> IsSpace(s[i])
  {
    var l := TrimLeft(s);
    TrimRightOfTrimmedLeft(l);
    TrimPieces(s, l, TrimRight(l));
  }

  /** Trimming the right of a left-trimmed string leaves both ends clean. */
  lemma TrimRightOfTrimmedLeft(l: string)
    requires l == [] || !IsSpace(l[0])
    ensures Trimmed(TrimRight(l))
  {
    var r := TrimRight(l);
    if r != [] {
      assert r[0] == l[0];
    }
  }

  /** A prefix `r` of a suffix `l` of `s`, followed in `l` by whitespace
      only, is a slice of `s` followed by whitespace only. */
  lemma TrimPieces(s: string, l: string, r: string)
    requires |l| <= |s| && l == s[|s| - |l|..]
    requires |r| <= |l| && r == l[..|r|]
    requires forall i :: |r| <= i < |l| ==> IsSpace(l[i])
    ensures var lo := |s| - |l|; r == s[lo..lo + |r|]
    ensures forall i :: |s| - |l| + |r| <= i < |s| ==> IsSpace(s[i])
  {
    var lo := |s| - |l|;
    forall i | lo + |r| <= i < |s|
      ensures IsSpace(s[i])
    {
      assert s[i] == l[i - lo];
    }
  }

  /** A string without surrounding whitespace is its own trim. */
  lemma TrimOfTrimmed(s: string)
    requires Trimmed(s)
    ensures Trim(s) == s
  {
  }

  /** `trim` is idempotent. */
  lemma TrimIdempotent(s: string)
    ensures Trim(Trim(s)) == Trim(s)
  {
    TrimProperties(s);
    TrimOfTrimmed(Trim(s));
  }

  /** A string made only of whitespace trims to "". */
  lemma TrimAllSpace(s: string)
    requires forall i :: 0 <= i < |s| ==> IsSpace(s[i])
    ensures TrimLeft(s) == [] && TrimRight(s) == [] && Trim(s) == []
  {
  }

  // ---------------------------------------------------------------------
  // Searching
  // ---------------------------------------------------------------------

  /** Index of the first `c` in `s`, or |s| when there is none. */
  function IndexOfChar(s: string, c: char): (r: nat)
    ensures r <= |s|
    ensures forall k :: 0 <= k < r ==> s[k] != c
    ensures r < |s| ==> s[r] == c
  {
    if s == [] then 0
    else if s[0] == c then 0
    else 1 + IndexOfChar(s[1..], c)
  }

  /** IndexOfChar is the only index with those properties. */
  lemma IndexOfCharUnique(s: string, c: char, j: nat)
    requires j <= |s|
    requires forall k :: 0 <= k < j ==> s[k] != c
    requires j < |s| ==> s[j] == c
    ensures IndexOfChar(s, c) == j
  {
  }

  lemma ConcatAssoc<T>(a: seq<T>, b: seq<T>, c: seq<T>)
    ensures a + (b + c) == (a + b) + c
  {
  }

  /** Splitting a sequence at a point. */
  lemma SliceConcat<T>(a: seq<T>, b: seq<T>, i: nat)
    requires i <= |b|
    ensures (a + b)[..|a| + i] == a + b[..i]
    ensures (a + b)[|a| + i..] == b[i..]
  {
  }

  predicate OccursAt(t: string, pat: string, i: nat)
  {
    i + |pat| <= |t| && t[i..i + |pat|] == pat
  }

  /** `std::string::find`: the first index at which `pat` occurs in `t`. */
  function Find(t: string, pat: string): (r: Option<nat>)
    ensures r.Some? ==> OccursAt(t, pat, r.value)
    ensures r.Some? ==> forall k :: 0 <= k < r.value ==> !OccursAt(t, pat, k)
    ensures r.None? ==> forall k :: 0 <= k <= |t| ==> !OccursAt(t, pat, k)
    decreases |t|
  {
    if |pat| <= |t| && t[..|pat|] == pat then
      assert OccursAt(t, pat, 0);
      Some(0)
    else if t == [] then
      None
    else
      match Find(t[1..], pat)
      case None =>
        assert forall k :: 1 <= k <= |t| ==> (OccursAt(t, pat, k) <==> OccursAt(t[1..], pat, k - 1));
        None
      case Some(i) =>
        assert forall k :: 1 <= k <= |t| ==> (OccursAt(t, pat, k) <==> OccursAt(t[1..], pat, k - 1));
        Some(i + 1)
  }

  // ---------------------------------------------------------------------
  // split
  // ---------------------------------------------------------------------

  /**
   * The tokens `std::getline(stream, token, d)` yields on `s`: each call
   * reads up to the next `d` (consumed) or the end; a call at the end of
   * the input yields nothing, so a trailing `d` adds no empty token.
   */
  function SplitSpec(s: string, d: char): (r: seq<string>)
    decreases |s|
  {
    if s == [] then []
    else
      var i := IndexOfChar(s, d);
      if i == |s| then [s] else [s[..i]] + SplitSpec(s[i + 1..], d)
  }

  /** No token contains the delimiter. */
  lemma {:induction false} SplitTokensHaveNoDelimiter(s: string, d: char)
    ensures forall t, k :: t in SplitSpec(s, d) && 0 <= k < |t| ==> t[k] != d
    decreases |s|
  {
    if s != [] {
      var i := IndexOfChar(s, d);
      if i < |s| {
        SplitTokensHaveNoDelimiter(s[i + 1..], d);
      }
    }
  }

  /** A leading delimiter yields an empty first token. */
  lemma SplitLeadingDelimiter(s: string, d: char)
    ensures SplitSpec([d] + s, d) == [[]] + SplitSpec(s, d)
  {
    assert ([d] + s)[1..] == s;
  }

  /** The empty token a trailing `d` adds: one, when `s` is empty or ends
      with `d` itself; none otherwise. */
  function TrailingToken(s: string, d: char): seq<string>
  {
    if s == [] || s[|s| - 1] == d then [[]] else []
  }

  /** A trailing delimiter adds no empty token of its own: appending `d`
      adds an empty token only after "" or after another delimiter. */
  lemma {:induction false} SplitTrailingDelimiter(s: string, d: char)
    ensures SplitSpec(s + [d], d) == SplitSpec(s, d) + TrailingToken(s, d)
    decreases |s|
  {
    var t := s + [d];
    if s == [] {
      assert t[1..] == [];
    } else {
      var i := IndexOfChar(s, d);
      if i == |s| {
        IndexOfCharUnique(t, d, |s|);
        SplitAt(t, d, |s|);
        assert t[..|s|] == s && t[|s| + 1..] == [];
      } else {
        var rest := s[i + 1..];
        IndexOfCharUnique(t, d, i);
        SplitAt(t, d, i);
        SplitAt(s, d, i);
        assert t[..i] == s[..i] && t[i + 1..] == rest + [d];
        SplitTrailingDelimiter(rest, d);
        TrailingTokenOfSuffix(s, d, i + 1);
        ConcatAssoc([s[..i]], SplitSpec(rest, d), TrailingToken(s, d));
      }
    }
  }

  /** A suffix that starts right after a `d` ends like the whole. */
  lemma TrailingTokenOfSuffix(s: string, d: char, j: nat)
    requires 0 < j <= |s| && s[j - 1] == d
    ensures TrailingToken(s[j..], d) == TrailingToken(s, d)
  {
    if j < |s| {
      assert s[j..][|s| - j - 1] == s[|s| - 1];
    }
  }

  /** Splitting at the first delimiter. */
  lemma SplitAt(t: string, d: char, i: nat)
    requires i < |t| && IndexOfChar(t, d) == i
    ensures SplitSpec(t, d) == [t[..i]] + SplitSpec(t[i + 1..], d)
  {
  }

  /** One `getline` call: the token runs from `pos` to the next delimiter
      (at `j`) or to the end. */
  lemma SplitStep(s: string, d: char, pos: nat, j: nat)
    requires pos < |s| && pos <= j <= |s|
    requires forall k :: pos <= k < j ==> s[k] != d
    requires j < |s| ==> s[j] == d
    ensures SplitSpec(s[pos..], d) ==
      [s[pos..j]] + SplitSpec(s[if j < |s| then j + 1 else j..], d)
  {
    var rest := s[pos..];
    IndexOfCharUnique(rest, d, j - pos);
    assert rest != [];
    assert rest[..j - pos] == s[pos..j];
    if j < |s| {
      assert rest[j - pos + 1..] == s[j + 1..];
      assert SplitSpec(rest, d) == [rest[..j - pos]] + SplitSpec(rest[j - pos + 1..], d);
    } else {
      assert j - pos == |rest| && s[pos..j] == rest;
      assert SplitSpec(rest, d) == [rest];
      assert [rest] + [] == [rest];
    }
  }

  /** `split`: one `getline` per iteration, pushing each token. */
  method Split(s: string, d: char) returns (tokens: seq<string>)
    ensures tokens == SplitSpec(s, d)
  {
    tokens := [];
    var pos := 0;
    while pos < |s|
      invariant 0 <= pos <= |s|
      invariant tokens + SplitSpec(s[pos..], d) == SplitSpec(s, d)
      decreases |s| - pos
    {
      var j := NextDelimiter(s, d, pos);
      SplitStep(s, d, pos, j);
      var next := if j < |s| then j + 1 else j;
      ConcatAssoc(tokens, [s[pos..j]], SplitSpec(s[next..], d));
      tokens := tokens + [s[pos..j]];
      pos := next;
    }
  }

  /** The scan of one `getline` call: the first `d` at or after `pos`, or
      the end. */
  method NextDelimiter(s: string, d: char, pos: nat) returns (j: nat)
    requires pos <= |s|
    ensures pos <= j <= |s|
    ensures forall k :: pos <= k < j ==> s[k] != d
    ensures j < |s| ==> s[j] == d
  {
    j := pos;
    while j < |s| && s[j] != d
      invariant pos <= j <= |s|
      invariant forall k :: pos <= k < j ==> s[k] != d
    {
      j := j + 1;
    }
  }

  // ---------------------------------------------------------------------
  // join
  // ---------------------------------------------------------------------

  /** The elements of `xs` with `delim` between consecutive ones. */
  function JoinSpec(xs: seq<string>, delim: string): string
  {
    if |xs| == 0 then []
    else if |xs| == 1 then xs[0]
    else JoinSpec(xs[..|xs| - 1], delim) + delim + xs[|xs| - 1]
  }

  /** Unfolding `join` from the front. */
  lemma {:induction false} JoinCons(x: string, xs: seq<string>, delim: string)
    requires xs != []
    ensures JoinSpec([x] + xs, delim) == x + delim + JoinSpec(xs, delim)
    decreases |xs|
  {
    var ys := [x] + xs;
    if |xs| == 1 {
      assert ys[..1] == [x];
    } else {
      assert ys[..|ys| - 1] == [x] + xs[..|xs| - 1];
      JoinCons(x, xs[..|xs| - 1], delim);
    }
  }

  /** The length of a join: all elements plus one delimiter per gap. */
  lemma {:induction false} JoinLength(xs: seq<string>, delim: string, total: nat)
    requires xs != []
    requires total == SumOfLengths(xs)
    ensures |JoinSpec(xs, delim)| == total + (|xs| - 1) * |delim|
    decreases |xs|
  {
    if |xs| > 1 {
      SumOfLengthsSnoc(xs[..|xs| - 1], xs[|xs| - 1]);
      assert xs[..|xs| - 1] + [xs[|xs| - 1]] == xs;
      JoinLength(xs[..|xs| - 1], delim, SumOfLengths(xs[..|xs| - 1]));
    }
  }

  function SumOfLengths(xs: seq<string>): nat
  {
    if xs == [] then 0 else |xs[0]| + SumOfLengths(xs[1..])
  }

  lemma {:induction false} SumOfLengthsSnoc(xs: seq<string>, x: string)
    ensures SumOfLengths(xs + [x]) == SumOfLengths(xs) + |x|
    decreases |xs|
  {
    if xs != [] {
      assert (xs + [x])[1..] == xs[1..] + [x];
      SumOfLengthsSnoc(xs[1..], x);
    }
  }

  method Join(xs: seq<string>, delim: string) returns (r: string)
    ensures r == JoinSpec(xs, delim)
  {
    r := [];
    var i := 0;
    while i < |xs|
      invariant 0 <= i <= |xs|
      invariant r == JoinSpec(xs[..i], delim)
    {
      if i > 0 {
        r := r + delim;
      }
      r := r + xs[i];
      assert xs[..i + 1][..i] == xs[..i];
      i := i + 1;
    }
    assert xs[..|xs|] == xs;
  }

  /** Joining the tokens of `split` with the delimiter gives the input back,
      unless the input is empty or ends with the delimiter. */
  lemma {:induction false} JoinSplit(s: string, d: char)
    requires s != [] && s[|s| - 1] != d
    ensures JoinSpec(SplitSpec(s, d), [d]) == s
    decreases |s|
  {
    var i := IndexOfChar(s, d);
    if i < |s| {
      var rest := s[i + 1..];
      assert rest != [] && rest[|rest| - 1] == s[|s| - 1];
      SplitAt(s, d, i);
      JoinSplit(rest, d);
      assert SplitSpec(rest, d) != [];
      JoinCons(s[..i], SplitSpec(rest, d), [d]);
      assert s == s[..i] + [d] + rest;
    } else {
      assert SplitSpec(s, d) == [s];
    }
  }

  // ---------------------------------------------------------------------
  // toLower / toUpper
  // ---------------------------------------------------------------------

  function LowerChar(c: char): char
  {
    if IsUpper(c) then (c as int + 32) as char else c
  }

  function UpperChar(c: char): char
  {
    if IsLower(c) then (c as int - 32) as char else c
  }

  /** `toLower`: transforms a copy character by character. */
  method ToLower(s: string) returns (r: string)
    ensures |r| == |s|
    ensures forall i :: 0 <= i < |s| ==>
      (IsUpper(s[i]) ==> IsLower(r[i]) && r[i] as int == s[i] as int + 32) &&
      (!IsUpper(s[i]) ==> r[i] == s[i])
  {
    r := [];
    var i := 0;
    while i < |s|
      invariant 0 <= i <= |s|
      invariant |r| == i
      invariant forall k :: 0 <= k < i ==> r[k] == LowerChar(s[k])
    {
      r := r + [LowerChar(s[i])];
      i := i + 1;
    }
  }

  /** `toUpper`: transforms a copy character by character. */
  method ToUpper(s: string) returns (r: string)
    ensures |r| == |s|
    ensures forall i :: 0 <= i < |s| ==>
      (IsLower(s[i]) ==> IsUpper(r[i]) && r[i] as int == s[i] as int - 32) &&
      (!IsLower(s[i]) ==> r[i] == s[i])
  {
    r := [];
    var i := 0;
    while i < |s|
      invariant 0 <= i <= |s|
      invariant |r| == i
      invariant forall k :: 0 <= k < i ==> r[k] == UpperChar(s[k])
    {
      r := r + [UpperChar(s[i])];
      i := i + 1;
    }
  }

  /** Lowering then raising a letter gives the upper-case letter back. */
  lemma CaseRoundTrip(c: char)
    ensures IsUpper(c) ==> UpperChar(LowerChar(c)) == c
    ensures IsLower(c) ==> LowerChar(UpperChar(c)) == c
    ensures !IsAlpha(c) ==> LowerChar(c) == c && UpperChar(c) == c
  {
  }

  // ---------------------------------------------------------------------
  // startsWith / endsWith
  // ---------------------------------------------------------------------

  function StartsWith(s: string, prefix: string): bool
  {
    if |s| < |prefix| then false else s[..|prefix|] == prefix
  }

  function EndsWith(s: string, suffix: string): bool
  {
    if |s| < |suffix| then false else s[|s| - |suffix|..] == suffix
  }

  /** `startsWith` holds exactly when the affix is a prefix. */
  lemma StartsWithIffPrefix(s: string, prefix: string)
    ensures StartsWith(s, prefix) <==> exists t :: s == prefix + t
  {
    if StartsWith(s, prefix) {
      assert s == prefix + s[|prefix|..];
    }
    if exists t :: s == prefix + t {
      var t :| s == prefix + t;
      assert s[..|prefix|] == prefix;
    }
  }

  /** `endsWith` holds exactly when the affix is a suffix. */
  lemma EndsWithIffSuffix(s: string, suffix: string)
    ensures EndsWith(s, suffix) <==> exists t :: s == t + suffix
  {
    if EndsWith(s, suffix) {
      assert s == s[..|s| - |suffix|] + suffix;
    }
    if exists t :: s == t + suffix {
      var t :| s == t + suffix;
      assert s[|t|..] == suffix;
    }
  }

  // ---------------------------------------------------------------------
  // replace
  // ---------------------------------------------------------------------

  /** Every occurrence of `from`, found left to right and never inside text
      already substituted, replaced by `to`. */
  function ReplaceSpec(s: string, from: string, to: string): string
    requires from != []
    decreases |s|
  {
    var found := Find(s, from);
    if found.None? then s
    else s[..found.value] + to + ReplaceSpec(s[found.value + |from|..], from, to)
  }

  /** Text with no occurrence of `from` is returned unchanged. */
  lemma ReplaceNoOccurrence(s: string, from: string, to: string)
    requires from != []
    requires forall k :: 0 <= k <= |s| ==> !OccursAt(s, from, k)
    ensures ReplaceSpec(s, from, to) == s
  {
  }

  /** Replacing `from` by itself changes nothing. */
  lemma {:induction false} ReplaceSelfIdentity(s: string, from: string)
    requires from != []
    ensures ReplaceSpec(s, from, from) == s
    decreases |s|
  {
    match Find(s, from)
    case None =>
    case Some(i) =>
      ReplaceSelfIdentity(s[i + |from|..], from);
      assert s == s[..i] + from + s[i + |from|..];
  }

  /** Inserted text is never rescanned: replacing the single string `from`
      yields exactly `to`, even when `to` itself contains `from`. */
  lemma ReplaceSingle(from: string, to: string)
    requires from != []
    ensures ReplaceSpec(from, from, to) == to
  {
    assert OccursAt(from, from, 0);
    assert from[|from|..] == [];
  }

  /** One iteration of `replace`: the text around the first occurrence. */
  lemma ReplaceStepText(done: string, rest: string, i: nat, from: string, to: string)
    requires i + |from| <= |rest|
    ensures var t := done + rest; var pos := |done| + i;
      pos + |from| <= |t| &&
      t[..pos] + to + t[pos + |from|..] == (done + rest[..i] + to) + rest[i + |from|..]
  {
    SliceConcat(done, rest, i);
    SliceConcat(done, rest, i + |from|);
  }

  /** The specification at the first occurrence. */
  lemma ReplaceUnfold(rest: string, i: nat, from: string, to: string)
    requires from != []
    requires Find(rest, from) == Some(i)
    ensures ReplaceSpec(rest, from, to) == rest[..i] + to + ReplaceSpec(rest[i + |from|..], from, to)
  {
  }

  /** The specification of text without an occurrence. */
  lemma ReplaceNone(rest: string, from: string, to: string)
    requires from != []
    requires Find(rest, from).None?
    ensures ReplaceSpec(rest, from, to) == rest
  {
  }

  lemma ConcatAssoc4<T>(a: seq<T>, b: seq<T>, c: seq<T>, d: seq<T>)
    ensures a + (b + c + d) == (a + b + c) + d
  {
  }

  /** One iteration of `replace`: the specification unfolds at the first
      occurrence. */
  lemma ReplaceStepSpec(done: string, rest: string, i: nat, from: string, to: string)
    requires from != []
    requires Find(rest, from) == Some(i)
    ensures done + ReplaceSpec(rest, from, to) ==
      (done + rest[..i] + to) + ReplaceSpec(rest[i + |from|..], from, to)
  {
    ReplaceUnfold(rest, i, from, to);
    ConcatAssoc4(done, rest[..i], to, ReplaceSpec(rest[i + |from|..], from, to));
  }

  /** `replace`: the loop searches from `startPos` and resumes after the
      inserted text. An empty `from` would be found at the same position
      forever, so it is excluded. */
  method Replace(s: string, from: string, to: string) returns (result: string)
    requires from != []
    ensures result == ReplaceSpec(s, from, to)
  {
    result := s;
    var startPos := 0;
    ghost var done: string := [];
    ghost var rest := s;
    while true
      invariant result == done + rest && startPos == |done|
      invariant done + ReplaceSpec(rest, from, to) == ReplaceSpec(s, from, to)
      decreases |rest|
    {
      SliceConcat(done, rest, 0);
      assert result[startPos..] == rest;
      var found := Find(result[startPos..], from);
      if found.None? {
        ReplaceNone(rest, from, to);
        break;
      }
      var i := found.value;
      var pos := startPos + i;
      ReplaceStepText(done, rest, i, from, to);
      ReplaceStepSpec(done, rest, i, from, to);
      result := result[..pos] + to + result[pos + |from|..];
      done := done + rest[..i] + to;
      rest := rest[i + |from|..];
      startPos := pos + |to|;
    }
  }

  // ---------------------------------------------------------------------
  // toHex
  // ---------------------------------------------------------------------

  function HexDigitChar(v: nat): (c: char)
    requires v < 16
  {
    if v < 10 then ('0' as int + v) as char else ('a' as int + v - 10) as char
  }

  predicate IsLowerHexDigit(c: char)
  {
    IsDigit(c) || 'a' <= c <= 'f'
  }

  function HexDigitValue(c: char): (v: nat)
    requires IsLowerHexDigit(c)
    ensures v < 16 && HexDigitChar(v) == c
  {
    if IsDigit(c) then c as int - '0' as int else c as int - 'a' as int + 10
  }

  /** Lowercase hexadecimal digits of `n`, without leading zeros ("0" for 0). */
  function HexDigits(n: nat): (r: string)
    ensures |r| >= 1
    ensures forall i :: 0 <= i < |r| ==> IsLowerHexDigit(r[i])
    decreases n
  {
    if n < 16 then [HexDigitChar(n)] else HexDigits(n / 16) + [HexDigitChar(n % 16)]
  }

  /** The value a string of lowercase hex digits denotes. */
  function HexValue(s: string): nat
    requires forall i :: 0 <= i < |s| ==> IsLowerHexDigit(s[i])
  {
    if s == [] then 0 else 16 * HexValue(s[..|s| - 1]) + HexDigitValue(s[|s| - 1])
  }

  lemma {:induction false} HexValueOfDigits(n: nat)
    ensures HexValue(HexDigits(n)) == n
    decreases n
  {
    var r := HexDigits(n);
    if n >= 16 {
      HexValueOfDigits(n / 16);
      assert r[..|r| - 1] == HexDigits(n / 16);
    }
  }

  lemma {:induction false} HexValueLeadingZeros(z: nat, s: string)
    requires forall i :: 0 <= i < |s| ==> IsLowerHexDigit(s[i])
    ensures forall i :: 0 <= i < |Zeros(z) + s| ==> IsLowerHexDigit((Zeros(z) + s)[i])
    ensures HexValue(Zeros(z) + s) == HexValue(s)
    decreases |s|
  {
    var t := Zeros(z) + s;
    if s == [] {
      assert t == Zeros(z);
      ZerosValue(z);
    } else {
      assert t[..|t| - 1] == Zeros(z) + s[..|s| - 1];
      HexValueLeadingZeros(z, s[..|s| - 1]);
    }
  }

  function Zeros(n: nat): (r: string)
    ensures |r| == n && forall i :: 0 <= i < n ==> r[i] == '0'
  {
    if n == 0 then [] else Zeros(n - 1) + ['0']
  }

  lemma {:induction false} ZerosValue(n: nat)
    ensures HexValue(Zeros(n)) == 0
  {
    if n > 0 {
      assert Zeros(n)[..n - 1] == Zeros(n - 1);
      ZerosValue(n - 1);
    }
  }

  const INT_MIN: int := -0x8000_0000
  const INT_MAX: int := 0x7fff_ffff

  /**
   * `toHex<T>(value)`: `static_cast<int>(value)` printed by `std::hex`
   * (a negative int prints as its 32-bit two's complement) and left-padded
   * with '0' to `2 * sizeof(T)` characters; nothing is truncated.
   */
  function ToHex(value: int, sizeofT: nat): (r: string)
    requires INT_MIN <= value <= INT_MAX
  {
    var u := if value < 0 then value + 0x1_0000_0000 else value;
    var digits := HexDigits(u);
    (if |digits| < 2 * sizeofT then Zeros(2 * sizeofT - |digits|) else []) + digits
  }

  /** `toHex` pads to at least `2 * sizeof(T)` lowercase hex digits, is exactly
      as long as the wider of that width and the value's own digits, and
      reads back as the value (modulo 2^32 for a negative int). */
  lemma ToHexProperties(value: int, sizeofT: nat)
    requires INT_MIN <= value <= INT_MAX
    ensures var r := ToHex(value, sizeofT);
      var u := if value < 0 then value + 0x1_0000_0000 else value;
      |r| == (if |HexDigits(u)| < 2 * sizeofT then 2 * sizeofT else |HexDigits(u)|) &&
      (forall i :: 0 <= i < |r| ==> IsLowerHexDigit(r[i])) &&
      HexValue(r) == u
  {
    var u := if value < 0 then value + 0x1_0000_0000 else value;
    var digits := HexDigits(u);
    HexValueOfDigits(u);
    var z := if |digits| < 2 * sizeofT then 2 * sizeofT - |digits| else 0;
    assert ToHex(value, sizeofT) == Zeros(z) + digits;
    HexValueLeadingZeros(z, digits);
  }

  lemma {:induction false} HexDigitsLength(n: nat, k: nat)
    requires n < Pow16(k) && k >= 1
    ensures |HexDigits(n)| <= k
    decreases k
  {
    if n >= 16 {
      assert n / 16 < Pow16(k - 1);
      HexDigitsLength(n / 16, k - 1);
    }
  }

  function Pow16(k: nat): (r: nat)
    ensures r >= 1
  {
    if k == 0 then 1 else 16 * Pow16(k - 1)
  }

  /** For a `uint16_t` (service and method ids) the output is exactly four
      hex digits that read back as the value. */
  lemma ToHexUint16(value: int)
    requires 0 <= value < 0x1_0000
    ensures |ToHex(value, 2)| == 4 && HexValue(ToHex(value, 2)) == value
  {
    assert Pow16(4) == 0x1_0000;
    HexDigitsLength(value, 4);
    ToHexProperties(value, 2);
  }
}
