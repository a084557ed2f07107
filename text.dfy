/**
 * Character classes and the small PHP string functions the scene pipeline is
 * built from (strtolower, trim, ltrim, str_replace, basename, pathinfo), on
 * strings modelled as sequences of characters.
 */
module Text {

  datatype Option<+T> = None | Some(value: T)

  // ---------------------------------------------------------------------------
  // Character classes
  // ---------------------------------------------------------------------------

  predicate IsAsciiUpper(c: char) { 'A' <= c <= 'Z' }
  predicate IsAsciiLower(c: char) { 'a' <= c <= 'z' }
  predicate IsDigit(c: char) { '0' <= c <= '9' }

  /** A PCRE word character outside UTF mode: the side test of `\b`. */
  predicate IsWordChar(c: char) { IsAsciiUpper(c) || IsAsciiLower(c) || IsDigit(c) || c == '_' }

  /** The characters PHP's trim() strips when given no character list. */
  predicate IsTrimSpace(c: char) { c == ' ' || c == '\t' || c == '\n' || c == '\r' || c == '\0' || c == '\U{B}' }

  /** PCRE's `\s`; also the characters the `x` flag ignores inside a pattern. */
  predicate IsPcreSpace(c: char) { c == ' ' || c == '\t' || c == '\n' || c == '\U{B}' || c == '\U{C}' || c == '\r' }

  function Lower(c: char): (d: char)
    ensures !IsAsciiUpper(d)
    ensures IsAsciiUpper(c) ==> d as int == c as int + 32
    ensures !IsAsciiUpper(c) ==> d == c
  {
    if IsAsciiUpper(c) then (c as int + 32) as char else c
  }

  function Upper(c: char): (d: char)
    ensures !IsAsciiLower(d)
    ensures IsAsciiLower(c) ==> d as int == c as int - 32
    ensures !IsAsciiLower(c) ==> d == c
  {
    if IsAsciiLower(c) then (c as int - 32) as char else c
  }

  /** PHP strtolower (ASCII only, as in PHP 8.2 and later). */
  function ToLower(s: string): (r: string)
    ensures |r| == |s|
    ensures forall i :: 0 <= i < |s| ==> r[i] == Lower(s[i])
  {
    seq(|s|, i requires 0 <= i < |s| => Lower(s[i]))
  }

  /** PHP strtoupper (ASCII only). */
  function ToUpper(s: string): (r: string)
    ensures |r| == |s|
    ensures forall i :: 0 <= i < |s| ==> r[i] == Upper(s[i])
  {
    seq(|s|, i requires 0 <= i < |s| => Upper(s[i]))
  }

  /** Replaces every occurrence of one character by another (str_replace with one-character arguments). */
  function ReplaceChar(s: string, from: char, to: char): (r: string)
    ensures |r| == |s|
    ensures forall i :: 0 <= i < |s| ==> r[i] == (if s[i] == from then to else s[i])
  {
    seq(|s|, i requires 0 <= i < |s| => if s[i] == from then to else s[i])
  }

  lemma ToLowerIdempotent(s: string)
    ensures ToLower(ToLower(s)) == ToLower(s)
  {
  }

  lemma ToLowerConcat(a: string, b: string)
    ensures ToLower(a + b) == ToLower(a) + ToLower(b)
  {
  }

  // ---------------------------------------------------------------------------
  // Literal search
  // ---------------------------------------------------------------------------

  /** `lit` occurs in `s` at index `i`; with `ci` the comparison ignores ASCII case (the `i` flag). */
  predicate LitAt(s: string, i: int, lit: string, ci: bool)
  {
    0 <= i && i + |lit| <= |s| &&
    (if ci then ToLower(s[i..i + |lit|]) == ToLower(lit) else s[i..i + |lit|] == lit)
  }

  /** Leftmost index at or after `from` where `lit` occurs. */
  function Find(s: string, lit: string, from: nat, ci: bool): (r: Option<nat>)
    ensures r.Some? ==> from <= r.value && LitAt(s, r.value, lit, ci)
    ensures r.Some? ==> forall j :: from <= j < r.value ==> !LitAt(s, j, lit, ci)
    ensures r.None? ==> forall j :: from <= j ==> !LitAt(s, j, lit, ci)
    decreases |s| - from
  {
    if from + |lit| > |s| then None
    else if LitAt(s, from, lit, ci) then Some(from)
    else Find(s, lit, from + 1, ci)
  }

  predicate Contains(s: string, lit: string)
  {
    Find(s, lit, 0, false).Some?
  }

  /** `s` opens with `p`. */
  predicate StartsWith(s: string, p: string) { |p| <= |s| && s[..|p|] == p }

  /** `s` closes with `p`. */
  predicate EndsWith(s: string, p: string) { |p| <= |s| && s[|s| - |p|..] == p }

  /** A text holds every literal written into it. */
  lemma ContainsInfix(a: string, lit: string, b: string)
    ensures Contains(a + lit + b, lit)
  {
    var s := a + lit + b;
    assert s[|a|..|a| + |lit|] == lit;
    assert LitAt(s, |a|, lit, false);
  }

  /** A literal found in a piece of a text is found in the text. */
  lemma ContainsWithin(a: string, m: string, b: string, lit: string)
    requires Contains(m, lit)
    ensures Contains(a + m + b, lit)
  {
    var k := Find(m, lit, 0, false).value;
    var s := a + m + b;
    assert s[|a| + k..|a| + k + |lit|] == m[k..k + |lit|];
    assert LitAt(s, |a| + k, lit, false);
  }

  /** A literal found in the head of a text is found in the text. */
  lemma ContainsLeft(m: string, b: string, lit: string)
    requires Contains(m, lit)
    ensures Contains(m + b, lit)
  {
    ContainsWithin([], m, b, lit);
    assert [] + m + b == m + b;
  }

  /** A literal found in the tail of a text is found in the text. */
  lemma ContainsRight(a: string, m: string, lit: string)
    requires Contains(m, lit)
    ensures Contains(a + m, lit)
  {
    ContainsWithin(a, m, [], lit);
    assert a + m + [] == a + m;
  }

  /** Every text holds itself. */
  lemma ContainsSelf(s: string)
    ensures Contains(s, s)
  {
    assert s[0..|s|] == s;
    assert LitAt(s, 0, s, false);
  }

  /** First index at or after `from` holding `c`. */
  function IndexOf(s: string, c: char, from: nat): (r: Option<nat>)
    ensures r.Some? ==> from <= r.value < |s| && s[r.value] == c
    ensures r.Some? ==> forall j :: from <= j < r.value ==> s[j] != c
    ensures r.None? ==> forall j :: from <= j < |s| ==> s[j] != c
    decreases |s| - from
  {
    if from >= |s| then None
    else if s[from] == c then Some(from)
    else IndexOf(s, c, from + 1)
  }

  /** Last index holding `c`. */
  function LastIndexOf(s: string, c: char): (r: Option<nat>)
    ensures r.Some? ==> r.value < |s| && s[r.value] == c
    ensures r.Some? ==> forall j :: r.value < j < |s| ==> s[j] != c
    ensures r.None? ==> forall j :: 0 <= j < |s| ==> s[j] != c
  {
    if s == [] then None
    else if s[|s| - 1] == c then Some(|s| - 1)
    else LastIndexOf(s[..|s| - 1], c)
  }

  // ---------------------------------------------------------------------------
  // str_replace: every non-overlapping occurrence, scanned left to right
  // ---------------------------------------------------------------------------

  function ReplaceAll(s: string, pat: string, rep: string): string
    decreases |s|
  {
    if pat == [] || |s| < |pat| then s
    else if s[..|pat|] == pat then rep + ReplaceAll(s[|pat|..], pat, rep)
    else [s[0]] + ReplaceAll(s[1..], pat, rep)
  }

  function Join(parts: seq<string>, sep: string): string
  {
    if |parts| == 0 then []
    else if |parts| == 1 then parts[0]
    else parts[0] + sep + Join(parts[1..], sep)
  }

  /** The text between the occurrences of `pat` that str_replace replaces. */
  function Split(s: string, pat: string): (parts: seq<string>)
    requires pat != []
    ensures |parts| >= 1
    decreases |s|
  {
    if |s| < |pat| then [s]
    else if s[..|pat|] == pat then [[]] + Split(s[|pat|..], pat)
    else
      var rest := Split(s[1..], pat);
      [[s[0]] + rest[0]] + rest[1..]
  }

  lemma {:induction false} SplitHeadIsPrefix(s: string, pat: string)
    requires pat != []
    ensures |Split(s, pat)[0]| <= |s| && Split(s, pat)[0] == s[..|Split(s, pat)[0]|]
    decreases |s|
  {
    if |s| < |pat| {
      assert Split(s, pat) == [s];
    } else if s[..|pat|] == pat {
      assert Split(s, pat)[0] == [];
    } else {
      var rest := Split(s[1..], pat);
      assert Split(s, pat)[0] == [s[0]] + rest[0];
      SplitHeadIsPrefix(s[1..], pat);
      var h := rest[0];
      assert h == s[1..][..|h|];
      assert s[1..][..|h|] == s[1..|h| + 1];
      assert [s[0]] + s[1..|h| + 1] == s[..|h| + 1];
    }
  }

  lemma {:induction false} JoinCons(head: string, sep: string, rest: seq<string>)
    requires |rest| >= 1
    ensures Join([head] + rest, sep) == head + sep + Join(rest, sep)
  {
    assert ([head] + rest)[1..] == rest;
  }

  lemma {:induction false} JoinExtendHead(c: char, sep: string, parts: seq<string>)
    requires |parts| >= 1
    ensures Join([[c] + parts[0]] + parts[1..], sep) == [c] + Join(parts, sep)
  {
    if |parts| == 1 {
      assert [[c] + parts[0]] + parts[1..] == [[c] + parts[0]];
    } else {
      JoinCons([c] + parts[0], sep, parts[1..]);
      JoinCons(parts[0], sep, parts[1..]);
      assert [parts[0]] + parts[1..] == parts;
    }
  }

  /**
   * str_replace(pat, rep, s) splits `s` at the occurrences of `pat` into pieces
   * that contain no `pat`, and glues the same pieces back with `rep`.
   */
  lemma ReplaceAllIsJoin(s: string, pat: string, rep: string)
    requires pat != []
    ensures Join(Split(s, pat), pat) == s
    ensures ReplaceAll(s, pat, rep) == Join(Split(s, pat), rep)
    ensures forall i :: 0 <= i < |Split(s, pat)| ==> !Contains(Split(s, pat)[i], pat)
  {
    SplitJoin(s, pat);
    SplitReplace(s, pat, rep);
    SplitPiecesClean(s, pat);
  }

  /** Gluing the pieces back with `pat` gives the text. */
  lemma {:induction false} SplitJoin(s: string, pat: string)
    requires pat != []
    ensures Join(Split(s, pat), pat) == s
    decreases |s|
  {
    if |s| < |pat| {
    } else if s[..|pat|] == pat {
      var tail := s[|pat|..];
      assert Split(s, pat) == [[]] + Split(tail, pat);
      SplitJoin(tail, pat);
      JoinCons([], pat, Split(tail, pat));
      assert s == pat + tail;
    } else {
      var rest := Split(s[1..], pat);
      assert Split(s, pat) == [[s[0]] + rest[0]] + rest[1..];
      SplitJoin(s[1..], pat);
      JoinExtendHead(s[0], pat, rest);
      assert s == [s[0]] + s[1..];
    }
  }

  /** str_replace glues the pieces with `rep`. */
  lemma {:induction false} SplitReplace(s: string, pat: string, rep: string)
    requires pat != []
    ensures ReplaceAll(s, pat, rep) == Join(Split(s, pat), rep)
    decreases |s|
  {
    if |s| < |pat| {
    } else if s[..|pat|] == pat {
      var tail := s[|pat|..];
      assert Split(s, pat) == [[]] + Split(tail, pat);
      assert ReplaceAll(s, pat, rep) == rep + ReplaceAll(tail, pat, rep);
      SplitReplace(tail, pat, rep);
      JoinCons([], rep, Split(tail, pat));
    } else {
      var rest := Split(s[1..], pat);
      assert Split(s, pat) == [[s[0]] + rest[0]] + rest[1..];
      assert ReplaceAll(s, pat, rep) == [s[0]] + ReplaceAll(s[1..], pat, rep);
      SplitReplace(s[1..], pat, rep);
      JoinExtendHead(s[0], rep, rest);
    }
  }

  lemma {:induction false} SplitPiecesClean(s: string, pat: string)
    requires pat != []
    ensures forall i :: 0 <= i < |Split(s, pat)| ==> !Contains(Split(s, pat)[i], pat)
    decreases |s|
  {
    var parts := Split(s, pat);
    if |s| < |pat| {
      NoRoomNoOccurrence(s, pat);
    } else if s[..|pat|] == pat {
      var tail := s[|pat|..];
      SplitPiecesClean(tail, pat);
      NoRoomNoOccurrence([], pat);
      assert forall i :: 1 <= i < |parts| ==> parts[i] == Split(tail, pat)[i - 1];
    } else {
      var rest := Split(s[1..], pat);
      SplitPiecesClean(s[1..], pat);
      SplitHeadIsPrefix(s[1..], pat);
      HeadHasNoOccurrence(s, pat, rest[0]);
      assert forall i :: 1 <= i < |parts| ==> parts[i] == rest[i];
    }
  }

  lemma NoRoomNoOccurrence(s: string, pat: string)
    requires pat != [] && |s| < |pat|
    ensures !Contains(s, pat)
  {
  }

  /** Extending a piece without `pat` by a first character that does not start `pat` in `s`. */
  lemma HeadHasNoOccurrence(s: string, pat: string, piece: string)
    requires pat != [] && |pat| <= |s| && s[..|pat|] != pat
    requires |piece| < |s| && piece == s[1..][..|piece|]
    requires !Contains(piece, pat)
    ensures !Contains([s[0]] + piece, pat)
  {
    var p := [s[0]] + piece;
    assert p == s[..|p|];
    forall j | 0 <= j ensures !LitAt(p, j, pat, false) {
      if j == 0 {
        if |pat| <= |p| {
          assert p[0..|pat|] == s[..|pat|];
        }
      } else if LitAt(p, j, pat, false) {
        assert p[j..j + |pat|] == piece[j - 1..j - 1 + |pat|];
        assert LitAt(piece, j - 1, pat, false);
      }
    }
  }

  /** A document without the searched text is left exactly as it was. */
  lemma ReplaceAllAbsent(s: string, pat: string, rep: string)
    requires pat != [] && !Contains(s, pat)
    ensures ReplaceAll(s, pat, rep) == s
  {
    ReplaceAllIsJoin(s, pat, rep);
    SplitAbsent(s, pat);
  }

  lemma {:induction false} SplitAbsent(s: string, pat: string)
    requires pat != [] && !Contains(s, pat)
    ensures Split(s, pat) == [s]
    decreases |s|
  {
    if |s| < |pat| {
    } else {
      assert !LitAt(s, 0, pat, false);
      assert s[0..|pat|] == s[..|pat|];
      forall j | 0 <= j ensures !LitAt(s[1..], j, pat, false) {
        if LitAt(s[1..], j, pat, false) {
          assert s[1..][j..j + |pat|] == s[j + 1..j + 1 + |pat|];
          assert LitAt(s, j + 1, pat, false);
        }
      }
      SplitAbsent(s[1..], pat);
      assert [s[0]] + s[1..] == s;
    }
  }

  /** The search returns an occurrence with none before it. */
  lemma {:induction false} FindIs(s: string, lit: string, from: nat, ci: bool, k: nat)
    requires from <= k && LitAt(s, k, lit, ci)
    requires forall j :: from <= j < k ==> !LitAt(s, j, lit, ci)
    ensures Find(s, lit, from, ci) == Some(k)
    decreases k - from
  {
    if from < k {
      FindIs(s, lit, from + 1, ci, k);
    }
  }

  /** The first `c` at or after `from` is the one with no `c` between `from` and it. */
  lemma IndexOfIs(t: string, c: char, from: nat, g: nat)
    requires from <= g < |t| && t[g] == c
    requires forall j :: from <= j < g ==> t[j] != c
    ensures IndexOf(t, c, from) == Some(g)
  {
  }

  /** Slicing a suffix is slicing the whole. */
  lemma SuffixSlices(s: string, k: nat, n: nat)
    requires k + n <= |s|
    ensures s[k..][..n] == s[k..k + n] && s[k..][n..] == s[k + n..]
  {
  }

  /** The first k characters of an infix start where the infix starts. */
  lemma InfixPrefix(s: string, i: nat, j: nat, k: nat)
    requires i <= j <= |s| && k <= j - i
    ensures s[i..j][..k] == s[i..i + k]
  {
  }

  /** One character, then the first k of a tail, then the rest: the first k + 1 of the whole, then the rest. */
  lemma HeadThenPrefix(s: string, k: nat, rest: string)
    requires 0 < k <= |s|
    ensures [s[0]] + (s[1..][..k - 1] + rest) == s[..k] + rest
  {
    assert [s[0]] + s[1..][..k - 1] == s[..k];
  }

  /** Two texts that share a prefix agree on every slice inside it. */
  lemma SharedSlice(t1: string, t2: string, m: nat, a: nat, b: nat)
    requires m <= |t1| && m <= |t2| && t1[..m] == t2[..m] && a <= b <= m
    ensures t1[a..b] == t2[a..b]
  {
    forall i | 0 <= i < b - a ensures t1[a..b][i] == t2[a..b][i] {
      assert t1[a..b][i] == t1[..m][a + i];
      assert t2[a..b][i] == t2[..m][a + i];
    }
  }

  /** Whether a literal occurs inside a shared prefix is the same in both texts. */
  lemma LitAtShared(t1: string, t2: string, m: nat, j: nat, lit: string, ci: bool)
    requires m <= |t1| && m <= |t2| && t1[..m] == t2[..m] && j + |lit| <= m
    ensures LitAt(t1, j, lit, ci) == LitAt(t2, j, lit, ci)
  {
    SharedSlice(t1, t2, m, j, j + |lit|);
  }

  /** An occurrence at k is an occurrence at the start of the text from k on. */
  lemma LitAtSuffix(t: string, k: nat, lit: string)
    requires LitAt(t, k, lit, false)
    ensures LitAt(t[k..], 0, lit, false)
  {
    assert t[k..][0..|lit|] == t[k..k + |lit|];
  }

  /** Searching a suffix for a character finds the same occurrence, shifted. */
  lemma IndexOfShift(t: string, c: char, k: nat, from: nat, q: nat)
    requires k <= from && IndexOf(t, c, from) == Some(q)
    ensures IndexOf(t[k..], c, from - k) == Some(q - k)
  {
    var u := t[k..];
    forall j | from - k <= j < q - k ensures u[j] != c {
      assert u[j] == t[k + j];
    }
    IndexOfIs(u, c, from - k, q - k);
  }

  /** The search one character further on finds the same occurrence, one index earlier. */
  lemma FindInTail(s: string, lit: string, k: nat, ci: bool)
    requires s != [] && k > 0 && Find(s, lit, 0, ci).Some? && Find(s, lit, 0, ci).value == k
    ensures Find(s[1..], lit, 0, ci).Some? && Find(s[1..], lit, 0, ci).value == k - 1
  {
    var t := s[1..];
    assert t[k - 1..k - 1 + |lit|] == s[k..k + |lit|];
    assert LitAt(t, k - 1, lit, ci);
    forall j | 0 <= j < k - 1 ensures !LitAt(t, j, lit, ci) {
      assert t[j..j + |lit|] == s[j + 1..j + 1 + |lit|];
      assert !LitAt(s, j + 1, lit, ci);
    }
    FindIs(t, lit, 0, ci, k - 1);
  }

  /** str_replace in terms of the first occurrence: the text before it is kept, the occurrence replaced. */
  lemma {:induction false} ReplaceAllAtFirst(s: string, pat: string, rep: string, k: nat)
    requires pat != [] && Find(s, pat, 0, false).Some? && Find(s, pat, 0, false).value == k
    ensures k + |pat| <= |s|
    ensures ReplaceAll(s, pat, rep) == s[..k] + rep + ReplaceAll(s[k + |pat|..], pat, rep)
    decreases k, 1
  {
    if k == 0 {
      ReplaceAllAtStart(s, pat, rep);
      assert s[..k] == [];
    } else {
      ReplaceAllPastHead(s, pat, rep, k);
    }
  }

  lemma {:induction false} ReplaceAllPastHead(s: string, pat: string, rep: string, k: nat)
    requires pat != [] && Find(s, pat, 0, false).Some? && Find(s, pat, 0, false).value == k && k > 0
    ensures k + |pat| <= |s|
    ensures ReplaceAll(s, pat, rep) == s[..k] + rep + ReplaceAll(s[k + |pat|..], pat, rep)
    decreases k, 0
  {
    var t := s[1..];
    var x := ReplaceAll(s[k + |pat|..], pat, rep);
    assert t[k - 1 + |pat|..] == s[k + |pat|..];
    assert ReplaceAll(s, pat, rep) == [s[0]] + ReplaceAll(t, pat, rep) by {
      ReplaceAllSkipsHead(s, pat, rep);
    }
    assert ReplaceAll(t, pat, rep) == t[..k - 1] + rep + x by {
      FindInTail(s, pat, k, false);
      ReplaceAllAtFirst(t, pat, rep, k - 1);
    }
    ConsBeforeFirst(s, k, rep, x);
  }

  lemma ReplaceAllAtStart(s: string, pat: string, rep: string)
    requires pat != [] && LitAt(s, 0, pat, false)
    ensures ReplaceAll(s, pat, rep) == rep + ReplaceAll(s[|pat|..], pat, rep)
  {
    assert s[0..|pat|] == s[..|pat|];
  }

  lemma ReplaceAllSkipsHead(s: string, pat: string, rep: string)
    requires pat != [] && |pat| < |s| && !LitAt(s, 0, pat, false)
    ensures ReplaceAll(s, pat, rep) == [s[0]] + ReplaceAll(s[1..], pat, rep)
  {
    assert s[0..|pat|] == s[..|pat|];
  }

  lemma ConsBeforeFirst(s: string, k: nat, rep: string, rest: string)
    requires 0 < k <= |s|
    ensures [s[0]] + (s[1..][..k - 1] + rep + rest) == s[..k] + rep + rest
  {
    assert [s[0]] + s[1..][..k - 1] == s[..k];
  }

  // ---------------------------------------------------------------------------
  // trim / ltrim / rtrim
  // ---------------------------------------------------------------------------

  /** ltrim($s, c): drops the leading run of `c`. */
  function LTrimChar(s: string, c: char): (r: string)
    ensures r == [] || r[0] != c
    ensures |r| <= |s| && r == s[|s| - |r|..]
    ensures forall j :: 0 <= j < |s| - |r| ==> s[j] == c
  {
    if s != [] && s[0] == c then LTrimChar(s[1..], c) else s
  }

  /** rtrim($s, c): drops the trailing run of `c`. */
  function RTrimChar(s: string, c: char): (r: string)
    ensures r == [] || r[|r| - 1] != c
    ensures |r| <= |s| && r == s[..|r|]
    ensures forall j :: |r| <= j < |s| ==> s[j] == c
  {
    if s != [] && s[|s| - 1] == c then RTrimChar(s[..|s| - 1], c) else s
  }

  /** trim($s, c) */
  function TrimChar(s: string, c: char): string
  {
    RTrimChar(LTrimChar(s, c), c)
  }

  /** trim($s) with PHP's default character list. */
  function Trim(s: string): (r: string)
    ensures r == [] || (!IsTrimSpace(r[0]) && !IsTrimSpace(r[|r| - 1]))
    ensures exists i, j :: 0 <= i <= j <= |s| && r == s[i..j]
    decreases |s|
  {
    if s != [] && IsTrimSpace(s[0]) then
      var r := Trim(s[1..]);
      ghost var i, j :| 0 <= i <= j <= |s[1..]| && r == s[1..][i..j];
      assert r == s[i + 1..j + 1];
      r
    else if s != [] && IsTrimSpace(s[|s| - 1]) then
      var r := Trim(s[..|s| - 1]);
      ghost var i, j :| 0 <= i <= j <= |s[..|s| - 1]| && r == s[..|s| - 1][i..j];
      assert s[..|s| - 1][i..j] == s[i..j];
      r
    else
      assert s == s[0..|s|];
      s
  }

  // ---------------------------------------------------------------------------
  // basename / pathinfo (POSIX separator)
  // ---------------------------------------------------------------------------

  /** PHP basename(): the last '/'-separated component once trailing slashes are dropped. */
  function Basename(path: string): (b: string)
    ensures '/' !in b
  {
    var p := RTrimChar(path, '/');
    match LastIndexOf(p, '/')
    case None => p
    case Some(k) => p[k + 1..]
  }

  /** A file name without its last extension. */
  function DropExtension(b: string): string
  {
    match LastIndexOf(b, '.')
    case None => b
    case Some(k) => b[..k]
  }

  /** pathinfo($path, PATHINFO_FILENAME): the basename without its last extension. */
  function FilenameStem(path: string): string
  {
    DropExtension(Basename(path))
  }

  /** pathinfo($path, PATHINFO_EXTENSION) and SplFileInfo::getExtension(): "" when there is none. */
  function Extension(path: string): string
  {
    var b := Basename(path);
    match LastIndexOf(b, '.')
    case None => []
    case Some(k) => b[k + 1..]
  }

  /** PHP's substr($s, $start) for a non-negative start: "" once start passes the end. */
  function Substr(s: string, start: nat): string
  {
    if start >= |s| then [] else s[start..]
  }

  // ---------------------------------------------------------------------------
  // Decimal rendering of a non-negative integer (string interpolation of time())
  // ---------------------------------------------------------------------------

  function DigitChar(d: nat): (c: char)
    requires d < 10
    ensures IsDigit(c)
  {
    ('0' as int + d) as char
  }

  function Decimal(n: nat): (r: string)
    ensures r != []
    ensures forall i :: 0 <= i < |r| ==> IsDigit(r[i])
  {
    if n < 10 then [DigitChar(n)] else Decimal(n / 10) + [DigitChar(n % 10)]
  }
}
