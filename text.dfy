/**
 * The java.lang.String operations the positioners rely on, as functions over
 * seq<char>: first-occurrence search (indexOf), lastIndexOf, startsWith,
 * endsWith, trim, split on a literal separator and the ASCII part of
 * toLowerCase / equalsIgnoreCase.
 */
module Text {

  /** `pat` occurs in `s` starting at index `k`. */
  predicate OccursAt(s: string, pat: string, k: int)
  {
    0 <= k && k + |pat| <= |s| && s[k..k + |pat|] == pat
  }

  /** Any slice of an occurrence of `pat` is the same slice of `pat`. */
  lemma OccurrenceSlice(s: string, pat: string, k: int, a: int, b: int)
    requires OccursAt(s, pat, k)
    requires 0 <= a <= b <= |pat|
    ensures s[k + a..k + b] == pat[a..b]
  {
    forall j | 0 <= j < b - a ensures s[k + a..k + b][j] == pat[a..b][j] {
      assert s[k + a + j] == s[k..k + |pat|][a + j];
    }
  }

  /**
   * String.indexOf(pat, from): the first k >= max(0, from) at which `pat`
   * occurs, or -1; an empty pattern searched from beyond the end yields |s|.
   */
  function IndexOfFrom(s: string, pat: string, from: int): (k: int)
    ensures k == -1 || (0 <= k && k + |pat| <= |s| && (k >= from || k == |s|))
    decreases |s| - from
  {
    if from < 0 then IndexOfFrom(s, pat, 0)
    else if from + |pat| > |s| then (if pat == [] then |s| else -1)
    else if MatchesFrom(s, pat, from, 0) then from
    else IndexOfFrom(s, pat, from + 1)
  }

  /** pat[j..] occurs in s at k + j, compared character by character. */
  predicate MatchesFrom(s: string, pat: string, k: nat, j: nat)
    requires k + |pat| <= |s|
    requires j <= |pat|
    decreases |pat| - j
  {
    j == |pat| || (s[k + j] == pat[j] && MatchesFrom(s, pat, k, j + 1))
  }

  /** The character-by-character comparison is the slice comparison. */
  lemma {:induction false} MatchesFromSlice(s: string, pat: string, k: nat, j: nat)
    requires k + |pat| <= |s|
    requires j <= |pat|
    ensures MatchesFrom(s, pat, k, j) <==> s[k + j..k + |pat|] == pat[j..]
    decreases |pat| - j
  {
    if j < |pat| {
      MatchesFromSlice(s, pat, k, j + 1);
      assert s[k + j..k + |pat|] == [s[k + j]] + s[k + j + 1..k + |pat|];
      assert pat[j..] == [pat[j]] + pat[j + 1..];
    }
  }

  /** String.indexOf(pat): the first occurrence of `pat`, or -1. */
  function IndexOf(s: string, pat: string): (k: int)
    ensures k == -1 || (0 <= k && k + |pat| <= |s|)
  {
    IndexOfFrom(s, pat, 0)
  }

  /**
   * indexOf(pat, from) answers an occurrence, finds nothing before it, and
   * -1 means nowhere at or after `from`.
   */
  lemma {:induction false} IndexOfFromFirst(s: string, pat: string, from: int)
    ensures var k := IndexOfFrom(s, pat, from);
      (k >= 0 ==> OccursAt(s, pat, k)) &&
      (k >= 0 ==> forall j :: from <= j < k ==> !OccursAt(s, pat, j)) &&
      (k == -1 ==> pat != [] && forall j :: from <= j ==> !OccursAt(s, pat, j))
    decreases |s| - from
  {
    if from < 0 {
      IndexOfFromFirst(s, pat, 0);
    } else if from + |pat| <= |s| {
      MatchesFromSlice(s, pat, from, 0);
      assert pat[0..] == pat;
      if !MatchesFrom(s, pat, from, 0) {
        IndexOfFromFirst(s, pat, from + 1);
      }
    }
  }

  /** indexOf(pat) is the first occurrence, and -1 exactly when there is none. */
  lemma IndexOfFirst(s: string, pat: string)
    ensures var k := IndexOf(s, pat);
      (k == -1 || OccursAt(s, pat, k)) &&
      (k >= 0 ==> forall j :: 0 <= j < k ==> !OccursAt(s, pat, j)) &&
      (k == -1 <==> forall j :: !OccursAt(s, pat, j))
  {
    IndexOfFromFirst(s, pat, 0);
  }

  /** String.contains(pat). */
  predicate Contains(s: string, pat: string)
  {
    IndexOf(s, pat) >= 0
  }

  /** String.indexOf(char, from): the first k >= max(0, from) with s[k] == c, or -1. */
  function IndexOfCharFrom(s: string, c: char, from: int): (k: int)
    ensures k == -1 || (0 <= k < |s| && k >= from && s[k] == c)
    decreases |s| - from
  {
    if from < 0 then IndexOfCharFrom(s, c, 0)
    else if from >= |s| then -1
    else if s[from] == c then from
    else IndexOfCharFrom(s, c, from + 1)
  }

  /** indexOf(c, from) skips no earlier c, and -1 means none at or after `from`. */
  lemma {:induction false} IndexOfCharFromFirst(s: string, c: char, from: int)
    ensures var k := IndexOfCharFrom(s, c, from);
      (k >= 0 ==> forall j :: from <= j < k && 0 <= j ==> s[j] != c) &&
      (k == -1 ==> forall j :: from <= j < |s| && 0 <= j ==> s[j] != c)
    decreases |s| - from
  {
    if from < 0 {
      IndexOfCharFromFirst(s, c, 0);
    } else if from < |s| && s[from] != c {
      IndexOfCharFromFirst(s, c, from + 1);
    }
  }

  /** String.contains(s) for a one-character string: indexOf(c) finds it. */
  predicate HasChar(s: string, c: char)
  {
    IndexOfCharFrom(s, c, 0) >= 0
  }

  /** contains(c) holds exactly when some index holds c. */
  lemma HasCharSpec(s: string, c: char)
    ensures HasChar(s, c) <==> exists k :: 0 <= k < |s| && s[k] == c
  {
    IndexOfCharFromFirst(s, c, 0);
  }

  /** String.lastIndexOf(char): the last k with s[k] == c, or -1. */
  function LastIndexOfChar(s: string, c: char): (k: int)
    ensures k == -1 || (0 <= k < |s| && s[k] == c)
    decreases |s|
  {
    if s == [] then -1
    else if s[|s| - 1] == c then |s| - 1
    else LastIndexOfChar(s[..|s| - 1], c)
  }

  /** lastIndexOf(c) skips no later c. */
  lemma {:induction false} LastIndexOfCharLast(s: string, c: char)
    ensures forall j :: LastIndexOfChar(s, c) < j < |s| ==> s[j] != c
    decreases |s|
  {
    if s != [] && s[|s| - 1] != c {
      LastIndexOfCharLast(s[..|s| - 1], c);
      forall j | LastIndexOfChar(s, c) < j < |s| - 1 ensures s[j] != c {
        assert s[j] == s[..|s| - 1][j];
      }
    }
  }

  predicate StartsWith(s: string, prefix: string)
  {
    |prefix| <= |s| && s[..|prefix|] == prefix
  }

  predicate EndsWith(s: string, suffix: string)
  {
    |suffix| <= |s| && s[|s| - |suffix|..] == suffix
  }

  /** The characters String.trim() removes: every code point up to U+0020. */
  predicate IsTrimmable(c: char)
  {
    c <= ' '
  }

  function TrimStart(s: string): (t: string)
    ensures |t| <= |s|
  {
    if s != [] && IsTrimmable(s[0]) then TrimStart(s[1..]) else s
  }

  function TrimEnd(s: string): (t: string)
    ensures |t| <= |s|
  {
    if s != [] && IsTrimmable(s[|s| - 1]) then TrimEnd(s[..|s| - 1]) else s
  }

  /** String.trim(): drop every leading and trailing character <= U+0020. */
  function Trim(s: string): (t: string)
    ensures |t| <= |s|
  {
    TrimEnd(TrimStart(s))
  }

  /** TrimStart drops exactly the leading trimmable characters. */
  lemma {:induction false} TrimStartSpec(s: string)
    ensures var t := TrimStart(s);
      t == s[|s| - |t|..] &&
      (t == [] || !IsTrimmable(t[0])) &&
      forall j :: 0 <= j < |s| - |t| ==> IsTrimmable(s[j])
    decreases |s|
  {
    if s != [] && IsTrimmable(s[0]) {
      TrimStartSpec(s[1..]);
      var t := TrimStart(s);
      forall j | 0 <= j < |s| - |t| ensures IsTrimmable(s[j]) {
        if j > 0 {
          assert s[j] == s[1..][j - 1];
        }
      }
    }
  }

  /** TrimEnd drops exactly the trailing trimmable characters. */
  lemma {:induction false} TrimEndSpec(s: string)
    ensures var t := TrimEnd(s);
      t == s[..|t|] &&
      (t == [] || !IsTrimmable(t[|t| - 1])) &&
      forall j :: |t| <= j < |s| ==> IsTrimmable(s[j])
    decreases |s|
  {
    if s != [] && IsTrimmable(s[|s| - 1]) {
      TrimEndSpec(s[..|s| - 1]);
      var t := TrimEnd(s);
      forall j | |t| <= j < |s| ensures IsTrimmable(s[j]) {
        if j < |s| - 1 {
          assert s[j] == s[..|s| - 1][j];
        }
      }
    }
  }

  /**
   * The trimmed text neither starts nor ends with a trimmable character,
   * and it is empty exactly when every character of the input is trimmable.
   */
  lemma TrimSpec(s: string)
    ensures var t := Trim(s);
      (t == [] || (!IsTrimmable(t[0]) && !IsTrimmable(t[|t| - 1]))) &&
      (t == [] <==> forall j :: 0 <= j < |s| ==> IsTrimmable(s[j]))
  {
    var u := TrimStart(s);
    var t := TrimEnd(u);
    TrimStartSpec(s);
    TrimEndSpec(u);
    if t != [] {
      assert t[0] == u[0] == s[|s| - |u|];
    }
  }

  /** toLowerCase restricted to ASCII letters. */
  function LowerChar(c: char): char
  {
    if 'A' <= c <= 'Z' then (c as int + 32) as char else c
  }

  function ToLower(s: string): (t: string)
    ensures |t| == |s|
  {
    seq(|s|, j requires 0 <= j < |s| => LowerChar(s[j]))
  }

  /** Every character is lowered on its own, and no ASCII capital is left. */
  lemma ToLowerSpec(s: string)
    ensures forall j :: 0 <= j < |s| ==> ToLower(s)[j] == LowerChar(s[j])
    ensures forall j :: 0 <= j < |s| ==> !('A' <= ToLower(s)[j] <= 'Z')
  {
  }

  /** equalsIgnoreCase restricted to ASCII letters. */
  predicate EqualsIgnoreCase(a: string, b: string)
  {
    ToLower(a) == ToLower(b)
  }

  /** Every piece between occurrences of `sep` (a limit of -1). */
  function SplitAll(s: string, sep: string): (pieces: seq<string>)
    requires sep != []
    ensures |pieces| >= 1
    decreases |s|
  {
    var k := IndexOf(s, sep);
    if k < 0 then [s] else [s[..k]] + SplitAll(s[k + |sep|..], sep)
  }

  function DropTrailingEmpty(pieces: seq<string>): (r: seq<string>)
    ensures |r| <= |pieces| && r == pieces[..|r|]
    ensures forall j :: |r| <= j < |pieces| ==> pieces[j] == []
  {
    if pieces != [] && pieces[|pieces| - 1] == [] then DropTrailingEmpty(pieces[..|pieces| - 1])
    else pieces
  }

  /**
   * String.split(sep) for a separator with no regex metacharacters: the input
   * itself when `sep` does not occur, otherwise the pieces with trailing
   * empty pieces removed.
   */
  function Split(s: string, sep: string): (pieces: seq<string>)
    requires sep != []
  {
    if !Contains(s, sep) then [s] else DropTrailingEmpty(SplitAll(s, sep))
  }

  /** An occurrence in a suffix `s[d..]` is an occurrence in `s`, shifted by `d`. */
  lemma OccursInSuffix(s: string, d: nat, pat: string, j: int)
    requires d <= |s| && OccursAt(s[d..], pat, j)
    ensures OccursAt(s, pat, d + j)
  {
    assert s[d + j..d + j + |pat|] == s[d..][j..j + |pat|];
  }

  /** Every piece `SplitAll` produces is a substring of its input. */
  lemma {:induction false} SplitAllOccurs(s: string, sep: string)
    requires sep != []
    ensures forall p :: p in SplitAll(s, sep) ==> exists j :: OccursAt(s, p, j)
    decreases |s|
  {
    var k := IndexOf(s, sep);
    IndexOfFirst(s, sep);
    if k < 0 {
      assert OccursAt(s, s, 0);
    } else {
      var rest := s[k + |sep|..];
      SplitAllOccurs(rest, sep);
      assert SplitAll(s, sep) == [s[..k]] + SplitAll(rest, sep);
      forall p | p in SplitAll(s, sep)
        ensures exists j :: OccursAt(s, p, j)
      {
        if p == s[..k] {
          assert OccursAt(s, p, 0);
        } else {
          assert p in SplitAll(rest, sep);
          var j :| OccursAt(rest, p, j);
          OccursInSuffix(s, k + |sep|, p, j);
        }
      }
    }
  }

  /** Every piece `Split` produces is a substring of its input. */
  lemma SplitOccurs(s: string, sep: string)
    requires sep != []
    ensures forall p :: p in Split(s, sep) ==> exists j :: OccursAt(s, p, j)
  {
    if !Contains(s, sep) {
      assert OccursAt(s, s, 0);
    } else {
      var pieces := SplitAll(s, sep);
      SplitAllOccurs(s, sep);
      var r := DropTrailingEmpty(pieces);
      forall p | p in r
        ensures p in pieces
      {
        var i :| 0 <= i < |r| && r[i] == p;
        assert pieces[i] == p;
      }
    }
  }
}
