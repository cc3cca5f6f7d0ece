/**
 * The admin SQL console's guard: the query is trimmed, and a query containing
 * any of a fixed list of shell dot-commands or ATTACH/DETACH, in any letter
 * case, is refused before anything runs.
 */
module AdminSqlite {
  import opened Common

  /** The JSON answer of the console. */
  datatype SqliteResult = SqliteResult(success: bool, output: string, error: Option<string>)

  /** What the guard decides: refuse with this answer, or hand this query to sqlite3. */
  datatype Guarded =
    | Blocked(result: SqliteResult)
    | Forward(query: string)

  const BlockedMessage: string := "Dangerous command blocked for security reasons"

  const DangerousPatterns: seq<string> := [
    ".quit", ".exit", ".shell", ".system", ".load", ".import", ".output",
    ".backup", ".restore", "attach database", "detach database"]

  // ---------------------------------------------------------------------------
  // Letter case

  function LowerChar(c: char): char
  {
    if 'A' <= c <= 'Z' then (c as int + 32) as char else c
  }

  /** ASCII lower-casing, character by character. */
  function Lower(s: string): (r: string)
    ensures |r| == |s|
    ensures forall i :: 0 <= i < |s| ==> r[i] == LowerChar(s[i])
  {
    seq(|s|, i requires 0 <= i < |s| => LowerChar(s[i]))
  }

  /** Lower-casing twice is lower-casing once. */
  lemma LowerIdempotent(s: string)
    ensures Lower(Lower(s)) == Lower(s)
  {
    assert forall i :: 0 <= i < |s| ==> LowerChar(LowerChar(s[i])) == LowerChar(s[i]);
  }

  /** Lower-casing commutes with taking a slice. */
  lemma LowerSlice(s: string, i: nat, j: nat)
    requires i <= j <= |s|
    ensures Lower(s[i..j]) == Lower(s)[i..j]
  {
  }

  // ---------------------------------------------------------------------------
  // Substring search

  predicate OccursAt(p: string, s: string, i: int)
  {
    0 <= i && i + |p| <= |s| && s[i..i + |p|] == p
  }

  lemma OccursShift(p: string, s: string, i: int)
    requires |s| > 0 && i >= 0
    ensures OccursAt(p, s[1..], i) <==> OccursAt(p, s, i + 1)
  {
    if 0 <= i && i + 1 + |p| <= |s| {
      assert s[1..][i..i + |p|] == s[i + 1..i + 1 + |p|];
    }
  }

  /** `str::contains`: `p` occurs somewhere in `s`, scanning from the front. */
  function Contains(s: string, p: string): (r: bool)
    ensures r <==> exists i :: OccursAt(p, s, i)
    decreases |s|
  {
    if |p| > |s| then false
    else if s[..|p|] == p then (assert OccursAt(p, s, 0); true)
    else
      var r := Contains(s[1..], p);
      assert r ==> exists i :: OccursAt(p, s, i) by {
        if r {
          var i :| OccursAt(p, s[1..], i);
          OccursShift(p, s, i);
        }
      }
      assert (exists i :: OccursAt(p, s, i)) ==> r by {
        if exists i :: OccursAt(p, s, i) {
          var i :| OccursAt(p, s, i);
          assert i != 0;
          OccursShift(p, s, i - 1);
        }
      }
      r
  }

  /** A string occurring in a slice of `s` occurs in `s` itself. */
  lemma OccursTransitive(p: string, q: string, s: string, i: int, j: int)
    requires OccursAt(p, q, i) && OccursAt(q, s, j)
    ensures OccursAt(p, s, j + i)
  {
    var w := s[j + i..j + i + |p|];
    forall m | 0 <= m < |p|
      ensures w[m] == p[m]
    {
      assert w[m] == s[j..j + |q|][i + m];
      assert p[m] == q[i..i + |p|][m];
    }
  }

  // ---------------------------------------------------------------------------
  // The blocklist

  /**
   * `is_dangerous_command`: the lower-cased query contains at least one of the
   * patterns; the patterns are tried in order and the first hit answers.
   */
  function IsDangerousCommand(query: string): (r: bool)
    ensures r <==> exists k :: 0 <= k < |DangerousPatterns| && Contains(Lower(query), DangerousPatterns[k])
  {
    var lowered := Lower(query);
    FirstMatch(DangerousPatterns, (p: string) => Contains(lowered, p)).Some?
  }

  /** Letter case never matters: a query and its lower-cased form get the same answer. */
  lemma DangerIgnoresCase(query: string)
    ensures IsDangerousCommand(Lower(query)) == IsDangerousCommand(query)
  {
    LowerIdempotent(query);
  }

  /** Any query containing a dangerous query is dangerous too. */
  lemma DangerIsMonotone(query: string, larger: string, j: int)
    requires OccursAt(query, larger, j)
    requires IsDangerousCommand(query)
    ensures IsDangerousCommand(larger)
  {
    var k :| 0 <= k < |DangerousPatterns| && Contains(Lower(query), DangerousPatterns[k]);
    var p := DangerousPatterns[k];
    var i :| OccursAt(p, Lower(query), i);
    LowerSlice(larger, j, j + |query|);
    assert OccursAt(Lower(query), Lower(larger), j);
    OccursTransitive(p, Lower(query), Lower(larger), i, j);
  }

  /** The empty query is let through: every pattern is non-empty. */
  lemma EmptyQueryIsSafe()
    ensures !IsDangerousCommand("")
  {
    assert Lower("") == "";
    forall k | 0 <= k < |DangerousPatterns|
      ensures !Contains("", DangerousPatterns[k])
    {
      PatternEndsAreNotSpace(k);
      NothingOccursInEmpty(DangerousPatterns[k]);
    }
  }

  lemma NothingOccursInEmpty(p: string)
    requires |p| > 0
    ensures !Contains("", p)
  {
    assert forall i :: !OccursAt(p, "", i);
  }

  // ---------------------------------------------------------------------------
  // Trimming (`str::trim`: Unicode White_Space at both ends)

  /** The Unicode White_Space characters. */
  predicate IsWhiteSpace(c: char)
  {
    || '\U{9}' <= c <= '\U{D}' || c == '\U{20}' || c == '\U{85}' || c == '\U{A0}'
    || c == '\U{1680}' || '\U{2000}' <= c <= '\U{200A}' || c == '\U{2028}' || c == '\U{2029}'
    || c == '\U{202F}' || c == '\U{205F}' || c == '\U{3000}'
  }

  /** The number of white-space characters at the front. */
  function LeadingSpace(s: string): (n: nat)
    ensures n <= |s|
  {
    if s == [] || !IsWhiteSpace(s[0]) then 0 else 1 + LeadingSpace(s[1..])
  }

  /** The leading white space is white space, and the character after it is not. */
  lemma {:induction false} LeadingSpaceShape(s: string)
    ensures forall k :: 0 <= k < LeadingSpace(s) ==> IsWhiteSpace(s[k])
    ensures LeadingSpace(s) < |s| ==> !IsWhiteSpace(s[LeadingSpace(s)])
  {
    if s != [] && IsWhiteSpace(s[0]) {
      LeadingSpaceShape(s[1..]);
      forall k | 1 <= k < LeadingSpace(s)
        ensures IsWhiteSpace(s[k])
      {
        assert s[k] == s[1..][k - 1];
      }
    }
  }

  /** The number of white-space characters at the back. */
  function TrailingSpace(s: string): (n: nat)
    ensures n <= |s|
  {
    if s == [] || !IsWhiteSpace(s[|s| - 1]) then 0 else 1 + TrailingSpace(s[..|s| - 1])
  }

  /** The trailing white space is white space, and the character before it is not. */
  lemma {:induction false} TrailingSpaceShape(s: string)
    ensures forall k :: |s| - TrailingSpace(s) <= k < |s| ==> IsWhiteSpace(s[k])
    ensures TrailingSpace(s) < |s| ==> !IsWhiteSpace(s[|s| - 1 - TrailingSpace(s)])
  {
    if s != [] && IsWhiteSpace(s[|s| - 1]) {
      TrailingSpaceShape(s[..|s| - 1]);
    }
  }

  /** `str::trim`: the query with the white space at both ends removed. */
  function Trim(s: string): string
  {
    s[LeadingSpace(s)..|s| - TrailingSpace(s[LeadingSpace(s)..])]
  }

  /**
   * The trimmed text is the slice that starts after the leading white space,
   * starts and ends with a non-space, and leaves only white space after it.
   */
  lemma TrimShape(s: string)
    ensures LeadingSpace(s) + |Trim(s)| <= |s|
    ensures Trim(s) == s[LeadingSpace(s)..LeadingSpace(s) + |Trim(s)|]
    ensures |Trim(s)| > 0 ==> !IsWhiteSpace(Trim(s)[0]) && !IsWhiteSpace(Trim(s)[|Trim(s)| - 1])
    ensures forall k :: 0 <= k < LeadingSpace(s) ==> IsWhiteSpace(s[k])
    ensures forall k :: LeadingSpace(s) + |Trim(s)| <= k < |s| ==> IsWhiteSpace(s[k])
  {
    LeadingSpaceShape(s);
    TailIsSpace(s, LeadingSpace(s), TrailingSpace(s[LeadingSpace(s)..]));
    TrimEnds(s);
  }

  lemma TrimEnds(s: string)
    ensures |Trim(s)| > 0 ==> !IsWhiteSpace(Trim(s)[0]) && !IsWhiteSpace(Trim(s)[|Trim(s)| - 1])
  {
    var a := LeadingSpace(s);
    var b := TrailingSpace(s[a..]);
    var r := Trim(s);
    if |r| > 0 {
      LeadingSpaceShape(s);
      TrailingSpaceShape(s[a..]);
      assert r[0] == s[a];
      assert r[|r| - 1] == s[a..][|s[a..]| - 1 - b];
    }
  }

  /** What lies after the trimmed slice is the trailing white space of the rest. */
  lemma TailIsSpace(s: string, a: nat, b: nat)
    requires a <= |s| && b == TrailingSpace(s[a..])
    ensures forall k :: |s| - b <= k < |s| ==> IsWhiteSpace(s[k])
  {
    TrailingSpaceShape(s[a..]);
    forall k | |s| - b <= k < |s|
      ensures IsWhiteSpace(s[k])
    {
      assert s[k] == s[a..][k - a];
    }
  }

  /** Lower-casing keeps white space and non-space apart. */
  lemma LowerKeepsSpace(c: char)
    ensures IsWhiteSpace(LowerChar(c)) <==> IsWhiteSpace(c)
  {
  }

  /**
   * Trimming never hides or reveals a pattern: every pattern starts and ends
   * with a non-space, so any occurrence lies inside the trimmed text.
   */
  lemma DangerSurvivesTrim(query: string)
    ensures IsDangerousCommand(Trim(query)) == IsDangerousCommand(query)
  {
    if IsDangerousCommand(Trim(query)) {
      TrimmedDangerIsDanger(query);
    }
    if IsDangerousCommand(query) {
      DangerIsTrimmedDanger(query);
    }
  }

  lemma TrimmedDangerIsDanger(query: string)
    requires IsDangerousCommand(Trim(query))
    ensures IsDangerousCommand(query)
  {
    var t := Trim(query);
    TrimShape(query);
    DangerIsMonotone(t, query, LeadingSpace(query));
  }

  lemma DangerIsTrimmedDanger(query: string)
    requires IsDangerousCommand(query)
    ensures IsDangerousCommand(Trim(query))
  {
    var k :| 0 <= k < |DangerousPatterns| && Contains(Lower(query), DangerousPatterns[k]);
    var i :| OccursAt(DangerousPatterns[k], Lower(query), i);
    PatternEndsAreNotSpace(k);
    var j := OccursInLowerTrim(query, DangerousPatterns[k], i);
    assert Contains(Lower(Trim(query)), DangerousPatterns[k]);
  }

  /**
   * An occurrence, in the lower-cased query, of a string with non-space ends is
   * also an occurrence in the lower-cased trimmed query, `j` places on.
   */
  lemma OccursInLowerTrim(query: string, p: string, i: int) returns (j: int)
    requires |p| > 0 && !IsWhiteSpace(p[0]) && !IsWhiteSpace(p[|p| - 1])
    requires OccursAt(p, Lower(query), i)
    ensures OccursAt(p, Lower(Trim(query)), j)
  {
    var a := LeadingSpace(query);
    var t := Trim(query);
    LowerTrimSpaces(query);
    OccursInsideSpaces(p, Lower(query), a, |t|, i);
    LowerTrimSlice(query);
    j := i - a;
  }

  /** Lower-casing the trimmed query gives the matching slice of the lower-cased query. */
  lemma LowerTrimSlice(query: string)
    ensures LeadingSpace(query) + |Trim(query)| <= |query|
    ensures Lower(Trim(query)) == Lower(query)[LeadingSpace(query)..LeadingSpace(query) + |Trim(query)|]
  {
    TrimShape(query);
    LowerSlice(query, LeadingSpace(query), LeadingSpace(query) + |Trim(query)|);
  }

  /** Around the trimmed slice, the lower-cased query is white space. */
  lemma LowerTrimSpaces(query: string)
    ensures LeadingSpace(query) + |Trim(query)| <= |Lower(query)|
    ensures forall m :: 0 <= m < LeadingSpace(query) ==> IsWhiteSpace(Lower(query)[m])
    ensures forall m :: LeadingSpace(query) + |Trim(query)| <= m < |Lower(query)| ==> IsWhiteSpace(Lower(query)[m])
  {
    TrimShape(query);
    LowerSpaceOutside(query, LeadingSpace(query), |Trim(query)|);
  }

  /** White space around a slice stays white space after lower-casing. */
  lemma LowerSpaceOutside(s: string, a: nat, len: nat)
    requires a + len <= |s|
    requires forall m :: 0 <= m < a ==> IsWhiteSpace(s[m])
    requires forall m :: a + len <= m < |s| ==> IsWhiteSpace(s[m])
    ensures forall m :: 0 <= m < a ==> IsWhiteSpace(Lower(s)[m])
    ensures forall m :: a + len <= m < |s| ==> IsWhiteSpace(Lower(s)[m])
  {
    forall m | 0 <= m < |s|
      ensures IsWhiteSpace(Lower(s)[m]) <==> IsWhiteSpace(s[m])
    {
      LowerKeepsSpace(s[m]);
    }
  }

  /**
   * An occurrence of a string with non-space ends, in text that is white space
   * before `a` and from `a + len` on, lies inside the slice between.
   */
  lemma OccursInsideSpaces(p: string, s: string, a: nat, len: nat, i: int)
    requires |p| > 0 && !IsWhiteSpace(p[0]) && !IsWhiteSpace(p[|p| - 1])
    requires a + len <= |s|
    requires forall k :: 0 <= k < a ==> IsWhiteSpace(s[k])
    requires forall k :: a + len <= k < |s| ==> IsWhiteSpace(s[k])
    requires OccursAt(p, s, i)
    ensures OccursAt(p, s[a..a + len], i - a)
  {
    assert s[i] == s[i..i + |p|][0];
    assert s[i + |p| - 1] == s[i..i + |p|][|p| - 1];
    calc {
      s[a..a + len][i - a..i - a + |p|];
      { SliceOfSlice(s, a, a + len, i, |p|); }
      s[i..i + |p|];
    }
  }

  lemma SliceOfSlice(s: string, a: int, b: int, i: int, n: nat)
    requires 0 <= a <= i && i + n <= b <= |s|
    ensures s[a..b][i - a..i - a + n] == s[i..i + n]
  {
    var l, r := s[a..b][i - a..i - a + n], s[i..i + n];
    forall m | 0 <= m < n
      ensures l[m] == r[m]
    {
      assert l[m] == s[a..b][i - a + m];
    }
  }

  lemma PatternEndsAreNotSpace(k: nat)
    requires k < |DangerousPatterns|
    ensures |DangerousPatterns[k]| > 0
    ensures !IsWhiteSpace(DangerousPatterns[k][0])
    ensures !IsWhiteSpace(DangerousPatterns[k][|DangerousPatterns[k]| - 1])
  {
  }

  /**
   * The guard in `execute`: the trimmed query is checked, a dangerous one is
   * answered with a failure and the fixed message and nothing runs; any other
   * is passed on, trimmed.
   */
  function Guard(query: string): (g: Guarded)
    ensures g.Blocked? <==> IsDangerousCommand(Trim(query))
    ensures g.Blocked? ==> g.result == SqliteResult(false, "", Some(BlockedMessage))
    ensures g.Forward? ==> g.query == Trim(query)
  {
    var trimmed := Trim(query);
    if IsDangerousCommand(trimmed) then Blocked(SqliteResult(false, "", Some(BlockedMessage)))
    else Forward(trimmed)
  }

  /** Whether the guard blocks does not depend on surrounding white space or letter case. */
  lemma GuardBlocksExactlyDangerous(query: string)
    ensures Guard(query).Blocked? <==> IsDangerousCommand(query)
    ensures Guard(query).Blocked? <==> Guard(Lower(query)).Blocked?
  {
    DangerSurvivesTrim(query);
    DangerSurvivesTrim(Lower(query));
    DangerIgnoresCase(query);
  }
}
