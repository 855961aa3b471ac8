/**
 * The few Python string operations the reconciliation code relies on:
 * `str.lower`, `str.strip`, `str.rstrip(c)`, the substring test `pat in s`
 * and `str.split(sep)`.
 */
module Text {
  import opened Optional

  /** `str.lower` on one character; only ASCII letters are mapped. */
  function LowerChar(c: char): char
  {
    if 'A' <= c <= 'Z' then (c as int + 32) as char else c
  }

  function Lower(s: string): string
  {
    seq(|s|, i requires 0 <= i < |s| => LowerChar(s[i]))
  }

  /** The characters for which Python's `str.isspace` holds. */
  predicate IsSpace(c: char)
  {
    c == ' ' || '\t' <= c <= '\r' || '\U{1C}' <= c <= '\U{1F}' || c == '\U{85}' || c == '\U{A0}'
    || c == '\U{1680}' || '\U{2000}' <= c <= '\U{200A}' || c == '\U{2028}' || c == '\U{2029}'
    || c == '\U{202F}' || c == '\U{205F}' || c == '\U{3000}'
  }

  function TrimStart(s: string): string
  {
    if s != [] && IsSpace(s[0]) then TrimStart(s[1..]) else s
  }

  function TrimEnd(s: string): string
  {
    if s != [] && IsSpace(s[|s| - 1]) then TrimEnd(s[..|s| - 1]) else s
  }

  /** `str.strip()` with no argument. */
  function Strip(s: string): string
  {
    TrimEnd(TrimStart(s))
  }

  /** `str.rstrip(c)` for a single character: every trailing `c` goes. */
  function RStrip(s: string, c: char): (r: string)
    ensures r <= s
    ensures r == [] || r[|r| - 1] != c
    ensures forall k :: |r| <= k < |s| ==> s[k] == c
  {
    if s != [] && s[|s| - 1] == c then RStrip(s[..|s| - 1], c) else s
  }

  /** `pat` occurs in `s` starting at index `i`. */
  predicate IsAt(s: string, pat: string, i: nat)
  {
    i + |pat| <= |s| && s[i..i + |pat|] == pat
  }

  /** `s.find(pat, i)`: the first occurrence of `pat` at or after `i`. */
  function FindFrom(s: string, pat: string, i: nat): (r: Option<nat>)
    requires i <= |s|
    ensures r.Some? ==> i <= r.value <= |s| && IsAt(s, pat, r.value)
    decreases |s| - i
  {
    if IsAt(s, pat, i) then Some(i)
    else if i == |s| then None
    else FindFrom(s, pat, i + 1)
  }

  /** `find` answers the least index from `i` on where `pat` occurs, or "none" when there is none. */
  lemma {:induction false} FindFromSpec(s: string, pat: string, i: nat)
    requires i <= |s|
    ensures var r := FindFrom(s, pat, i);
      && (r.Some? ==> IsAt(s, pat, r.value) && forall k :: i <= k < r.value ==> !IsAt(s, pat, k))
      && (r.None? ==> forall k :: i <= k <= |s| ==> !IsAt(s, pat, k))
    decreases |s| - i
  {
    if !IsAt(s, pat, i) && i < |s| {
      FindFromSpec(s, pat, i + 1);
    }
  }

  /** Text appended after an occurrence does not move the first occurrence. */
  lemma {:induction false} FindFromExtend(a: string, b: string, pat: string, i: nat)
    requires i <= |a| && FindFrom(a, pat, i).Some?
    ensures FindFrom(a + b, pat, i) == FindFrom(a, pat, i)
    decreases |a| - i
  {
    if IsAt(a, pat, i) {
      assert (a + b)[i..i + |pat|] == a[i..i + |pat|];
    } else {
      FindFromExtend(a, b, pat, i + 1);
      var r := FindFrom(a, pat, i + 1).value;
      assert i + |pat| <= |a| && (a + b)[i..i + |pat|] == a[i..i + |pat|];
    }
  }

  /** Text without the first character of `pat` does not contain `pat`. */
  lemma {:induction false} NotContainsWithoutFirst(s: string, pat: string)
    requires pat != [] && pat[0] !in s
    ensures !Contains(s, pat)
  {
    forall k | 0 <= k <= |s| ensures !IsAt(s, pat, k) {
      if k + |pat| <= |s| {
        assert s[k..k + |pat|][0] == s[k];
        assert s[k] in s;
      }
    }
    FindFromSpec(s, pat, 0);
  }

  /** `pat` after text without its first character is first found right after that text. */
  lemma {:induction false} FoundAfterPrefix(p: string, pat: string)
    requires pat != [] && pat[0] !in p
    ensures FindFrom(p + pat, pat, 0) == Some(|p|)
  {
    var s := p + pat;
    forall j | 0 <= j < |p| ensures !IsAt(s, pat, j) {
      assert s[j] == p[j];
    }
    assert s[|p|..|p| + |pat|] == pat;
    FindFromIsLeast(s, pat, 0, |p|);
  }

  /** Python's `pat in s`. */
  predicate Contains(s: string, pat: string)
  {
    FindFrom(s, pat, 0).Some?
  }

  /** `s.split(sep)`: the pieces between non-overlapping occurrences, left to right. */
  function Split(s: string, sep: string): (parts: seq<string>)
    requires sep != ""
    ensures |parts| >= 1
    decreases |s|
  {
    match FindFrom(s, sep, 0)
    case None => [s]
    case Some(i) => [s[..i]] + Split(s[i + |sep|..], sep)
  }

  /** The first occurrence at or after `i` is the least index there at which `pat` occurs. */
  lemma {:induction false} FindFromIsLeast(s: string, pat: string, i: nat, j: nat)
    requires i <= j <= |s| && IsAt(s, pat, j)
    requires forall k :: i <= k < j ==> !IsAt(s, pat, k)
    ensures FindFrom(s, pat, i) == Some(j)
  {
    FindFromSpec(s, pat, i);
  }

  /** An occurrence makes `pat in s` true. */
  lemma {:induction false} ContainsAt(s: string, pat: string, k: nat)
    requires IsAt(s, pat, k)
    ensures Contains(s, pat)
  {
    FindFromSpec(s, pat, 0);
  }

  lemma {:induction false} IsAtShift(s: string, pat: string, a: nat, k: nat)
    requires a <= |s|
    ensures IsAt(s[a..], pat, k) <==> IsAt(s, pat, a + k)
  {
    if a + k + |pat| <= |s| {
      assert s[a..][k..k + |pat|] == s[a + k..a + k + |pat|];
    }
  }

  /** Searching a suffix is searching the whole string from where the suffix starts. */
  lemma {:induction false} FindFromSuffix(s: string, pat: string, a: nat)
    requires a <= |s|
    ensures FindFrom(s[a..], pat, 0).None? <==> FindFrom(s, pat, a).None?
    ensures FindFrom(s[a..], pat, 0).Some? ==> FindFrom(s, pat, a) == Some(a + FindFrom(s[a..], pat, 0).value)
  {
    var t := s[a..];
    if FindFrom(t, pat, 0).Some? {
      FoundInSuffix(s, pat, a, FindFrom(t, pat, 0).value);
    } else if FindFrom(s, pat, a).Some? {
      FoundInWhole(s, pat, a, FindFrom(s, pat, a).value);
    }
  }

  /** A first occurrence in the suffix from `a` is the first occurrence in `s` from `a`. */
  lemma {:induction false} FoundInSuffix(s: string, pat: string, a: nat, j: nat)
    requires a <= |s| && FindFrom(s[a..], pat, 0) == Some(j)
    ensures FindFrom(s, pat, a) == Some(a + j)
  {
    FindFromSpec(s[a..], pat, 0);
    IsAtShift(s, pat, a, j);
    forall k | a <= k < a + j ensures !IsAt(s, pat, k) {
      IsAtShift(s, pat, a, k - a);
    }
    FindFromIsLeast(s, pat, a, a + j);
  }

  /** An occurrence in `s` from `a` on is one in the suffix from `a`. */
  lemma {:induction false} FoundInWhole(s: string, pat: string, a: nat, j: nat)
    requires a <= |s| && FindFrom(s, pat, a) == Some(j)
    ensures FindFrom(s[a..], pat, 0).Some?
  {
    IsAtShift(s, pat, a, j - a);
    ContainsAt(s[a..], pat, j - a);
  }

  lemma {:induction false} IsAtPrefix(s: string, pat: string, j: nat, k: nat)
    requires j <= |s| && IsAt(s[..j], pat, k)
    ensures IsAt(s, pat, k) && k + |pat| <= j
  {
    assert s[..j][k..k + |pat|] == s[k..k + |pat|];
  }

  /** The piece `split` yields after the first occurrence runs up to the next occurrence. */
  lemma {:induction false} SplitSecondPiece(s: string, sep: string)
    requires sep != "" && FindFrom(s, sep, 0).Some?
    ensures var i := FindFrom(s, sep, 0).value + |sep|;
      i <= |s| && |Split(s, sep)| > 1 &&
      Split(s, sep)[1] == match FindFrom(s, sep, i)
                          case None => s[i..]
                          case Some(j) => s[i..j]
  {
    var i0 := FindFrom(s, sep, 0).value;
    var i := i0 + |sep|;
    var rest := s[i..];
    var tail := Split(rest, sep);
    assert Split(s, sep) == [s[..i0]] + tail;
    FindFromSuffix(s, sep, i);
    match FindFrom(rest, sep, 0)
    case None =>
      assert tail == [rest];
    case Some(j) =>
      assert tail[0] == rest[..j];
      assert rest[..j] == s[i..i + j];
  }

  /** The text between an occurrence and the next one does not contain the separator. */
  lemma {:induction false} PieceBeforeNext(s: string, sep: string, i: nat, j: nat)
    requires sep != "" && i <= |s| && FindFrom(s, sep, i) == Some(j)
    ensures !Contains(s[i..j], sep)
  {
    var p := s[i..j];
    if Contains(p, sep) {
      var k := FindFrom(p, sep, 0).value;
      assert p[k..k + |sep|] == s[i + k..i + k + |sep|];
      EarlierOccurrence(s, sep, i, j, i + k);
    }
  }

  /** No occurrence lies between `i` and the first occurrence from `i`. */
  lemma {:induction false} EarlierOccurrence(s: string, sep: string, i: nat, j: nat, k: nat)
    requires i <= |s| && FindFrom(s, sep, i) == Some(j)
    requires i <= k < j
    ensures !IsAt(s, sep, k)
  {
    FindFromSpec(s, sep, i);
  }

  /** Neither the second piece of a split nor a string that does not split contains the separator. */
  lemma {:induction false} SplitPieceHasNoSep(s: string, sep: string)
    requires sep != ""
    ensures |Split(s, sep)| > 1 ==> !Contains(Split(s, sep)[1], sep)
    ensures |Split(s, sep)| == 1 ==> !Contains(s, sep)
  {
    match FindFrom(s, sep, 0)
    case None =>
    case Some(i0) =>
      SplitSecondPiece(s, sep);
      var i := i0 + |sep|;
      FindFromSuffix(s, sep, i);
      var piece := Split(s, sep)[1];
      match FindFrom(s, sep, i)
      case None =>
        assert piece == s[i..];
      case Some(j) =>
        assert piece == s[i..j];
        PieceBeforeNext(s, sep, i, j);
  }
}
