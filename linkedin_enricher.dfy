/**
 * The enrichment side: the comparison keys used for deduplication (the
 * LinkedIn URL key and the name key), this module's `extract_and_check`
 * and the URL-based ingestion of new LinkedIn companies. The name-based
 * merge pass of the same source file is module LinkedinMerge.
 */
module LinkedinEnricher {
  import opened Optional
  import opened Text
  import opened Records
  import LinkedinParser

  // ----- normalize_linkedin_url -----

  const LinkedinDomain: string := "linkedin.com/"

  /**
   * `normalize_linkedin_url`: no key for a missing or empty URL; otherwise
   * strip every trailing "/", and keep the first piece after "linkedin.com/"
   * when the URL contains it.
   */
  function NormalizeLinkedinUrl(url: Option<string>): (key: Option<string>)
    ensures key.None? <==> url.None? || url.value == ""
    ensures key.Some? ==> !Contains(key.value, LinkedinDomain)
  {
    if url.None? || url.value == "" then None
    else
      var stripped := RStrip(url.value, '/');
      var parts := Split(stripped, LinkedinDomain);
      SplitPieceHasNoSep(stripped, LinkedinDomain);
      if |parts| > 1 then Some(parts[1]) else Some(stripped)
  }

  /**
   * The key of a URL is the text between the first "linkedin.com/" and the
   * next one (or the end), after stripping trailing slashes; the whole
   * stripped URL when it does not contain "linkedin.com/".
   */
  lemma {:induction false} UrlKeyBetweenOccurrences(url: string)
    requires url != ""
    ensures var s := RStrip(url, '/');
      NormalizeLinkedinUrl(Some(url)) == match FindFrom(s, LinkedinDomain, 0)
        case None => Some(s)
        case Some(i) =>
          var start := i + |LinkedinDomain|;
          match FindFrom(s, LinkedinDomain, start)
          case None => Some(s[start..])
          case Some(j) => Some(s[start..j])
  {
    var s := RStrip(url, '/');
    var parts := Split(s, LinkedinDomain);
    assert NormalizeLinkedinUrl(Some(url)) == if |parts| > 1 then Some(parts[1]) else Some(s);
    if FindFrom(s, LinkedinDomain, 0).Some? {
      SplitSecondPiece(s, LinkedinDomain);
    } else {
      assert parts == [s];
    }
  }

  function Slashes(k: nat): string
  {
    seq(k, _ => '/')
  }

  lemma {:induction false} RStripSlashes(s: string, k: nat)
    requires s != [] && s[|s| - 1] != '/'
    ensures RStrip(s + Slashes(k), '/') == s
  {
    if k > 0 {
      assert (s + Slashes(k))[..|s| + k - 1] == s + Slashes(k - 1);
      RStripSlashes(s, k - 1);
    } else {
      assert s + Slashes(0) == s;
    }
  }

  /**
   * Any scheme or host in front of "linkedin.com/" and any number of
   * trailing slashes give the same key: the company path.
   */
  lemma {:induction false} UrlKeyOfProfile(prefix: string, path: string, k: nat)
    requires FindFrom(prefix + LinkedinDomain, LinkedinDomain, 0) == Some(|prefix|)
    requires path != [] && path[|path| - 1] != '/' && !Contains(path, LinkedinDomain)
    ensures NormalizeLinkedinUrl(Some(prefix + LinkedinDomain + path + Slashes(k))) == Some(path)
  {
    var d := LinkedinDomain;
    var s := prefix + d + path;
    assert s[|s| - 1] == path[|path| - 1];
    RStripSlashes(s, k);
    UrlKeyBetweenOccurrences(s + Slashes(k));
    assert s == (prefix + d) + path;
    FindFromExtend(prefix + d, path, d, 0);
    assert s[|prefix| + |d|..] == path;
    FindFromSuffix(s, d, |prefix| + |d|);
  }

  /** An example: with or without scheme, host and trailing slash, one key. */
  lemma {:induction false} UrlKeyExample()
    ensures NormalizeLinkedinUrl(Some("https://www.linkedin.com/company/acme/"))
         == NormalizeLinkedinUrl(Some("linkedin.com/company/acme"))
         == Some("company/acme")
  {
    UrlKeyOfFullUrl();
    UrlKeyOfBareUrl();
  }

  lemma {:induction false} UrlKeyOfFullUrl()
    ensures NormalizeLinkedinUrl(Some("https://www.linkedin.com/company/acme/")) == Some("company/acme")
  {
    var d, path, p := LinkedinDomain, "company/acme", "https://www.";
    assert p + d + path + Slashes(1) == "https://www.linkedin.com/company/acme/" by {
      assert Slashes(1) == "/";
    }
    assert d[0] == 'l' && 'l' !in path && 'l' !in p;
    NotContainsWithoutFirst(path, d);
    FoundAfterPrefix(p, d);
    UrlKeyOfProfile(p, path, 1);
  }

  lemma {:induction false} UrlKeyOfBareUrl()
    ensures NormalizeLinkedinUrl(Some("linkedin.com/company/acme")) == Some("company/acme")
  {
    var d, path := LinkedinDomain, "company/acme";
    assert d[0] == 'l' && 'l' !in path;
    NotContainsWithoutFirst(path, d);
    FoundAfterPrefix("", d);
    assert "" + d + path + Slashes(0) == "linkedin.com/company/acme" by {
      assert Slashes(0) == [];
      assert "" + d == d;
    }
    UrlKeyOfProfile("", path, 0);
  }

  // ----- normalize_name -----

  /** The characters a name key consists of. */
  predicate IsKeyChar(c: char)
  {
    'a' <= c <= 'z' || '0' <= c <= '9'
  }

  /**
   * Where the lazy group `\(.*?\)` opened before index `i` closes: at the
   * first ")" from `i` on, provided no newline (which `.` does not match)
   * comes first.
   */
  function GroupEnd(s: string, i: nat): (r: Option<nat>)
    requires i <= |s|
    ensures r.Some? ==> i <= r.value < |s| && s[r.value] == ')'
    decreases |s| - i
  {
    if i == |s| then None
    else if s[i] == ')' then Some(i)
    else if s[i] == '\n' then None
    else GroupEnd(s, i + 1)
  }

  /** `re.sub(r"\(.*?\)", "", s)`: remove every shortest parenthesised group, left to right. */
  function StripGroups(s: string): (r: string)
    ensures |r| <= |s|
    decreases |s|
  {
    if s == [] then []
    else if s[0] == '(' && GroupEnd(s, 1).Some? then StripGroups(s[GroupEnd(s, 1).value + 1..])
    else [s[0]] + StripGroups(s[1..])
  }

  /** `re.sub(r"[^a-z0-9]", "", s)` */
  function KeepKeyChars(s: string): (r: string)
    ensures |r| <= |s|
  {
    if s == [] then [] else (if IsKeyChar(s[0]) then [s[0]] else []) + KeepKeyChars(s[1..])
  }

  /**
   * `normalize_name`: "" for a missing or empty name; otherwise lower-case,
   * strip, drop parenthesised groups and keep only a-z and 0-9.
   */
  function NormalizeName(name: Option<string>): (key: string)
    ensures name.None? || name.value == "" ==> key == ""
  {
    if name.None? || name.value == "" then ""
    else KeepKeyChars(StripGroups(Strip(Lower(name.value))))
  }

  predicate AllKeyChars(s: string)
  {
    forall i :: 0 <= i < |s| ==> IsKeyChar(s[i])
  }

  /** Only `a`-`z` and `0`-`9` survive the filter. */
  lemma {:induction false} KeepKeyCharsAreKeyChars(s: string)
    ensures AllKeyChars(KeepKeyChars(s))
  {
    if s != [] {
      KeepKeyCharsAreKeyChars(s[1..]);
    }
  }

  /** A name key consists of key characters only. */
  lemma {:induction false} NameKeyChars(name: Option<string>)
    ensures AllKeyChars(NormalizeName(name))
  {
    if name.Some? && name.value != "" {
      KeepKeyCharsAreKeyChars(StripGroups(Strip(Lower(name.value))));
    }
  }

  lemma {:induction false} KeepKeyCharsConcat(a: string, b: string)
    ensures KeepKeyChars(a + b) == KeepKeyChars(a) + KeepKeyChars(b)
  {
    if a != [] {
      assert (a + b)[0] == a[0];
      assert (a + b)[1..] == a[1..] + b;
      KeepKeyCharsConcat(a[1..], b);
    } else {
      assert a + b == b;
    }
  }

  lemma {:induction false} KeepKeyCharsNone(s: string)
    requires forall i :: 0 <= i < |s| ==> !IsKeyChar(s[i])
    ensures KeepKeyChars(s) == ""
  {
    if s != [] {
      KeepKeyCharsNone(s[1..]);
    }
  }

  lemma {:induction false} KeepKeyCharsOfKey(s: string)
    requires AllKeyChars(s)
    ensures KeepKeyChars(s) == s
  {
    if s != [] {
      KeepKeyCharsOfKey(s[1..]);
    }
  }

  /** Text without "(" passes through the group removal unchanged. */
  lemma {:induction false} StripGroupsPrefix(w: string, y: string)
    requires forall i :: 0 <= i < |w| ==> w[i] != '('
    ensures StripGroups(w + y) == w + StripGroups(y)
  {
    if w != [] {
      assert (w + y)[0] == w[0];
      assert (w + y)[1..] == w[1..] + y;
      StripGroupsPrefix(w[1..], y);
    } else {
      assert w + y == y;
    }
  }

  lemma {:induction false} GroupEndNoClose(s: string, i: nat)
    requires i <= |s|
    requires forall k :: i <= k < |s| ==> s[k] != ')'
    ensures GroupEnd(s, i).None?
    decreases |s| - i
  {
    if i < |s| {
      GroupEndNoClose(s, i + 1);
    }
  }

  lemma {:induction false} GroupEndAppend(y: string, w: string, i: nat)
    requires i <= |y|
    requires forall k :: 0 <= k < |w| ==> w[k] != ')'
    ensures GroupEnd(y + w, i) == GroupEnd(y, i)
    decreases |y| - i
  {
    if i < |y| {
      assert (y + w)[i] == y[i];
      GroupEndAppend(y, w, i + 1);
    } else {
      forall k | i <= k < |y + w| ensures (y + w)[k] != ')' {
        assert (y + w)[k] == w[k - |y|];
      }
      GroupEndNoClose(y + w, i);
    }
  }

  /** Text without parentheses after the last group does not change what is removed. */
  lemma {:induction false} StripGroupsSuffix(y: string, w: string)
    requires forall k :: 0 <= k < |w| ==> w[k] != ')' && w[k] != '('
    ensures StripGroups(y + w) == StripGroups(y) + w
    decreases |y|
  {
    if y == [] {
      StripGroupsPrefix(w, []);
      assert y + w == w + [] == w;
    } else {
      var head, rest := SuffixStep(y, w);
      StripGroupsSuffix(rest, w);
    }
  }

  /**
   * One step of the group removal on `y` is the same step on `y + w`: both
   * keep the same `head` and go on with the same `rest`.
   */
  lemma {:induction false} SuffixStep(y: string, w: string) returns (head: string, rest: string)
    requires forall k :: 0 <= k < |w| ==> w[k] != ')'
    requires y != []
    ensures |rest| < |y|
    ensures StripGroups(y + w) == head + StripGroups(rest + w)
    ensures StripGroups(y) == head + StripGroups(rest)
  {
    if y[0] == '(' && GroupEnd(y, 1).Some? {
      head, rest := [], y[GroupEnd(y, 1).value + 1..];
      SuffixAfterGroup(y, w);
    } else {
      head, rest := [y[0]], y[1..];
      SuffixAfterChar(y, w);
    }
  }

  lemma {:induction false} DropAppend(y: string, w: string, i: nat)
    requires i <= |y|
    ensures (y + w)[i..] == y[i..] + w
  {
  }

  lemma {:induction false} GroupStep(s: string, e: nat)
    requires s != [] && s[0] == '(' && GroupEnd(s, 1) == Some(e)
    ensures StripGroups(s) == StripGroups(s[e + 1..])
  {
  }

  lemma {:induction false} CharStep(s: string)
    requires s != [] && !(s[0] == '(' && GroupEnd(s, 1).Some?)
    ensures StripGroups(s) == [s[0]] + StripGroups(s[1..])
  {
  }

  /** A leading group of `y` is still a leading group of `y + w`, and both strip it. */
  lemma {:induction false} SuffixAfterGroup(y: string, w: string)
    requires forall k :: 0 <= k < |w| ==> w[k] != ')'
    requires y != [] && y[0] == '(' && GroupEnd(y, 1).Some?
    ensures var e := GroupEnd(y, 1).value;
      StripGroups(y + w) == StripGroups(y[e + 1..] + w) && StripGroups(y) == StripGroups(y[e + 1..])
  {
    var e := GroupEnd(y, 1).value;
    var z := y + w;
    GroupEndAppend(y, w, 1);
    assert z[0] == '(' && GroupEnd(z, 1) == Some(e);
    DropAppend(y, w, e + 1);
    GroupStep(z, e);
    GroupStep(y, e);
  }

  /** A leading character of `y` that starts no group starts none in `y + w` either. */
  lemma {:induction false} SuffixAfterChar(y: string, w: string)
    requires forall k :: 0 <= k < |w| ==> w[k] != ')'
    requires y != [] && !(y[0] == '(' && GroupEnd(y, 1).Some?)
    ensures StripGroups(y + w) == [y[0]] + StripGroups(y[1..] + w)
    ensures StripGroups(y) == [y[0]] + StripGroups(y[1..])
  {
    var z := y + w;
    assert z[0] == y[0];
    if y[0] == '(' {
      GroupEndAppend(y, w, 1);
      assert GroupEnd(z, 1).None?;
    }
    DropAppend(y, w, 1);
    CharStep(z);
    CharStep(y);
  }

  lemma {:induction false} TrimStartSuffix(s: string)
    ensures |TrimStart(s)| <= |s| && TrimStart(s) == s[|s| - |TrimStart(s)|..]
    ensures forall k :: 0 <= k < |s| - |TrimStart(s)| ==> IsSpace(s[k])
  {
    if s != [] && IsSpace(s[0]) {
      TrimStartSuffix(s[1..]);
    }
  }

  lemma {:induction false} TrimEndPrefix(s: string)
    ensures |TrimEnd(s)| <= |s| && TrimEnd(s) == s[..|TrimEnd(s)|]
    ensures forall k :: |TrimEnd(s)| <= k < |s| ==> IsSpace(s[k])
  {
    if s != [] && IsSpace(s[|s| - 1]) {
      TrimEndPrefix(s[..|s| - 1]);
    }
  }

  /** White space is neither a key character nor a parenthesis. */
  lemma {:induction false} SpaceIsInert(s: string)
    requires forall k :: 0 <= k < |s| ==> IsSpace(s[k])
    ensures forall k :: 0 <= k < |s| ==> !IsKeyChar(s[k]) && s[k] != '(' && s[k] != ')'
  {
  }

  lemma {:induction false} LeadingSpaceDoesNotMatter(s: string)
    ensures KeepKeyChars(StripGroups(TrimStart(s))) == KeepKeyChars(StripGroups(s))
  {
    var t := TrimStart(s);
    TrimStartSuffix(s);
    var front := s[..|s| - |t|];
    assert s == front + t;
    SpaceIsInert(front);
    StripGroupsPrefix(front, t);
    KeepKeyCharsConcat(front, StripGroups(t));
    KeepKeyCharsNone(front);
  }

  lemma {:induction false} TrailingSpaceDoesNotMatter(t: string)
    ensures KeepKeyChars(StripGroups(TrimEnd(t))) == KeepKeyChars(StripGroups(t))
  {
    var u := TrimEnd(t);
    TrimEndPrefix(t);
    var back := t[|u|..];
    assert t == u + back;
    SpaceIsInert(back);
    StripGroupsSuffix(u, back);
    KeepKeyCharsConcat(StripGroups(u), back);
    KeepKeyCharsNone(back);
  }

  /** Stripping surrounding white space never changes a name key. */
  lemma {:induction false} StripDoesNotMatter(s: string)
    ensures KeepKeyChars(StripGroups(Strip(s))) == KeepKeyChars(StripGroups(s))
  {
    LeadingSpaceDoesNotMatter(s);
    TrailingSpaceDoesNotMatter(TrimStart(s));
  }

  lemma {:induction false} LowerConcat(a: string, b: string)
    ensures Lower(a + b) == Lower(a) + Lower(b)
  {
  }

  lemma {:induction false} NameKeyOfTrueName(s: string)
    requires s != ""
    ensures NormalizeName(Some(s)) == KeepKeyChars(StripGroups(Lower(s)))
  {
    StripDoesNotMatter(Lower(s));
  }

  /** The name key ignores letter case. */
  lemma {:induction false} NameKeyIgnoresCase(s: string)
    ensures NormalizeName(Some(Lower(s))) == NormalizeName(Some(s))
  {
    assert Lower(Lower(s)) == Lower(s);
  }

  /** Lower-casing never creates a character that is not a capital's image, such as a parenthesis. */
  lemma {:induction false} LowerKeepsAbsent(n: string, c: char)
    requires c !in n && !('a' <= c <= 'z')
    ensures forall i :: 0 <= i < |Lower(n)| ==> Lower(n)[i] != c
  {
    forall i | 0 <= i < |Lower(n)| ensures Lower(n)[i] != c {
      assert n[i] in n;
    }
  }

  /** A trailing annotation such as " (YC S25)" does not change the name key. */
  lemma {:induction false} NameKeyIgnoresAnnotation(n: string, t: string)
    requires '(' !in n && ')' !in t && '\n' !in t
    ensures NormalizeName(Some(n + " (" + t + ")")) == NormalizeName(Some(n))
  {
    var s := n + " (" + t + ")";
    var ln := Lower(n);
    NameKeyOfTrueName(s);
    AnnotatedKey(n, t);
    assert NormalizeName(Some(s)) == KeepKeyChars(ln);
    if n == "" {
      assert ln == "";
    } else {
      NameKeyOfTrueName(n);
      StripGroupsPrefix(ln, []);
      assert ln + [] == ln;
    }
  }

  /** With the annotation lower-cased and removed, what is left has the key of the lower-cased name. */
  lemma {:induction false} AnnotatedKey(n: string, t: string)
    requires '(' !in n && ')' !in t && '\n' !in t
    ensures KeepKeyChars(StripGroups(Lower(n + " (" + t + ")"))) == KeepKeyChars(Lower(n))
  {
    var ln, lt := Lower(n), Lower(t);
    var w, g := ln + " ", "(" + lt + ")";
    assert Lower(n + " (" + t + ")") == w + g by {
      LowerConcat(n, " (" + t + ")");
      LowerConcat(" (", t + ")");
      LowerConcat(t, ")");
    }
    LowerKeepsAbsent(n, '(');
    assert forall i :: 0 <= i < |w| ==> w[i] != '(' by {
      assert forall i :: 0 <= i < |ln| ==> w[i] == ln[i];
    }
    StripGroupsPrefix(w, g);
    LowerKeepsAbsent(t, ')');
    LowerKeepsAbsent(t, '\n');
    GroupVanishes(lt);
    assert w + [] == w;
    KeepKeyCharsConcat(ln, " ");
    assert KeepKeyChars(" ") == "";
    assert KeepKeyChars(ln) + "" == KeepKeyChars(ln);
  }

  /** A parenthesised text without ")" or a line break is removed entirely. */
  lemma {:induction false} GroupVanishes(lt: string)
    requires forall i :: 0 <= i < |lt| ==> lt[i] != ')' && lt[i] != '\n'
    ensures StripGroups("(" + lt + ")") == []
  {
    var g := "(" + lt + ")";
    assert GroupEnd(g, 1) == Some(|lt| + 1) by {
      forall i | 1 <= i < |lt| + 1 ensures g[i] != ')' && g[i] != '\n' {
        assert g[i] == lt[i - 1];
      }
      GroupEndAcross(g, 1, |lt| + 1);
    }
    assert g[|lt| + 2..] == [];
    GroupStep(g, |lt| + 1);
  }

  lemma {:induction false} GroupEndAcross(s: string, i: nat, e: nat)
    requires i <= e < |s| && s[e] == ')'
    requires forall k :: i <= k < e ==> s[k] != ')' && s[k] != '\n'
    ensures GroupEnd(s, i) == Some(e)
    decreases e - i
  {
    if i < e {
      GroupEndAcross(s, i + 1, e);
    }
  }

  /** A key is its own key. */
  lemma {:induction false} KeyIsFixedPoint(k: string)
    requires AllKeyChars(k)
    ensures NormalizeName(Some(k)) == k
  {
    if k != "" {
      assert Lower(k) == k;
      NameKeyOfTrueName(k);
      StripGroupsPrefix(k, []);
      assert k + [] == k;
      KeepKeyCharsOfKey(k);
    }
  }

  /** `normalize_name` is idempotent. */
  lemma {:induction false} NameKeyIdempotent(name: Option<string>)
    ensures NormalizeName(Some(NormalizeName(name))) == NormalizeName(name)
  {
    NameKeyChars(name);
    KeyIsFixedPoint(NormalizeName(name));
  }

  /** An example: an annotated name and the bare lower-case name share a key. */
  lemma {:induction false} NameKeyExample()
    ensures NormalizeName(Some("Acme (YC S25)")) == NormalizeName(Some("acme")) == "acme"
  {
    assert "Acme" + " (" + "YC S25" + ")" == "Acme (YC S25)";
    assert Lower("Acme") == "acme" by {
      assert LowerChar('A') == 'a';
    }
    assert AllKeyChars("acme");
    NameKeyIgnoresAnnotation("Acme", "YC S25");
    NameKeyIgnoresCase("Acme");
    KeyIsFixedPoint("acme");
  }

  // ----- extract_and_check -----

  /**
   * This module's `extract_and_check`: nothing unless the classifier found a
   * mention and both page requests answered; then a LinkedIn record whose
   * website is the about page's website element.
   */
  function ExtractAndCheck(url: string, net: Network): (r: Option<Record>)
    ensures r.None? <==>
      !LinkedinParser.MentionOf(net.check(url)).Mentioned? || net.profile(url).Raised? || net.about(url).Raised?
    ensures r.Some? ==>
      && r.value.linkedinUrl == Some(url) && r.value.ycProfileUrl.None? && r.value.source == "linkedin"
      && r.value.mentionsS25 == Some(true) && r.value.linkedinMatch.Some?
      && r.value.linkedinMatch == LinkedinParser.Evidence(LinkedinParser.MentionOf(net.check(url)))
    ensures r.Some? ==> net.profile(url).Response? && net.about(url).Response?
    ensures r.Some? && net.profile(url).Response? && net.about(url).Response? ==>
      var page := net.profile(url).page;
      && r.value.name == Some(if page.tagline.Some? then page.tagline.value else "Unknown")
      && r.value.description == (if page.fullDesc.Some? then page.fullDesc.value
                                 else if page.shortDesc.Some? then page.shortDesc.value else "")
      && r.value.website == net.about(url).page.website
  {
    var m := LinkedinParser.MentionOf(net.check(url));
    if !m.Mentioned? then None
    else match net.profile(url)
      case Raised => None
      case Response(_, page) =>
        match net.about(url)
        case Raised => None
        case Response(_, about) => Some(LinkedinParser.ProfileRecord(url, page, about.website, m))
  }

  function FetchStep(net: Network): string -> Option<Record>
  {
    u => ExtractAndCheck(u, net)
  }

  // ----- add_new_linkedin_companies -----

  /** The URL keys of the loaded records that have a LinkedIn URL. */
  function ExistingLinks(companies: seq<Record>): set<string>
  {
    set r | r in companies && Truthy(r.linkedinUrl) :: NormalizeLinkedinUrl(r.linkedinUrl).value
  }

  /** A candidate is skipped when its URL key is in the link set. */
  predicate Skipped(links: set<string>, url: string)
  {
    var key := NormalizeLinkedinUrl(Some(url));
    key.Some? && key.value in links
  }

  /** The loop's state: the link set, the URLs fetched so far and the records appended so far. */
  datatype Ingestion = Ingestion(links: set<string>, calls: seq<string>, added: seq<Record>)

  /** One iteration as written: compare by key, but add the raw URL to the set. */
  function IngestStep(st: Ingestion, url: string, net: Network): Ingestion
  {
    if Skipped(st.links, url) then st
    else match ExtractAndCheck(url, net)
      case None => st.(calls := st.calls + [url])
      case Some(r) => Ingestion(st.links + {url}, st.calls + [url], st.added + [r])
  }

  function Ingest(links: set<string>, urls: seq<string>, net: Network): Ingestion
  {
    if urls == [] then Ingestion(links, [], [])
    else IngestStep(Ingest(links, urls[..|urls| - 1], net), urls[|urls| - 1], net)
  }

  /** `a` is `b` with some entries dropped and the rest kept in order. */
  predicate SubsequenceOf<T(==)>(a: seq<T>, b: seq<T>)
    decreases |b|
  {
    if b == [] then a == []
    else
      || SubsequenceOf(a, b[..|b| - 1])
      || (a != [] && a[|a| - 1] == b[|b| - 1] && SubsequenceOf(a[..|a| - 1], b[..|b| - 1]))
  }

  /**
   * The loop's outcome: the fetched URLs are candidates taken in candidate
   * order; the appended records are the fetch results for the
   * fetched URLs, in order; no fetched URL's key was among the loaded
   * records' keys; every appended record is a confirmed mention; and the
   * set grew by exactly the raw URLs of the appended records.
   */
  lemma {:induction false} IngestOutcome(links: set<string>, urls: seq<string>, net: Network)
    ensures var st := Ingest(links, urls, net);
      && SubsequenceOf(st.calls, urls)
      && st.added == Collected(st.calls, FetchStep(net))
      && (forall u :: u in st.calls ==> u in urls && !Skipped(links, u))
      && (forall r :: r in st.added ==> r.mentionsS25 == Some(true) && r.linkedinMatch.Some? && r.linkedinUrl.Some?)
      && st.links == links + AppendedUrls(st.added)
  {
    if urls != [] {
      var n := |urls|;
      var st0 := Ingest(links, urls[..n - 1], net);
      IngestOutcome(links, urls[..n - 1], net);
      var url := urls[n - 1];
      assert forall u :: u in urls[..n - 1] ==> u in urls;
      if !Skipped(st0.links, url) {
        assert !Skipped(links, url) by {
          assert links <= st0.links;
        }
        FetchedStep(links, st0, url, net);
        assert (st0.calls + [url])[..|st0.calls|] == st0.calls;
      }
    }
  }

  /** The raw LinkedIn URLs of appended records. */
  function AppendedUrls(added: seq<Record>): set<string>
  {
    set r | r in added && r.linkedinUrl.Some? :: r.linkedinUrl.value
  }

  /** Fetching one more candidate extends the calls, the appended records and the set in step. */
  lemma {:induction false} FetchedStep(links: set<string>, st: Ingestion, url: string, net: Network)
    requires st.added == Collected(st.calls, FetchStep(net))
    requires st.links == links + AppendedUrls(st.added)
    requires !Skipped(st.links, url)
    ensures var next := IngestStep(st, url, net);
      && next.calls == st.calls + [url]
      && next.added == Collected(next.calls, FetchStep(net))
      && next.links == links + AppendedUrls(next.added)
  {
    assert (st.calls + [url])[..|st.calls|] == st.calls;
    assert FetchStep(net)(url) == ExtractAndCheck(url, net);
    match ExtractAndCheck(url, net)
    case None =>
    case Some(r) =>
      assert AppendedUrls(st.added + [r]) == AppendedUrls(st.added) + {url} by {
        assert forall x :: x in st.added + [r] <==> x in st.added || x == r;
      }
  }

  /**
   * `add_new_linkedin_companies` after loading: skip every candidate whose
   * key is in the set, fetch the others, append what the fetch returns and
   * record its raw URL in the set.
   */
  method AddNewLinkedinCompanies(companies: seq<Record>, urls: seq<string>, net: Network)
    returns (result: seq<Record>, newEntries: seq<Record>, calls: seq<string>)
    ensures calls == Ingest(ExistingLinks(companies), urls, net).calls
    ensures newEntries == Ingest(ExistingLinks(companies), urls, net).added
    ensures result == companies + newEntries
  {
    var existingLinks := set r | r in companies && Truthy(r.linkedinUrl) :: NormalizeLinkedinUrl(r.linkedinUrl).value;
    result, newEntries, calls := companies, [], [];
    var i := 0;
    while i < |urls|
      invariant 0 <= i <= |urls|
      invariant Ingest(ExistingLinks(companies), urls[..i], net) == Ingestion(existingLinks, calls, newEntries)
      invariant result == companies + newEntries
    {
      var url := urls[i];
      assert urls[..i + 1][..i] == urls[..i];
      var normalized := NormalizeLinkedinUrl(Some(url));
      if !(normalized.Some? && normalized.value in existingLinks) {
        var data := ExtractAndCheck(url, net);
        calls := calls + [url];
        if data.Some? {
          result := result + [data.value];
          newEntries := newEntries + [data.value];
          existingLinks := existingLinks + {url};
        }
      }
      i := i + 1;
    }
    assert urls[..i] == urls;
  }

  // ----- the link set as written and as intended -----

  /**
   * The set grows by the raw URL while candidates are compared by key, so a
   * profile URL whose key differs from itself is fetched and appended again
   * when it comes up a second time.
   */
  lemma {:induction false} IngestRefetchesRepeatedUrl(net: Network)
    requires ExtractAndCheck("https://www.linkedin.com/company/acme/", net).Some?
    ensures var u := "https://www.linkedin.com/company/acme/";
      var st := Ingest({}, [u, u], net);
      st.calls == [u, u] && |st.added| == 2 && st.added[0] == st.added[1]
  {
    var u := "https://www.linkedin.com/company/acme/";
    assert "company/acme" != u by {
      assert |"company/acme"| != |u|;
    }
    UrlKeyOfFullUrl();
    RepeatedCandidate(u, "company/acme", net);
  }

  /** A fetched candidate whose key is not the URL itself is fetched again when it repeats. */
  lemma {:induction false} RepeatedCandidate(u: string, key: string, net: Network)
    requires NormalizeLinkedinUrl(Some(u)) == Some(key) && key != u
    requires ExtractAndCheck(u, net).Some?
    ensures var st := Ingest({}, [u, u], net);
      st.calls == [u, u] && |st.added| == 2 && st.added[0] == st.added[1]
  {
    var r := ExtractAndCheck(u, net).value;
    FirstCandidate(u, net);
    var first := Ingestion({u}, [u], [r]);
    assert [u, u][..1] == [u];
    assert !Skipped(first.links, u);
    assert Ingest({}, [u, u], net) == IngestStep(first, u, net);
  }

  /** The first candidate on an empty set is fetched, appended and its raw URL recorded. */
  lemma {:induction false} FirstCandidate(u: string, net: Network)
    requires ExtractAndCheck(u, net).Some?
    ensures Ingest({}, [u], net) == Ingestion({u}, [u], [ExtractAndCheck(u, net).value])
  {
    assert [u][..0] == [];
    assert !Skipped({}, u);
  }

  /** The URL key a record's LinkedIn URL has. */
  function UrlKey(r: Record): Option<string>
  {
    NormalizeLinkedinUrl(r.linkedinUrl)
  }

  /** The key of a candidate URL as a set: empty when there is none. */
  function KeyOf(url: string): set<string>
  {
    var key := NormalizeLinkedinUrl(Some(url));
    if key.Some? then {key.value} else {}
  }

  /** One iteration as evidently intended: compare by key and add the key to the set. */
  function IngestStepFixed(st: Ingestion, url: string, net: Network): Ingestion
  {
    if Skipped(st.links, url) then st
    else match ExtractAndCheck(url, net)
      case None => st.(calls := st.calls + [url])
      case Some(r) => Ingestion(st.links + KeyOf(url), st.calls + [url], st.added + [r])
  }

  function IngestFixed(links: set<string>, urls: seq<string>, net: Network): Ingestion
  {
    if urls == [] then Ingestion(links, [], [])
    else IngestStepFixed(IngestFixed(links, urls[..|urls| - 1], net), urls[|urls| - 1], net)
  }

  /** The keys of the appended records. */
  function AddedKeys(added: seq<Record>): set<string>
  {
    set r | r in added && UrlKey(r).Some? :: UrlKey(r).value
  }

  /** What the intended link set keeps: one key per appended record, none of them loaded. */
  ghost predicate KeysOnce(links: set<string>, st: Ingestion)
  {
    && st.links == links + AddedKeys(st.added)
    && (forall a :: 0 <= a < |st.added| && UrlKey(st.added[a]).Some? ==> UrlKey(st.added[a]).value !in links)
    && (forall a, b :: 0 <= a < b < |st.added| && UrlKey(st.added[a]).Some? ==> UrlKey(st.added[a]) != UrlKey(st.added[b]))
  }

  /** Appending a record whose key is not yet in the set keeps KeysOnce. */
  lemma {:induction false} AppendFreshKey(links: set<string>, st: Ingestion, url: string, r: Record)
    requires KeysOnce(links, st) && !Skipped(st.links, url)
    requires UrlKey(r) == NormalizeLinkedinUrl(Some(url))
    ensures KeysOnce(links, Ingestion(st.links + KeyOf(url), st.calls + [url], st.added + [r]))
  {
    var added := st.added + [r];
    assert AddedKeys(added) == AddedKeys(st.added) + KeyOf(url) by {
      assert forall x :: x in added <==> x in st.added || x == r;
    }
    forall a | 0 <= a < |st.added| && UrlKey(added[a]).Some?
      ensures UrlKey(added[a]) != UrlKey(r)
    {
      assert added[a] == st.added[a];
      assert UrlKey(st.added[a]).value in AddedKeys(st.added);
    }
  }

  /**
   * With the key added to the set, no appended record repeats the key of a
   * loaded record or of an earlier appended record.
   */
  lemma {:induction false} IngestFixedAddsEachKeyOnce(links: set<string>, urls: seq<string>, net: Network)
    ensures KeysOnce(links, IngestFixed(links, urls, net))
  {
    if urls != [] {
      var n := |urls|;
      var st0 := IngestFixed(links, urls[..n - 1], net);
      IngestFixedAddsEachKeyOnce(links, urls[..n - 1], net);
      var url := urls[n - 1];
      if !Skipped(st0.links, url) {
        match ExtractAndCheck(url, net)
        case None =>
        case Some(r) =>
          AppendFreshKey(links, st0, url, r);
      }
    }
  }
}
