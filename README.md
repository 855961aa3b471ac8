# LinkedIn record reconciliation, modelled in Dafny

This project models the record-reconciliation core of a small scraper. The
scraper collects Y Combinator Summer 2025 companies from a YC directory and
from LinkedIn, and keeps them in one JSON list. The model covers:

- **The classifier** (`linkedin_check_yc_mention`). It fetches a LinkedIn
  company page and scans the title, the short description and the full
  description in that order. The first block that mentions both a YC tag and
  an S25 tag is reported as evidence. The verdict is unknown when the request
  fails or answers something other than HTTP 200. It is "not mentioned" when
  no block matches.
- **Enrichment** (`enrich_all_from_json`). Every record that has a LinkedIn
  URL and no verdict yet is classified, and a verdict is stored when the
  classifier reached one. The stores are counted.
- **Ingestion.** Both modules have their own `extract_and_check` and
  `add_new_linkedin_companies`. Candidate LinkedIn URLs are skipped when a
  loaded record already has them. Otherwise the profile is fetched and the
  resulting record is appended.
  - The parser module compares raw URLs.
  - The enricher module compares *URL keys*: the part after `linkedin.com/`,
    with trailing slashes removed. It then adds the raw URL to its set.
- **Name keys** (`normalize_name`). A name is lowercased and stripped. Then
  every shortest parenthesised group is removed, and everything except
  `a`-`z` and `0`-`9` is dropped.
- **Merging** (`deduplicate_and_merge`). One pass over a copy of the list
  groups records by name key. The first record of a key is its *primary*.
  - A later record of the same key is a *secondary*. The three LinkedIn
    fields are backfilled into the record with a YC URL; `seen` may switch to
    the secondary. The secondary is then removed with `list.remove`, and the
    removal is counted.

Page contents, HTTP outcomes and the about page are supplied by a `Network`
value of three functions from URL to `Response`. The model does not perform
I/O and does not sleep.

## Files

- `optional.dfy`: the `Option` type.
- `text.dfy`: the Python string operations the core uses: lower, strip,
  rstrip, find, split and `in`.
- `config.dfy`: the tag lists.
- `records.dfy`: the company record, the mutable `Company` object and the
  network oracle.
- `linkedin_parser.dfy`: the classifier, enrichment and the parser module's
  ingestion.
- `linkedin_enricher.dfy`:
  - the URL key and the name key;
  - the enricher module's `extract_and_check` and ingestion;
  - the corrected ingestion.
- `linkedin_merge.dfy`: `deduplicate_and_merge`. It has two parts.
  - A specification works on identities: `heap[i]` is the current contents
    of the record that was at position `i`, `list` holds the identities still
    listed, and `seen` maps a key to its primary's identity.
  - An imperative method over `Company` objects is proved to follow that
    specification.
- `linkedin_merge_fixed.dfy`: the merge with its swap carried through. When
  the secondary takes over as primary (the comment "swap if secondary has YC
  profile" and `seen[norm] = secondary` at
  `app/parser/linkedin_enricher.py:176-184`), the old primary is dropped, and
  the losing record is removed by identity. It also holds the inputs that
  separate the two versions.

## Model

All sources are under `app/parser/`.

| member | source | states |
|---|---|---|
| Text.RStrip | app/parser/linkedin_enricher.py:77 | `rstrip("/")` gives a prefix of the input that does not end in `/`; every character removed is a `/` |
| Text.Split | app/parser/linkedin_enricher.py:77 | `split` always gives at least one piece |
| Text.FindFrom | app/parser/linkedin_enricher.py:77-78 | `find` from `i` answers an index at or after `i` where the pattern occurs, if any |
| Text.FindFromSpec | app/parser/linkedin_enricher.py:77-78 | `find` answers the least such index, and none only when the pattern does not occur from `i` on |
| Text.FindFromIsLeast | app/parser/linkedin_enricher.py:77-78 | the least index from `i` at which the pattern occurs is what `find` answers |
| Text.FindFromExtend | app/parser/linkedin_enricher.py:77-78 | appending text does not move an occurrence already found |
| Text.FindFromSuffix | app/parser/linkedin_enricher.py:77-78 | searching the suffix from `a` finds the same occurrence as searching the whole text from `a`, shifted by `a` |
| Text.NotContainsWithoutFirst | app/parser/linkedin_enricher.py:77 | text without the pattern's first character does not contain the pattern |
| Text.FoundAfterPrefix | app/parser/linkedin_enricher.py:77 | the pattern after text without its first character is first found right after that text |
| Text.SplitSecondPiece | app/parser/linkedin_enricher.py:77-78 | when the separator occurs, the second piece runs from after the first occurrence to the next one, or to the end |
| Text.PieceBeforeNext | app/parser/linkedin_enricher.py:77-78 | the text between an occurrence and the next one does not contain the separator |
| Text.SplitPieceHasNoSep | app/parser/linkedin_enricher.py:77-78 | the second piece of a split contains no separator; a single piece means the separator does not occur |
| Text.Lower | app/parser/linkedin_enricher.py:148 | defines `str.lower` on ASCII letters: `A`-`Z` map to `a`-`z`, every other character is kept |
| Text.IsSpace | app/parser/linkedin_enricher.py:148 | holds for exactly the characters Python's `str.isspace` accepts |
| Text.Strip | app/parser/linkedin_enricher.py:148 | defines `str.strip()`: leading and then trailing whitespace removed |
| Text.Contains | app/parser/linkedin_parser.py:40-41 | defines Python's `pat in s` through the first occurrence found by Text.FindFrom |
| LinkedinEnricher.NormalizeLinkedinUrl | app/parser/linkedin_enricher.py:74-78 | there is no key exactly when the URL is missing or empty; a key never contains `linkedin.com/` |
| LinkedinEnricher.UrlKeyBetweenOccurrences | app/parser/linkedin_enricher.py:77-78 | when the domain occurs, the key is the text between its first occurrence and the next one (or the end), after trailing slashes are removed |
| LinkedinEnricher.RStripSlashes | app/parser/linkedin_enricher.py:77 | `rstrip("/")` removes any number of trailing slashes, down to the last character that is not a slash |
| LinkedinEnricher.UrlKeyOfProfile | app/parser/linkedin_enricher.py:74-78 | a URL that reads prefix, `linkedin.com/`, a path without the domain and any number of trailing slashes has the path as its key, when the prefix holds no earlier occurrence of the domain |
| LinkedinEnricher.UrlKeyExample | app/parser/linkedin_enricher.py:74-78 | the full profile URL and the bare `linkedin.com/...` form have the same key |
| LinkedinEnricher.UrlKeyOfFullUrl | app/parser/linkedin_enricher.py:74-78 | `https://www.linkedin.com/company/acme/` has the key `company/acme` |
| LinkedinEnricher.UrlKeyOfBareUrl | app/parser/linkedin_enricher.py:74-78 | `linkedin.com/company/acme` has the key `company/acme` |
| LinkedinEnricher.GroupEnd | app/parser/linkedin_enricher.py:149 | where a lazy group match ends, if anywhere, is a `)` at or after its start |
| LinkedinEnricher.StripGroups | app/parser/linkedin_enricher.py:149 | removing the groups never lengthens the name |
| LinkedinEnricher.KeepKeyChars | app/parser/linkedin_enricher.py:150 | filtering never lengthens the text |
| LinkedinEnricher.KeepKeyCharsAreKeyChars | app/parser/linkedin_enricher.py:150 | only `a`-`z` and `0`-`9` remain |
| LinkedinEnricher.NormalizeName | app/parser/linkedin_enricher.py:145-147 | a missing or empty name has the empty key |
| LinkedinEnricher.NameKeyChars | app/parser/linkedin_enricher.py:145-151 | every name key consists of `a`-`z` and `0`-`9` only |
| LinkedinEnricher.KeepKeyCharsConcat | app/parser/linkedin_enricher.py:150 | filtering distributes over concatenation |
| LinkedinEnricher.KeepKeyCharsNone | app/parser/linkedin_enricher.py:150 | a string without key characters filters to the empty string |
| LinkedinEnricher.KeepKeyCharsOfKey | app/parser/linkedin_enricher.py:150 | a string of key characters is left unchanged |
| LinkedinEnricher.StripGroupsPrefix | app/parser/linkedin_enricher.py:149 | a prefix without `(` is kept unchanged in front of the stripped rest |
| LinkedinEnricher.GroupEndNoClose | app/parser/linkedin_enricher.py:149 | with no `)` after the `(`, there is no group: the `(` stays |
| LinkedinEnricher.GroupEndAppend | app/parser/linkedin_enricher.py:149 | appending text without `)` does not change whether or where a group ends |
| LinkedinEnricher.StripGroupsSuffix | app/parser/linkedin_enricher.py:149 | a suffix without parentheses survives group removal unchanged |
| LinkedinEnricher.GroupEndAcross | app/parser/linkedin_enricher.py:149 | a group ends at the first `)` when nothing before it is a `)` or a newline |
| LinkedinEnricher.SuffixStep | app/parser/linkedin_enricher.py:149 | one removal step on a text is the same step on that text followed by a suffix without `)` |
| LinkedinEnricher.GroupStep | app/parser/linkedin_enricher.py:149 | a leading group is removed up to and including its `)` |
| LinkedinEnricher.CharStep | app/parser/linkedin_enricher.py:149 | a leading character that opens no group is kept |
| LinkedinEnricher.SuffixAfterGroup | app/parser/linkedin_enricher.py:149 | a leading group stays a leading group, ending at the same `)`, when a suffix without `)` is appended |
| LinkedinEnricher.SuffixAfterChar | app/parser/linkedin_enricher.py:149 | a leading character that opens no group opens none after a suffix without `)` is appended |
| LinkedinEnricher.GroupVanishes | app/parser/linkedin_enricher.py:149 | `(` text `)` with no `)` or newline inside is removed entirely |
| LinkedinEnricher.TrimStartSuffix | app/parser/linkedin_enricher.py:148 | `strip` removes only leading whitespace and leaves a suffix |
| LinkedinEnricher.TrimEndPrefix | app/parser/linkedin_enricher.py:148 | `strip` removes only trailing whitespace and leaves a prefix |
| LinkedinEnricher.SpaceIsInert | app/parser/linkedin_enricher.py:148-150 | whitespace is not a key character and not a parenthesis |
| LinkedinEnricher.LeadingSpaceDoesNotMatter | app/parser/linkedin_enricher.py:148-150 | leading whitespace does not change the key |
| LinkedinEnricher.TrailingSpaceDoesNotMatter | app/parser/linkedin_enricher.py:148-150 | trailing whitespace does not change the key |
| LinkedinEnricher.StripDoesNotMatter | app/parser/linkedin_enricher.py:148-150 | the `strip` step never changes the key |
| LinkedinEnricher.LowerConcat | app/parser/linkedin_enricher.py:148 | lowercasing distributes over concatenation |
| LinkedinEnricher.NameKeyOfTrueName | app/parser/linkedin_enricher.py:145-151 | the `strip` step can be dropped: the key of a non-empty name is the filtered, group-stripped lowercased name |
| LinkedinEnricher.NameKeyIgnoresCase | app/parser/linkedin_enricher.py:148 | a name and its lowercase form have the same key |
| LinkedinEnricher.LowerKeepsAbsent | app/parser/linkedin_enricher.py:148-149 | lowercasing introduces no character the name lacks other than a lower-case letter, so a name without `(` or `)` keeps none |
| LinkedinEnricher.AnnotatedKey | app/parser/linkedin_enricher.py:148-150 | after lowercasing, removing the groups and filtering, a name followed by ` (annotation)` gives what the lowercased name alone gives |
| LinkedinEnricher.NameKeyIgnoresAnnotation | app/parser/linkedin_enricher.py:149 | appending ` (annotation)` to a name without `(` does not change its key, when the annotation has no `)` or newline |
| LinkedinEnricher.KeyIsFixedPoint | app/parser/linkedin_enricher.py:145-151 | a string of key characters is its own key |
| LinkedinEnricher.NameKeyIdempotent | app/parser/linkedin_enricher.py:145-151 | normalising a key again changes nothing |
| LinkedinEnricher.NameKeyExample | app/parser/linkedin_enricher.py:149 | `Acme (YC S25)` and `acme` both have the key `acme` |
| LinkedinEnricher.ExtractAndCheck | app/parser/linkedin_enricher.py:13-59 | there is no record exactly when the classifier did not confirm a mention or a page request raised; a record carries the URL, no YC URL, source `linkedin`, a confirmed verdict and the classifier's evidence, the title as name or `Unknown` without one, the full description, else the short one, else the empty string, and the about page's website |
| LinkedinEnricher.ExistingLinks | app/parser/linkedin_enricher.py:86-90 | defines the set built before the loop: the URL keys of the loaded records with a truthy LinkedIn URL |
| LinkedinEnricher.Skipped | app/parser/linkedin_enricher.py:92-95 | a candidate is skipped exactly when its URL key is in the current set |
| LinkedinEnricher.IngestStep | app/parser/linkedin_enricher.py:92-104 | one iteration as written: a skipped candidate changes nothing; otherwise it is fetched, and a record found is appended and its raw URL added to the set |
| LinkedinEnricher.Ingest | app/parser/linkedin_enricher.py:92-104 | the loop over the candidates in order, as successive IngestStep iterations from the initial set |
| LinkedinEnricher.SubsequenceOf | app/parser/linkedin_enricher.py:92 | one sequence is another with some entries dropped and the rest kept in order |
| LinkedinEnricher.IngestOutcome | app/parser/linkedin_enricher.py:86-104 | the fetched URLs are candidates in candidate order (a subsequence of the candidates); the appended records are the fetch results of the fetched URLs, in order; no fetched URL's key is a loaded key; every appended record is a confirmed mention; the set grows by exactly the appended raw URLs |
| LinkedinEnricher.FetchedStep | app/parser/linkedin_enricher.py:92-104 | a candidate that is not skipped extends the fetched URLs by itself, the appended records by its fetch result and the set by its raw URL when a record is appended |
| LinkedinEnricher.AddNewLinkedinCompanies | app/parser/linkedin_enricher.py:81-104 | the loop fetches and appends exactly what the ingestion function does, and the list becomes the loaded records followed by the new ones |
| LinkedinEnricher.RepeatedCandidate | app/parser/linkedin_enricher.py:92-104 | a candidate that is fetched, and whose key differs from itself, is fetched and appended a second time when it repeats |
| LinkedinEnricher.FirstCandidate | app/parser/linkedin_enricher.py:92-104 | on an empty set, a confirmed candidate is fetched and appended, and its raw URL is added |
| LinkedinEnricher.IngestRefetchesRepeatedUrl | app/parser/linkedin_enricher.py:92-104 | `https://www.linkedin.com/company/acme/` listed twice is fetched twice and appended twice |
| LinkedinEnricher.AppendFreshKey | app/parser/linkedin_enricher.py:93-104 | when a candidate's key is added after appending it, each key is still appended at most once and the set is the loaded keys plus the appended keys |
| LinkedinEnricher.IngestFixedAddsEachKeyOnce | app/parser/linkedin_enricher.py:86-104 | with keys added to the set, no appended record repeats a loaded key or an earlier appended key |
| LinkedinEnricher.IngestStepFixed | app/parser/linkedin_enricher.py:104 | the corrected iteration: as IngestStep, but the candidate's URL key is added to the set instead of the raw URL |
| LinkedinEnricher.IngestFixed | app/parser/linkedin_enricher.py:92-104 | the corrected loop, as successive IngestStepFixed iterations |
| LinkedinParser.Matched | app/parser/linkedin_parser.py:9-49 | the `matched` value is `None` exactly when the verdict is unknown, and `True` exactly when a mention was found |
| LinkedinParser.Evidence | app/parser/linkedin_parser.py:43-45 | there is match information exactly when `matched` is `True` |
| LinkedinParser.FirstMatch | app/parser/linkedin_parser.py:37-45 | the first-match policy always reaches a verdict |
| LinkedinParser.FirstMatchSpec | app/parser/linkedin_parser.py:37-45 | "not mentioned" exactly when no block matches; otherwise the evidence is the location and text of the first matching block, and its snippet is not empty |
| LinkedinParser.MentionOf | app/parser/linkedin_parser.py:9-49 | the verdict is unknown exactly when the request raised or the status is not 200 |
| LinkedinParser.LinkedinCheckYcMention | app/parser/linkedin_parser.py:9-49 | the scanning loop returns the first-match verdict of the page's blocks |
| LinkedinParser.TitleMatchReportedFirst | app/parser/tests/test_linkedin_parser.py:20-34 | the test page is matched in its title block, with location `name` |
| LinkedinParser.NoBlocksIsNotMentioned | app/parser/tests/test_linkedin_parser.py:36-48 | a page with none of the three blocks is "not mentioned", with no match information |
| LinkedinParser.NameBlockWins | app/parser/linkedin_parser.py:37-43 | when the title matches, the evidence names the title even if a later block would also match |
| LinkedinParser.TextBlocks | app/parser/linkedin_parser.py:19-35 | defines the blocks in page order: title, short description and full description, each lower-cased and present only when the page has it |
| LinkedinParser.MentionsAny | app/parser/linkedin_parser.py:40-41 | a block mentions a tag list when some tag of the list occurs in it |
| LinkedinParser.IsMatch | app/parser/linkedin_parser.py:38-42 | a block matches when it is non-empty and mentions both a YC tag and an S25 tag |
| LinkedinParser.NeedsCheck | app/parser/linkedin_parser.py:62-65 | a record is looked at exactly when its LinkedIn URL is truthy and it has no verdict yet |
| LinkedinParser.IsUpdated | app/parser/linkedin_parser.py:62-70 | a record is updated exactly when it is looked at and the classifier returns a verdict |
| LinkedinParser.EnrichOne | app/parser/linkedin_parser.py:61-76 | defines one iteration: an updated record gets the verdict and its evidence, any other is unchanged |
| LinkedinParser.CountUpdated | app/parser/linkedin_parser.py:60-71 | defines the counter: the number of updated records |
| LinkedinParser.EnrichOneSpec | app/parser/linkedin_parser.py:61-76 | only the verdict and the evidence can change; the record changes exactly when it is due for a check and the classifier reached a verdict; then it stores that verdict |
| LinkedinParser.EnrichEach | app/parser/linkedin_parser.py:61-76 | every record is enriched on its own, and the length is kept |
| LinkedinParser.CountUpdatedAppend | app/parser/linkedin_parser.py:60-73 | one more record adds one to the `updated` count exactly when it is updated |
| LinkedinParser.EnrichKeepsEvidenceConsistent | app/parser/linkedin_parser.py:61-76 | a record whose match information comes with a true verdict keeps that property through enrichment |
| LinkedinParser.UpdatedCountsChanges | app/parser/linkedin_parser.py:60-73 | the `updated` count equals the number of records that changed |
| LinkedinParser.EnrichTwiceIsOnce | app/parser/linkedin_parser.py:62-65 | when the second pass gets the same network answers as the first, enriching twice is enriching once and the second pass updates nothing |
| LinkedinParser.EnrichOneTwice | app/parser/linkedin_parser.py:62-73 | on a second pass with any network answers, a record the first pass updated is left as the first pass stored it; any other record is enriched as if the first pass had not run; the second pass updates it exactly when the first did not and the second answer is a verdict |
| LinkedinParser.EnrichTwice | app/parser/linkedin_parser.py:60-73 | two passes with separate network answers: each record the first pass updated keeps what it stored, every other record gets the second pass's enrichment, and the second pass counts exactly the records the first left unresolved and it resolves |
| LinkedinParser.RetriedCount | app/parser/linkedin_parser.py:60-73 | the second pass's count equals the number of records the first pass left unresolved and the second resolves |
| LinkedinParser.NoRetryWithSameAnswers | app/parser/linkedin_parser.py:62-73 | with the same answers, no record is left unresolved by the first pass and resolved by the second |
| LinkedinParser.CountRetried | app/parser/linkedin_parser.py:60-71 | defines the number of records the first of two passes leaves unresolved and the second resolves |
| LinkedinParser.EnrichCompany | app/parser/linkedin_parser.py:61-76 | one iteration on one object gives it the enrichment of its old value and reports whether a verdict was stored |
| LinkedinParser.EnrichAllFromJson | app/parser/linkedin_parser.py:52-81 | every object ends as the enrichment of its old value, and the count returned is the number of updates |
| LinkedinParser.ExtractAndCheck | app/parser/linkedin_parser.py:87-119 | there is no record exactly when the verdict is unknown or the profile request raised; a record has the URL, no website, no YC URL, source `linkedin`, the verdict and the evidence the classifier returned (present exactly when the verdict is `True`), the title as name or `Unknown` without one, and the full description, else the short one, else the empty string |
| LinkedinParser.NameOf | app/parser/linkedin_parser.py:103 | defines the name: the title text, or `Unknown` without a title (also app/parser/linkedin_enricher.py:42-43) |
| LinkedinParser.DescriptionOf | app/parser/linkedin_parser.py:104-108 | defines the description: the full description, else the short one, else the empty string (also app/parser/linkedin_enricher.py:44-48) |
| LinkedinParser.ProfileRecord | app/parser/linkedin_parser.py:102-115 | defines the record both `extract_and_check` functions build from a profile page, a website and a verdict (also app/parser/linkedin_enricher.py:42-55) |
| LinkedinParser.KnownLinks | app/parser/linkedin_parser.py:136 | defines the set of raw LinkedIn URLs of the loaded records with a truthy URL |
| LinkedinParser.Fetched | app/parser/linkedin_parser.py:139-143 | the candidates the loop fetches, in order: those whose raw URL is not in the set; there are at most as many as candidates |
| LinkedinParser.FetchedNext | app/parser/linkedin_parser.py:139-143 | one more candidate is fetched exactly when its raw URL is not in the set |
| LinkedinParser.FetchedExactly | app/parser/linkedin_parser.py:136-143 | a URL is fetched exactly when it is a candidate whose raw URL no loaded record has |
| LinkedinParser.AppendedHaveVerdict | app/parser/linkedin_parser.py:102-115 | every appended record has one of the fetched URLs, a verdict, source `linkedin` and no YC URL |
| LinkedinParser.FetchNew | app/parser/linkedin_parser.py:139-148 | for any fetch step, the loop fetches exactly the candidates not in the set, in order, and appends every record the step returns to both the loaded records and the new entries |
| LinkedinParser.AddNewLinkedinCompanies | app/parser/linkedin_parser.py:134-152 | the loop fetches exactly the unknown candidates and appends every profile it could build, after the loaded records |
| LinkedinMerge.Project | app/parser/linkedin_enricher.py:158 | the listed records are the current contents of the listed identities, in order |
| LinkedinMerge.Key | app/parser/linkedin_enricher.py:159 | a record is grouped by the name key of its `name` |
| LinkedinMerge.Switches | app/parser/linkedin_enricher.py:175-184 | authority flips to the secondary exactly when the primary has no YC URL and the secondary has one |
| LinkedinMerge.IndexOf | app/parser/linkedin_enricher.py:186 | `list.remove` deletes a position holding an equal record, or nothing when there is none |
| LinkedinMerge.IndexOfIsFirst | app/parser/linkedin_enricher.py:186 | the position removed is the first equal one |
| LinkedinMerge.IndexOfSkips | app/parser/linkedin_enricher.py:186 | no record before the removed position is equal to the secondary |
| LinkedinMerge.Backfill | app/parser/linkedin_enricher.py:168-183 | the backfill keeps the number of records |
| LinkedinMerge.Step | app/parser/linkedin_enricher.py:158-187 | one iteration keeps every identity in range |
| LinkedinMerge.MergeUpTo | app/parser/linkedin_enricher.py:158-187 | the state after any number of iterations keeps every identity in range |
| LinkedinMerge.Merge | app/parser/linkedin_enricher.py:154-190 | defines the state after the whole pass over the records |
| LinkedinMerge.InitInv | app/parser/linkedin_enricher.py:155-158 | the loop invariant holds before the first iteration |
| LinkedinMerge.StepHeap | app/parser/linkedin_enricher.py:168-183 | each iteration only backfills a record that has a YC URL and no LinkedIn URL, and leaves later records untouched |
| LinkedinMerge.StepSeen | app/parser/linkedin_enricher.py:161-184 | `seen` holds exactly the visited keys, each mapped to a visited record of that key with a YC URL when one of them has one |
| LinkedinMerge.StepSeenWith | app/parser/linkedin_enricher.py:161-184 | any update that keeps other keys and maps the key to the record or to a primary with a YC URL keeps the `seen` invariant |
| LinkedinMerge.ListNew | app/parser/linkedin_enricher.py:161-163 | a new key leaves the list unchanged and extends the run of distinct-key survivors |
| LinkedinMerge.ListDropSecondary | app/parser/linkedin_enricher.py:186 | removing the secondary itself keeps the list invariant |
| LinkedinMerge.RunReplace | app/parser/linkedin_enricher.py:186 | replacing an earlier survivor of the key by the secondary keeps keys distinct and every key covered |
| LinkedinMerge.ListDropEarlier | app/parser/linkedin_enricher.py:186 | removing an earlier equal record of the same key keeps the list invariant |
| LinkedinMerge.CoversExtend | app/parser/linkedin_enricher.py:161-163 | appending a survivor keeps every key covered that was covered |
| LinkedinMerge.CoversAfterReplace | app/parser/linkedin_enricher.py:186 | after the replacement, every visited key and the key of the current record are covered |
| LinkedinMerge.ListInvFrom | app/parser/linkedin_enricher.py:158-187 | the list invariant holds once its parts do: the unvisited tail, the run of survivors, the covered keys and the count |
| LinkedinMerge.StepFinds | app/parser/linkedin_enricher.py:186 | the record `list.remove` finds is never among the unvisited ones after the secondary |
| LinkedinMerge.StepList | app/parser/linkedin_enricher.py:158-187 | each iteration keeps the list invariant and the count |
| LinkedinMerge.StepInv | app/parser/linkedin_enricher.py:158-187 | each iteration keeps the whole loop invariant |
| LinkedinMerge.NextInv | app/parser/linkedin_enricher.py:158-187 | the invariant passes from one iteration to the next |
| LinkedinMerge.MergeInv | app/parser/linkedin_enricher.py:158-187 | the invariant holds after every number of iterations |
| LinkedinMerge.MergeKeepsOrder | app/parser/linkedin_enricher.py:154-190 | the result is a subsequence of the input, in input order |
| LinkedinMerge.MergeOnePerKey | app/parser/linkedin_enricher.py:154-190 | the result has one record per name key of the input, with pairwise different keys; the count is the input length minus the result length |
| LinkedinMerge.ListInvAtEnd | app/parser/linkedin_enricher.py:158-187 | at the end the whole list is the run of survivors, covering every key |
| LinkedinMerge.OnePerKeyAtEnd | app/parser/linkedin_enricher.py:154-190 | the final invariant gives one survivor per key and the count |
| LinkedinMerge.SurvivorKeys | app/parser/linkedin_enricher.py:154-190 | a final list of distinct-key identities covering every key projects to one record per key |
| LinkedinMerge.MergeOnlyBackfills | app/parser/linkedin_enricher.py:168-183 | every record keeps its identity fields; it changes only when it had a YC URL and no LinkedIn URL, and then it gains a LinkedIn URL |
| LinkedinMerge.AuthoritativeStep | app/parser/linkedin_enricher.py:168-174 | a primary with a YC URL takes the secondary's three LinkedIn fields when it has no LinkedIn URL and the secondary has one; nothing else changes; `seen` is kept; the first listed record equal to the secondary leaves the list (line 186) |
| LinkedinMerge.AuthoritativeStepOf | app/parser/linkedin_enricher.py:168-174 | the same step, for any state satisfying the invariant: the secondary is unchanged and the first listed record equal to it leaves the list (line 186) |
| LinkedinMerge.SwitchStep | app/parser/linkedin_enricher.py:175-187 | a primary without a YC URL and a secondary with one: the secondary takes the primary's LinkedIn fields when it lacks its own; `seen` switches to it; and it is the secondary itself that leaves the list (line 186) |
| LinkedinMerge.SwitchStepOf | app/parser/linkedin_enricher.py:175-187 | the same step, for any state satisfying the invariant |
| LinkedinMerge.SwitchRemovesSecondary | app/parser/linkedin_enricher.py:184-186 | after a switch, the first record equal to the secondary is the secondary itself |
| LinkedinMerge.NeitherStep | app/parser/linkedin_enricher.py:175-187 | when neither record has a YC URL, nothing is backfilled, `seen` is kept and the first listed record equal to the secondary leaves the list (line 186) |
| LinkedinMerge.RemovesFirstEqual | app/parser/linkedin_enricher.py:186 | defines `list.remove(v)` on identities: the first listed record equal to `v` leaves the list and the rest keep their order |
| LinkedinMerge.KnownKeyRemoves | app/parser/linkedin_enricher.py:186 | for a record whose key is known, the step removes the first listed record equal to the secondary after backfilling |
| LinkedinMerge.DistinctKeysUpTo | app/parser/linkedin_enricher.py:158-163 | over records with pairwise different keys, every iteration only records a new key |
| LinkedinMerge.FreshKeyStep | app/parser/linkedin_enricher.py:161-163 | one such iteration changes nothing but `seen` |
| LinkedinMerge.MergeDistinctKeysIsNoop | app/parser/linkedin_enricher.py:154-190 | records with pairwise different keys come back unchanged, with nothing removed |
| LinkedinMerge.MergeIdempotent | app/parser/linkedin_enricher.py:154-190 | merging the result of a merge removes nothing and changes nothing |
| LinkedinMerge.SameKeyLeavesOne | app/parser/linkedin_enricher.py:154-190 | records that all share one key merge to a single record, and all the others are counted |
| LinkedinMerge.UnnamedRecordsMerge | app/parser/linkedin_enricher.py:145-147 | records without a name all share the empty key and merge into one |
| LinkedinMerge.BackfillPair | app/parser/linkedin_enricher.py:168-174 | a YC primary without LinkedIn and a LinkedIn-only secondary merge into the primary with the secondary's LinkedIn fields |
| LinkedinMerge.AcmeKeysAgree | app/parser/linkedin_enricher.py:145-151 | `Acme` and `ACME` have the same key |
| LinkedinMerge.MergeExample | app/parser/linkedin_enricher.py:154-190 | an example: `Acme` from the directory and `ACME` from LinkedIn merge into one directory record with the LinkedIn URL and verdict |
| LinkedinMerge.SeenBelow | app/parser/linkedin_enricher.py:158-162 | `seen` only refers to records already visited |
| LinkedinMerge.CopyLinkedin | app/parser/linkedin_enricher.py:170-174 | the target's three LinkedIn fields become the source's, and no other record changes |
| LinkedinMerge.ListRemove | app/parser/linkedin_enricher.py:186 | the first element whose value equals the record is removed, or nothing when there is none |
| LinkedinMerge.Reconcile | app/parser/linkedin_enricher.py:165-184 | the records change as the backfill says; `seen` switches to the secondary exactly when the primary has no YC URL and the secondary has one |
| LinkedinMerge.MergeOne | app/parser/linkedin_enricher.py:159-187 | one iteration over the objects does to the records, the list, `seen` and the count what one specification step does |
| LinkedinMerge.TracksNewKey | app/parser/linkedin_enricher.py:161-163 | after a new key, `seen` maps it to the current object and nothing else changes, as in the specification's next state |
| LinkedinMerge.ValuesOfTracked | app/parser/linkedin_enricher.py:158 | the contents of the listed objects are the records of the identities they stand for |
| LinkedinMerge.DropSecondary | app/parser/linkedin_enricher.py:186 | `list.remove(secondary)` deletes the position the specification computes from the current records |
| LinkedinMerge.SeenTracksUpdate | app/parser/linkedin_enricher.py:184 | pointing a key at the secondary keeps `seen`'s objects and the specification's identities in step |
| LinkedinMerge.TracksKnownKey | app/parser/linkedin_enricher.py:165-187 | after a known key, the objects' list and `seen` correspond to the specification's next state |
| LinkedinMerge.RemoveKeepsIdentities | app/parser/linkedin_enricher.py:186 | removing one element keeps the correspondence between listed objects and identities |
| LinkedinMerge.RemoveAtKeepsIdentities | app/parser/linkedin_enricher.py:186 | removing position `j` from the result and from the identity list keeps every remaining object tracked by its identity |
| LinkedinMerge.KnownKeyStep | app/parser/linkedin_enricher.py:165-187 | a known key's step is the backfilled records, a list with one record removed, an updated `seen` and one more removal |
| LinkedinMerge.PassStart | app/parser/linkedin_enricher.py:155-158 | before the loop the list holds every object in order, `seen` is empty and nothing is counted |
| LinkedinMerge.MergeAt | app/parser/linkedin_enricher.py:158-187 | iteration `k` of the loop takes the objects from the specification's state after `k` iterations to the one after `k + 1` |
| LinkedinMerge.PassEnd | app/parser/linkedin_enricher.py:187-190 | after the loop the listed objects are the surviving identities of the whole pass and the count is its number of removals |
| LinkedinMerge.DeduplicateAndMerge | app/parser/linkedin_enricher.py:154-190 | the objects end with the contents the specification computes, the returned list is its surviving identities in order, and the count is its number of removals |
| LinkedinMergeFixed.Drop | app/parser/linkedin_enricher.py:186 | removing an identity keeps every other identity; in a list without repeats, it removes exactly that one |
| LinkedinMergeFixed.StepFixed | app/parser/linkedin_enricher.py:158-187 | the corrected iteration keeps every identity in range |
| LinkedinMergeFixed.MergeFixedUpTo | app/parser/linkedin_enricher.py:158-187 | the corrected state after any number of iterations keeps every identity in range |
| LinkedinMergeFixed.FixedInitInv | app/parser/linkedin_enricher.py:155-158 | the corrected invariant holds at the start |
| LinkedinMergeFixed.FixedListNew | app/parser/linkedin_enricher.py:161-163 | a new key keeps every primary listed |
| LinkedinMergeFixed.FixedListDrop | app/parser/linkedin_enricher.py:184-186 | removing the losing record keeps every primary listed and lists nothing else visited |
| LinkedinMergeFixed.DropKeepsUnvisited | app/parser/linkedin_enricher.py:186 | removing the losing record keeps the unvisited records listed and accounts for it in the count |
| LinkedinMergeFixed.DropKeepsPrimaries | app/parser/linkedin_enricher.py:184-186 | after removing the losing record, the visited listed records are exactly the primaries |
| LinkedinMergeFixed.FixedStepInv | app/parser/linkedin_enricher.py:158-187 | each corrected iteration keeps the corrected invariant |
| LinkedinMergeFixed.FixedNextInv | app/parser/linkedin_enricher.py:158-187 | the corrected invariant passes to the next iteration |
| LinkedinMergeFixed.MergeFixedInv | app/parser/linkedin_enricher.py:158-187 | the corrected invariant holds after every number of iterations |
| LinkedinMergeFixed.MergeFixedKeepsPrimaries | app/parser/linkedin_enricher.py:154-190 | after the corrected pass, each listed record is its key's primary and each key's primary is listed; that primary has a YC URL when any record of the key had one; keys are pairwise different; the count is the input length minus the result length |
| LinkedinMergeFixed.SwitchDropsYcRecord | app/parser/linkedin_enricher.py:175-186 | as written, a primary without a YC URL followed by a secondary with one leaves only the primary; the key's recorded primary is no longer listed |
| LinkedinMergeFixed.EqualDuplicateDropsPrimary | app/parser/linkedin_enricher.py:168-186 | as written, a record equal to its primary removes the primary; a later LinkedIn backfill goes into the unlisted primary, and the one record left has no LinkedIn URL |
| LinkedinMergeFixed.EqualDuplicateFirstStep | app/parser/linkedin_enricher.py:161-163 | the first record of the example becomes its key's primary |
| LinkedinMergeFixed.EqualDuplicateSecondStep | app/parser/linkedin_enricher.py:168-186 | the duplicate equal to the primary removes the primary's list entry |
| LinkedinMergeFixed.EqualDuplicateThirdStep | app/parser/linkedin_enricher.py:168-186 | the LinkedIn backfill goes into the unlisted primary, and the secondary is removed |
| LinkedinMergeFixed.SwitchKeepsYcRecordFixed | app/parser/linkedin_enricher.py:175-186 | corrected: the secondary with the YC URL is the one left, with any LinkedIn fields it took over |
| LinkedinMergeFixed.EqualDuplicateKeepsPrimaryFixed | app/parser/linkedin_enricher.py:168-186 | corrected: the primary is the one left, with the LinkedIn fields of the later duplicate |
| LinkedinMergeFixed.EqualDuplicateFixedFirst | app/parser/linkedin_enricher.py:161-163 | corrected pass: the first record becomes the primary |
| LinkedinMergeFixed.EqualDuplicateFixedSecond | app/parser/linkedin_enricher.py:168-186 | corrected pass: the equal duplicate itself is removed |
| LinkedinMergeFixed.EqualDuplicateFixedThird | app/parser/linkedin_enricher.py:168-186 | corrected pass: the primary takes the LinkedIn fields and stays listed |
| Records.Company.constructor | app/parser/linkedin_parser.py:57-58 | a company object holds the record it was loaded from |
| Records.Values | app/parser/linkedin_parser.py:57-61 | the contents of a list of objects, element by element |
| Records.Collected | app/parser/linkedin_parser.py:145-148 | the loop appends at most one record per fetched URL |
| Records.CollectedAppend | app/parser/linkedin_parser.py:145-148 | fetching one more URL appends exactly its record, if the fetch step returns one |
| Records.CollectedFrom | app/parser/linkedin_parser.py:145-148 | every appended record came from fetching one of the fetched URLs |

## Left out

- File loading and saving, `print`, `time.sleep` and the HTTP requests themselves are not modelled. Loaded lists are parameters, and page contents come from the `Network` oracle.
- BeautifulSoup is not modelled. A `Page` holds the text of the three blocks and of the website element. `get_text(strip=True)`, and the CSS class matching that finds each block, are given by the oracle.
- `extract_similar_linkedin_companies` is not modelled, because it only scrapes anchors. The same goes for `load_existing_companies` and `save_companies` in both modules, because they only do file I/O. The YC directory scraper and the dashboard are not part of this model.
- The `except Exception` paths are modelled only where the source catches something: a raising request becomes `Raised`. A parsing error inside BeautifulSoup is not modelled.
- A JSON `null` and a missing key are the same `None` in the model. A missing `"name"` makes the source raise `KeyError` at app/parser/linkedin_enricher.py:159, and in the enrichment pass at app/parser/linkedin_parser.py:67 and 74, where `company['name']` is printed; that aborts the whole pass. The model treats a missing name as an empty one and carries on.
- Text.Lower models `str.lower` for ASCII only: it maps `A`-`Z` and leaves every other character alone, so Unicode case mapping is not modelled. `str.strip` is modelled in full: Text.IsSpace holds for exactly the characters Python's `str.isspace` accepts.
- LinkedinMerge.DeduplicateAndMerge: it returns the surviving objects as a new sequence rather than shrinking the caller's list in place. It also returns the count, which the source only prints.
- LinkedinMerge.DeduplicateAndMerge: it requires the input objects to be pairwise distinct. The list comes from `json.load`, which builds a fresh dictionary per element, so aliasing is not modelled.
- LinkedinParser.EnrichAllFromJson: it requires the input objects to be pairwise distinct. The list comes from `json.load`, which builds a fresh dictionary per element, so aliasing is not modelled.
- The `Network` oracle answers each URL the same way every time it is asked, because it is a function of the URL. Real pages can change between two requests. LinkedinParser.EnrichTwice therefore takes a separate oracle for each pass; only its corollary LinkedinParser.EnrichTwiceIsOnce assumes the second pass gets the first pass's answers.
- LinkedinParser.EnrichAllFromJson: it covers the loop after loading. The early return for a missing file is I/O and is omitted.
- LinkedinEnricher.ExtractAndCheck: the about page's website element is taken as a string. The source stores the BeautifulSoup element itself and does not check either response's status code, which the model does not check either.

Where the code behaves in a way its names or comments do not suggest, the model follows the code:

- `rstrip("/")` removes all trailing slashes, not just one.
- An empty name key merges like any other key, so unnamed records all collapse, as LinkedinMerge.UnnamedRecordsMerge shows.
- The parser module's `add_new_linkedin_companies` appends records whose verdict is `False` too.
- The merge's switch branch removes the secondary rather than the old primary; see Findings.

## Findings

| source | as written | input that shows it | evidently intended | confidence | as-written member | corrected member |
|---|---|---|---|---|---|---|
| app/parser/linkedin_enricher.py:104 | the raw URL is added to a set that candidates are looked up in by URL key | candidates `https://www.linkedin.com/company/acme/` twice, confirmed by the classifier: both are fetched and appended | add the key (`existing_links.add(normalized)`), so each URL key is appended at most once | high (not executed) | LinkedinEnricher.IngestRefetchesRepeatedUrl | LinkedinEnricher.IngestFixedAddsEachKeyOnce |
| app/parser/linkedin_enricher.py:184-186 | after authority flips to the secondary, `companies.remove(secondary)` still removes the secondary | `[{name:"Acme", yc:None}, {name:"Acme", yc:"yc.co/acme"}]` leaves only the record without a YC URL | remove the old primary: the comment "swap if secondary has YC profile" (line 176) and `seen[norm] = secondary` (line 184) make the secondary the new primary, so the record that loses is the old one | high (not executed) | LinkedinMergeFixed.SwitchDropsYcRecord | LinkedinMergeFixed.MergeFixedKeepsPrimaries |
| app/parser/linkedin_enricher.py:186 | `list.remove` deletes the first value-equal record, which can be the primary | `[A, A, B]` with `A` = `{name:"Acme", yc:"yc.co/acme", linkedin:None}` and `B` = `{name:"Acme", linkedin:"li.co/acme"}` leaves one `A` without the LinkedIn URL | remove the secondary by identity, so the primary keeps the backfilled fields | medium (not executed) | LinkedinMergeFixed.EqualDuplicateDropsPrimary | LinkedinMergeFixed.MergeFixedKeepsPrimaries |

The corrected ingestion (`IngestFixed`) and the corrected merge (`MergeFixed`) are specification functions. The methods `LinkedinEnricher.AddNewLinkedinCompanies` and `LinkedinMerge.DeduplicateAndMerge` model the code as written.
