/**
 * The LinkedIn side of the scraper: the mention classifier, the pass that
 * classifies every record that has a LinkedIn URL, and this module's
 * variant of building and ingesting new company records.
 */
module LinkedinParser {
  import opened Optional
  import opened Text
  import opened Config
  import opened Records

  /** One labelled text block of a profile page, already lower-cased. */
  datatype Block = Block(location: string, text: string)

  /**
   * The pair `(matched, match_info)` the classifier returns, which takes
   * exactly three shapes: `(None, None)`, `(False, None)` and
   * `(True, {location, snippet})`.
   */
  datatype Mention = Unknown | NotMentioned | Mentioned(evidence: Match)

  /** The `matched` half of the pair. */
  function Matched(m: Mention): (r: Option<bool>)
    ensures r.None? <==> m.Unknown?
    ensures r == Some(true) <==> m.Mentioned?
  {
    match m
    case Unknown => None
    case NotMentioned => Some(false)
    case Mentioned(_) => Some(true)
  }

  /** The `match_info` half of the pair: evidence exists exactly when `matched` is true. */
  function Evidence(m: Mention): (r: Option<Match>)
    ensures r.Some? <==> Matched(m) == Some(true)
  {
    if m.Mentioned? then Some(m.evidence) else None
  }

  /** `any(tag in block for tag in tags)` */
  predicate MentionsAny(block: string, tags: seq<string>)
  {
    exists t :: t in tags && Contains(block, t)
  }

  /** A block counts when it is non-empty and names both the accelerator and the cohort. */
  predicate IsMatch(text: string)
  {
    text != "" && MentionsAny(text, YcTags) && MentionsAny(text, S25Tags)
  }

  /** The blocks in page order: title, short description, full description, each if found. */
  function TextBlocks(page: Page): seq<Block>
  {
    (if page.tagline.Some? then [Block("name", Lower(page.tagline.value))] else [])
    + (if page.shortDesc.Some? then [Block("short_desc", Lower(page.shortDesc.value))] else [])
    + (if page.fullDesc.Some? then [Block("full_desc", Lower(page.fullDesc.value))] else [])
  }

  /** The first-match policy over the blocks, as a reference for the scanning loop. */
  function FirstMatch(blocks: seq<Block>): (m: Mention)
    ensures !m.Unknown?
  {
    if blocks == [] then NotMentioned
    else if IsMatch(blocks[0].text) then Mentioned(Match(blocks[0].location, blocks[0].text))
    else FirstMatch(blocks[1..])
  }

  /**
   * The policy answers "not mentioned" exactly when no block matches, and
   * otherwise the location and the text of the first matching block.
   */
  lemma {:induction false} FirstMatchSpec(blocks: seq<Block>)
    ensures var m := FirstMatch(blocks);
      && (m.NotMentioned? <==> forall i :: 0 <= i < |blocks| ==> !IsMatch(blocks[i].text))
      && (m.Mentioned? ==> m.evidence.snippet != "")
      && (m.Mentioned? ==>
            exists i :: 0 <= i < |blocks| && IsMatch(blocks[i].text)
              && m.evidence == Match(blocks[i].location, blocks[i].text)
              && forall j :: 0 <= j < i ==> !IsMatch(blocks[j].text))
  {
    if blocks != [] && !IsMatch(blocks[0].text) {
      FirstMatchSpec(blocks[1..]);
      assert forall i :: 1 <= i < |blocks| ==> blocks[i] == blocks[1..][i - 1];
      var m := FirstMatch(blocks[1..]);
      if m.Mentioned? {
        var i :| 0 <= i < |blocks[1..]| && IsMatch(blocks[1..][i].text)
          && m.evidence == Match(blocks[1..][i].location, blocks[1..][i].text)
          && forall j :: 0 <= j < i ==> !IsMatch(blocks[1..][j].text);
        assert IsMatch(blocks[i + 1].text) && forall j :: 0 <= j < i + 1 ==> !IsMatch(blocks[j].text);
      }
    }
  }

  /** What `linkedin_check_yc_mention` answers for one response. */
  function MentionOf(resp: Response): (m: Mention)
    ensures m.Unknown? <==> resp.Raised? || resp.status != 200
  {
    if resp.Raised? || resp.status != 200 then Unknown else FirstMatch(TextBlocks(resp.page))
  }

  /** `linkedin_check_yc_mention`: classify the page, scanning its blocks with an early return. */
  method LinkedinCheckYcMention(resp: Response) returns (m: Mention)
    ensures m == MentionOf(resp)
  {
    if resp.Raised? || resp.status != 200 {
      return Unknown;
    }
    var blocks := TextBlocks(resp.page);
    var i := 0;
    while i < |blocks|
      invariant 0 <= i <= |blocks|
      invariant FirstMatch(blocks) == FirstMatch(blocks[i..])
    {
      var block := blocks[i];
      if block.text != "" {
        var mentionsYc := MentionsAny(block.text, YcTags);
        var mentionsS25 := MentionsAny(block.text, S25Tags);
        if mentionsYc && mentionsS25 {
          return Mentioned(Match(block.location, block.text));
        }
      }
      assert blocks[i..][1..] == blocks[i + 1..];
      i := i + 1;
    }
    return NotMentioned;
  }

  /** On the page of the unit test, the title block wins over the matching full description. */
  lemma {:induction false} TitleMatchReportedFirst()
    ensures MentionOf(Response(200, Page(Some("Test Company (YC S25)"), Some("We build cool things"),
                                         Some("YC S25 startup in stealth"), None)))
         == Mentioned(Match("name", "test company (yc s25)"))
  {
    var page := Page(Some("Test Company (YC S25)"), Some("We build cool things"), Some("YC S25 startup in stealth"), None);
    var title := "test company (yc s25)";
    var blocks := TextBlocks(page);
    assert blocks != [] && blocks[0] == Block("name", title) by {
      assert Lower("Test Company (YC S25)") == title;
    }
    assert IsMatch(title) by {
      assert title[14..16] == "yc" && title[17..20] == "s25";
      ContainsAt(title, "yc", 14);
      ContainsAt(title, "s25", 17);
      assert "yc" in YcTags && "s25" in S25Tags;
    }
    assert MentionOf(Response(200, page)) == FirstMatch(blocks);
  }

  /** A page where no block is found is "confirmed absent", not "could not determine". */
  lemma {:induction false} NoBlocksIsNotMentioned()
    ensures MentionOf(Response(200, Page(None, None, None, None))) == NotMentioned
  {
    assert TextBlocks(Page(None, None, None, None)) == [];
  }

  /** The first block matching wins even when a later block is plain text. */
  lemma {:induction false} NameBlockWins()
    ensures FirstMatch([Block("name", "acme (yc s25)"), Block("full_desc", "we build widgets")])
         == Mentioned(Match("name", "acme (yc s25)"))
  {
    ContainsAt("acme (yc s25)", "yc", 6);
    ContainsAt("acme (yc s25)", "s25", 9);
    assert "yc" in YcTags && "s25" in S25Tags;
  }

  // ----- enrich_all_from_json -----

  /** The enrichment pass looks only at records with a LinkedIn URL that are not yet classified. */
  predicate NeedsCheck(r: Record)
  {
    Truthy(r.linkedinUrl) && r.mentionsS25.None?
  }

  /** The record is looked at and the classifier reached a verdict. */
  predicate IsUpdated(r: Record, net: Network)
  {
    NeedsCheck(r) && !MentionOf(net.check(r.linkedinUrl.value)).Unknown?
  }

  /** What one iteration of the enrichment loop leaves of one record. */
  function EnrichOne(r: Record, net: Network): Record
  {
    if IsUpdated(r, net) then
      var m := MentionOf(net.check(r.linkedinUrl.value));
      r.(mentionsS25 := Matched(m), linkedinMatch := Evidence(m))
    else r
  }

  /**
   * One iteration touches only the verdict and its evidence, changes the
   * record exactly when it is updated, and then stores the classifier's pair.
   */
  lemma {:induction false} EnrichOneSpec(r: Record, net: Network)
    ensures var e := EnrichOne(r, net);
      && e.(mentionsS25 := r.mentionsS25, linkedinMatch := r.linkedinMatch) == r
      && (e != r <==> IsUpdated(r, net))
      && (IsUpdated(r, net) ==>
            var m := MentionOf(net.check(r.linkedinUrl.value));
            e.mentionsS25 == Matched(m) && e.linkedinMatch == Evidence(m))
  {
  }

  /** The number of records the pass updates. */
  function CountUpdated(recs: seq<Record>, net: Network): nat
  {
    if recs == [] then 0
    else CountUpdated(recs[..|recs| - 1], net) + (if IsUpdated(recs[|recs| - 1], net) then 1 else 0)
  }

  lemma {:induction false} CountUpdatedAppend(recs: seq<Record>, r: Record, net: Network)
    ensures CountUpdated(recs + [r], net) == CountUpdated(recs, net) + if IsUpdated(r, net) then 1 else 0
  {
    assert (recs + [r])[..|recs|] == recs;
  }

  /** The number of positions at which two equally long lists differ. */
  function CountChanged(before: seq<Record>, after: seq<Record>): nat
    requires |before| == |after|
  {
    if before == [] then 0
    else
      var n := |before|;
      CountChanged(before[..n - 1], after[..n - 1]) + (if before[n - 1] != after[n - 1] then 1 else 0)
  }

  function EnrichEach(recs: seq<Record>, net: Network): (out: seq<Record>)
    ensures |out| == |recs|
    ensures forall i :: 0 <= i < |recs| ==> out[i] == EnrichOne(recs[i], net)
  {
    seq(|recs|, i requires 0 <= i < |recs| => EnrichOne(recs[i], net))
  }

  /** `updated` counts exactly the records the pass changed. */
  lemma {:induction false} UpdatedCountsChanges(recs: seq<Record>, net: Network)
    ensures CountUpdated(recs, net) == CountChanged(recs, EnrichEach(recs, net))
  {
    if recs != [] {
      var n := |recs|;
      assert EnrichEach(recs, net)[..n - 1] == EnrichEach(recs[..n - 1], net);
      UpdatedCountsChanges(recs[..n - 1], net);
    }
  }

  /**
   * A record on a second pass: one the first pass updated now has a verdict
   * and is left alone; any other is still due exactly as before, and the
   * second pass treats it as the first would have with its answer.
   */
  lemma {:induction false} EnrichOneTwice(r: Record, net1: Network, net2: Network)
    ensures EnrichOne(EnrichOne(r, net1), net2) == if IsUpdated(r, net1) then EnrichOne(r, net1) else EnrichOne(r, net2)
    ensures IsUpdated(EnrichOne(r, net1), net2) <==> !IsUpdated(r, net1) && IsUpdated(r, net2)
  {
  }

  /** The records the first pass leaves without a verdict and the second pass updates. */
  function CountRetried(recs: seq<Record>, net1: Network, net2: Network): nat
  {
    if recs == [] then 0
    else
      var r := recs[|recs| - 1];
      CountRetried(recs[..|recs| - 1], net1, net2) + (if !IsUpdated(r, net1) && IsUpdated(r, net2) then 1 else 0)
  }

  /**
   * Two passes, each with its own network answers: the records the first
   * pass updated keep what it stored; every other record is enriched by the
   * second pass on its own, and the second pass counts exactly the records
   * the first one left unresolved and it resolves.
   */
  lemma {:induction false} EnrichTwice(recs: seq<Record>, net1: Network, net2: Network)
    ensures var once := EnrichEach(recs, net1);
      forall i :: 0 <= i < |recs| ==>
        EnrichEach(once, net2)[i] == if IsUpdated(recs[i], net1) then once[i] else EnrichOne(recs[i], net2)
    ensures CountUpdated(EnrichEach(recs, net1), net2) == CountRetried(recs, net1, net2)
  {
    forall i | 0 <= i < |recs| {
      EnrichOneTwice(recs[i], net1, net2);
    }
    RetriedCount(recs, net1, net2);
  }

  lemma {:induction false} RetriedCount(recs: seq<Record>, net1: Network, net2: Network)
    ensures CountUpdated(EnrichEach(recs, net1), net2) == CountRetried(recs, net1, net2)
  {
    if recs != [] {
      var n := |recs|;
      assert EnrichEach(recs, net1)[..n - 1] == EnrichEach(recs[..n - 1], net1);
      RetriedCount(recs[..n - 1], net1, net2);
      EnrichOneTwice(recs[n - 1], net1, net2);
    }
  }

  /** With the same answers, no record the first pass left unresolved is resolved by the second. */
  lemma {:induction false} NoRetryWithSameAnswers(recs: seq<Record>, net: Network)
    ensures CountRetried(recs, net, net) == 0
  {
    if recs != [] {
      NoRetryWithSameAnswers(recs[..|recs| - 1], net);
    }
  }

  /** Running the pass a second time, with the network answering as before, changes nothing and updates nothing. */
  lemma {:induction false} EnrichTwiceIsOnce(recs: seq<Record>, net: Network)
    ensures EnrichEach(EnrichEach(recs, net), net) == EnrichEach(recs, net)
    ensures CountUpdated(EnrichEach(recs, net), net) == 0
  {
    EnrichTwice(recs, net, net);
    NoRetryWithSameAnswers(recs, net);
  }

  /** A record whose evidence implies a true mention keeps that property through the pass. */
  lemma {:induction false} EnrichKeepsEvidenceConsistent(r: Record, net: Network)
    requires r.linkedinMatch.Some? ==> r.mentionsS25 == Some(true)
    ensures EnrichOne(r, net).linkedinMatch.Some? ==> EnrichOne(r, net).mentionsS25 == Some(true)
  {
  }

  /**
   * `enrich_all_from_json` after loading: classify each record that has a
   * LinkedIn URL and no verdict yet, store a verdict when the classifier
   * reached one, and count the stores.
   */
  method EnrichAllFromJson(companies: seq<Company>, net: Network) returns (updated: nat)
    requires Distinct(companies)
    modifies companies
    ensures forall i :: 0 <= i < |companies| ==> companies[i].Value() == EnrichOne(old(companies[i].Value()), net)
    ensures updated == CountUpdated(old(Values(companies)), net)
  {
    ghost var visited: seq<Record> := [];
    updated := 0;
    for i := 0 to |companies|
      invariant forall k :: 0 <= k < |companies| ==>
        companies[k].Value() == if k < i then EnrichOne(old(companies[k].Value()), net) else old(companies[k].Value())
      invariant |visited| == i && forall k :: 0 <= k < i ==> visited[k] == old(companies[k].Value())
      invariant updated == CountUpdated(visited, net)
    {
      var company := companies[i];
      CountUpdatedAppend(visited, company.Value(), net);
      visited := visited + [company.Value()];
      var changed := EnrichCompany(company, net);
      if changed {
        updated := updated + 1;
      }
    }
    assert visited == old(Values(companies));
  }

  /** One iteration of the enrichment loop on one dictionary; `changed` says whether it stored a verdict. */
  method EnrichCompany(company: Company, net: Network) returns (changed: bool)
    modifies company
    ensures company.Value() == EnrichOne(old(company.Value()), net)
    ensures changed == IsUpdated(old(company.Value()), net)
  {
    changed := false;
    if Truthy(company.linkedinUrl) && company.mentionsS25.None? {
      var m := LinkedinCheckYcMention(net.check(company.linkedinUrl.value));
      if !m.Unknown? {
        company.mentionsS25, company.linkedinMatch := Matched(m), Evidence(m);
        changed := true;
      }
    }
  }

  // ----- extract_and_check and add_new_linkedin_companies -----

  /** The record's name: the title text, or "Unknown" when the page has no title element. */
  function NameOf(page: Page): string
  {
    if page.tagline.Some? then page.tagline.value else "Unknown"
  }

  /** The record's description: the full description, else the short one, else "". */
  function DescriptionOf(page: Page): string
  {
    if page.fullDesc.Some? then page.fullDesc.value
    else if page.shortDesc.Some? then page.shortDesc.value
    else ""
  }

  /** The record both `extract_and_check` functions build from a profile page. */
  function ProfileRecord(url: string, page: Page, website: Option<string>, m: Mention): Record
  {
    Record(Some(NameOf(page)), DescriptionOf(page), website, None, Some(url), Matched(m), Evidence(m), "linkedin")
  }

  /**
   * This module's `extract_and_check`: nothing when the classifier could not
   * reach a verdict or the profile request raised; otherwise a LinkedIn
   * record carrying the verdict, whether true or false.
   */
  function ExtractAndCheck(url: string, net: Network): (r: Option<Record>)
    ensures r.None? <==> MentionOf(net.check(url)).Unknown? || net.profile(url).Raised?
    ensures r.Some? ==>
      && r.value.linkedinUrl == Some(url) && r.value.ycProfileUrl.None? && r.value.website.None?
      && r.value.source == "linkedin" && r.value.mentionsS25.Some?
      && r.value.mentionsS25 == Matched(MentionOf(net.check(url)))
      && r.value.linkedinMatch == Evidence(MentionOf(net.check(url)))
      && (r.value.linkedinMatch.Some? <==> r.value.mentionsS25 == Some(true))
    ensures r.Some? ==> net.profile(url).Response?
    ensures r.Some? && net.profile(url).Response? ==>
      var page := net.profile(url).page;
      && r.value.name == Some(if page.tagline.Some? then page.tagline.value else "Unknown")
      && r.value.description == (if page.fullDesc.Some? then page.fullDesc.value
                                 else if page.shortDesc.Some? then page.shortDesc.value else "")
  {
    var m := MentionOf(net.check(url));
    if m.Unknown? then None
    else match net.profile(url)
      case Raised => None
      case Response(_, page) => Some(ProfileRecord(url, page, None, m))
  }

  /** The set of raw LinkedIn URLs of the loaded records, built once before the loop. */
  function KnownLinks(companies: seq<Record>): set<string>
  {
    set r | r in companies && Truthy(r.linkedinUrl) :: r.linkedinUrl.value
  }

  /** The candidates the loop fetches: those whose raw URL is not in the fixed set, in order. */
  function Fetched(links: set<string>, urls: seq<string>): (calls: seq<string>)
    ensures |calls| <= |urls|
  {
    if urls == [] then []
    else Fetched(links, urls[..|urls| - 1]) + (if urls[|urls| - 1] in links then [] else [urls[|urls| - 1]])
  }

  /** A URL is fetched exactly when it is a candidate whose raw URL is not in the set. */
  lemma {:induction false} FetchedExactly(links: set<string>, urls: seq<string>)
    ensures forall u :: u in Fetched(links, urls) <==> u in urls && u !in links
  {
    if urls != [] {
      var last := urls[|urls| - 1];
      FetchedExactly(links, urls[..|urls| - 1]);
      assert forall u :: u in urls <==> u in urls[..|urls| - 1] || u == last;
    }
  }

  /** One more candidate is fetched exactly when its raw URL is not in the set. */
  lemma {:induction false} FetchedNext(links: set<string>, urls: seq<string>, i: nat)
    requires i < |urls|
    ensures Fetched(links, urls[..i + 1]) == Fetched(links, urls[..i]) + (if urls[i] in links then [] else [urls[i]])
  {
    assert urls[..i + 1][..i] == urls[..i];
  }

  /** `extract_and_check` as the step the ingestion loop calls for each new candidate. */
  function FetchStep(net: Network): string -> Option<Record>
  {
    u => ExtractAndCheck(u, net)
  }

  /** Every record this module appends is a LinkedIn record for a fetched URL, with a verdict. */
  lemma {:induction false} AppendedHaveVerdict(calls: seq<string>, net: Network, r: Record)
    requires r in Collected(calls, FetchStep(net))
    ensures r.linkedinUrl.Some? && r.linkedinUrl.value in calls
    ensures r.mentionsS25.Some? && r.source == "linkedin" && r.ycProfileUrl.None?
  {
    CollectedFrom(calls, FetchStep(net), r);
  }

  /**
   * The loop of `add_new_linkedin_companies`, for any fetch step: skip
   * candidates whose raw URL is in the set, fetch the others in order and
   * append every record the step returns, both to the loaded records and to
   * the new entries.
   */
  method FetchNew(companies: seq<Record>, links: set<string>, urls: seq<string>, fetch: string -> Option<Record>)
    returns (result: seq<Record>, newEntries: seq<Record>, calls: seq<string>)
    ensures calls == Fetched(links, urls)
    ensures newEntries == Collected(calls, fetch)
    ensures result == companies + newEntries
  {
    result, newEntries, calls := companies, [], [];
    var i := 0;
    while i < |urls|
      invariant 0 <= i <= |urls|
      invariant calls == Fetched(links, urls[..i])
      invariant newEntries == Collected(calls, fetch)
      invariant result == companies + newEntries
    {
      var url := urls[i];
      FetchedNext(links, urls, i);
      if url !in links {
        var data := fetch(url);
        CollectedAppend(calls, fetch, url);
        calls := calls + [url];
        if data.Some? {
          assert result + [data.value] == companies + (newEntries + [data.value]);
          result := result + [data.value];
          newEntries := newEntries + [data.value];
        }
      }
      i := i + 1;
    }
    assert urls[..i] == urls;
  }

  /**
   * This module's `add_new_linkedin_companies` after loading: build the set
   * of raw URLs of the loaded records once, then run the loop with
   * `extract_and_check` as the fetch step.
   */
  method AddNewLinkedinCompanies(companies: seq<Record>, urls: seq<string>, net: Network)
    returns (result: seq<Record>, newEntries: seq<Record>, calls: seq<string>)
    ensures calls == Fetched(KnownLinks(companies), urls)
    ensures newEntries == Collected(calls, FetchStep(net))
    ensures result == companies + newEntries
  {
    var existingLinks := KnownLinks(companies);
    result, newEntries, calls := FetchNew(companies, existingLinks, urls, FetchStep(net));
  }
}
