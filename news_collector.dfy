/** app/news_collector.py: a suffix-routed aggregator over the Naver news search
    and yfinance news, with titles of the latter machine-translated to Korean. */
module NewsCollector {
  import opened Common
  import opened Text
  import opened Externals

  const NaverSource: string := "Naver"
  const YahooSource: string := "Yahoo(US)"
  const TranslatedMark: string := "[번역] "

  // ---- translate_to_korean ----

  /** Best-effort translation: empty text is answered without the backend, and a
      failing backend hands the text back unchanged. */
  function TranslateToKorean(text: string, translator: Translator): (r: string)
    ensures text == "" ==> r == ""
    ensures text != "" && translator(text).None? ==> r == text
    ensures text != "" && translator(text).Some? ==> r == translator(text).value
  {
    if text == "" then ""
    else match translator(text)
      case Some(translated) => translated
      case None => text
  }

  // ---- remove_html_tags ----

  /** Three successive `str.replace` calls: `<b>` and `</b>` are dropped, `&quot;`
      becomes `"`. No replacement is longer than its pattern, so the text never grows. */
  function RemoveHtmlTags(s: string): (r: string)
    ensures |r| <= |s|
  {
    var a := ReplaceAll(s, "<b>", "");
    var b := ReplaceAll(a, "</b>", "");
    ReplaceNoLonger(s, "<b>", "");
    ReplaceNoLonger(a, "</b>", "");
    ReplaceNoLonger(b, "&quot;", "\"");
    ReplaceAll(b, "&quot;", "\"")
  }

  lemma RemoveHtmlTagsUnchanged(s: string)
    requires !Contains(s, "<b>") && !Contains(s, "</b>") && !Contains(s, "&quot;")
    ensures RemoveHtmlTags(s) == s
  {
    ReplaceAbsent(s, "<b>", "");
    ReplaceAbsent(s, "</b>", "");
    ReplaceAbsent(s, "&quot;", "\"");
  }

  /** Every `&quot;` is un-escaped: none survives, even one formed by removing a tag. */
  lemma RemoveHtmlTagsLeavesNoQuot(s: string)
    ensures !Contains(RemoveHtmlTags(s), "&quot;")
  {
    var b := ReplaceAll(ReplaceAll(s, "<b>", ""), "</b>", "");
    ReplaceByFreshCharRemovesAll(b, "&quot;", '"');
  }

  /** Bold tags are not all removed: removing one can join the pieces of another. */
  lemma RemoveHtmlTagsCanLeaveBold()
    ensures RemoveHtmlTags("<<b>b>") == "<b>"
  {
    BoldFirstPass();
    BoldLaterPasses();
  }

  /** Removing `<b>` from `<<b>b>` joins the two halves into a new `<b>`. */
  lemma BoldFirstPass()
    ensures ReplaceAll("<<b>b>", "<b>", "") == "<b>"
  {
    assert !IsPrefix("<b>", "<<b>b>");
    assert IsPrefix("<b>", "<b>b>");
    assert "<<b>b>"[1..] == "<b>b>";
    assert "<b>b>"[3..] == "b>";
    assert !IsPrefix("<b>", "b>") && !IsPrefix("<b>", ">");
    assert "b>"[1..] == ">";
  }

  /** The later passes leave `<b>` alone. */
  lemma BoldLaterPasses()
    ensures ReplaceAll(ReplaceAll("<b>", "</b>", ""), "&quot;", "\"") == "<b>"
  {
    assert "<b>"[1..] == "b>" && "b>"[1..] == ">" && ">"[1..] == "";
    assert !Contains("<b>", "</b>") by {
      assert !IsPrefix("</b>", "<b>");
    }
    ReplaceAbsent("<b>", "</b>", "");
    assert !Contains("<b>", "&quot;");
    ReplaceAbsent("<b>", "&quot;", "\"");
  }

  // ---- get_naver_news ----

  /** `if not NAVER_CLIENT_ID or not NAVER_CLIENT_SECRET`: absent or empty is missing. */
  predicate HasCredentials(c: NaverCredentials) {
    c.clientId.Some? && c.clientId.value != "" && c.clientSecret.Some? && c.clientSecret.value != ""
  }

  /** One search hit as a record; a missing `title`, `link` or `pubDate` raises KeyError. */
  function NaverRecord(item: NaverItem): Step<NewsItem> {
    if item.title.None? || item.link.None? || item.pubDate.None? then Raise
    else Emit(NewsItem(NaverSource, RemoveHtmlTags(item.title.value), item.link.value,
                       item.pubDate.value, Some(false), None))
  }

  /** What `get_naver_news` returns for these credentials and this reply. */
  function NaverNews(creds: NaverCredentials, reply: NaverReply): seq<NewsItem> {
    if !HasCredentials(creds) then []
    else match reply
      case NaverUnreachable => []
      case NaverResponse(status, body) =>
        if status != 200 then []
        else match body
          case NaverUndecodable => []
          case NaverJson(items) => Gather(items.GetOr([]), NaverRecord).GetOr([])
  }

  method GetNaverNews(keyword: string, limit: nat, creds: NaverCredentials, search: NaverSearch)
    returns (news: seq<NewsItem>)
    ensures news == NaverNews(creds, search(keyword, limit))
  {
    if !HasCredentials(creds) {
      return [];
    }
    var reply := search(keyword, limit);
    if reply.NaverUnreachable? || reply.status != 200 || reply.body.NaverUndecodable? {
      return [];
    }
    var items := reply.body.items.GetOr([]);
    var built: seq<NewsItem> := [];
    GatherStart(items, NaverRecord);
    for i := 0 to |items|
      invariant Gather(items, NaverRecord) == Prepend(built, Gather(items[i..], NaverRecord))
    {
      GatherTurn(items, i, built, NaverRecord);
      var step := NaverRecord(items[i]);
      if step.Raise? {
        return [];
      }
      built := built + [step.record];
    }
    GatherDone(items, built, NaverRecord);
    news := built;
  }

  predicate WellFormedNaverItem(item: NaverItem) {
    item.title.Some? && item.link.Some? && item.pubDate.Some?
  }

  /** The list is empty unless credentials are set, the call succeeds with status
      200, the body decodes, and every hit has a title, a link and a date. */
  lemma NaverNewsNonEmptyOnlyIfAllSucceeds(creds: NaverCredentials, reply: NaverReply)
    ensures NaverNews(creds, reply) != [] ==>
      && HasCredentials(creds)
      && reply.NaverResponse? && reply.status == 200 && reply.body.NaverJson?
      && reply.body.items.Some?
      && forall i | 0 <= i < |reply.body.items.value| :: WellFormedNaverItem(reply.body.items.value[i])
  {
    if NaverNews(creds, reply) != [] {
      var items := reply.body.items.GetOr([]);
      GatherFailsIffSomeRaise(items, NaverRecord);
      forall i | 0 <= i < |items| ensures WellFormedNaverItem(items[i]) {
        assert !NaverRecord(items[i]).Raise?;
      }
    }
  }

  /** When everything succeeds there is one record per hit, in the API's order,
      tagged "Naver", untranslated, with the tag-stripped title and the `link`. */
  lemma NaverNewsOneRecordPerHit(creds: NaverCredentials, status: int, items: seq<NaverItem>)
    requires HasCredentials(creds) && status == 200
    requires forall i | 0 <= i < |items| :: WellFormedNaverItem(items[i])
    ensures var news := NaverNews(creds, NaverResponse(status, NaverJson(Some(items))));
      && |news| == |items|
      && forall i | 0 <= i < |items| && WellFormedNaverItem(items[i]) ::
           && news[i].source == NaverSource
           && news[i].title == RemoveHtmlTags(items[i].title.value)
           && news[i].link == items[i].link.value
           && news[i].pubDate == items[i].pubDate.value
           && news[i].isTranslated == Some(false)
  {
    GatherAllEmitted(items, NaverRecord);
  }

  /** A hit that raises half-way discards the hits already turned into records. */
  lemma NaverNewsDiscardsPartial(creds: NaverCredentials, before: seq<NaverItem>, bad: NaverItem, after: seq<NaverItem>)
    requires HasCredentials(creds)
    requires !WellFormedNaverItem(bad)
    ensures NaverNews(creds, NaverResponse(200, NaverJson(Some(before + [bad] + after)))) == []
  {
    var items := before + [bad] + after;
    assert items[|before|] == bad;
    GatherFailsIffSomeRaise(items, NaverRecord);
  }

  /** Every record the source returns is tagged "Naver" and untranslated. */
  lemma NaverNewsTagged(creds: NaverCredentials, reply: NaverReply)
    ensures forall k | 0 <= k < |NaverNews(creds, reply)| ::
      NaverNews(creds, reply)[k].source == NaverSource && NaverNews(creds, reply)[k].isTranslated == Some(false)
  {
    if HasCredentials(creds) && reply.NaverResponse? && reply.status == 200 && reply.body.NaverJson? {
      GatherKeeps(reply.body.items.GetOr([]), NaverRecord,
                  (n: NewsItem) => n.source == NaverSource && n.isTranslated == Some(false));
    }
  }

  // ---- get_yahoo_news ----

  /** `item.get('content', item)`; `None` when `content` holds null (the later `.get` raises). */
  function YahooPayloadOf(item: YahooItem): Option<YahooPayload> {
    match item
    case Wrapped(p) => Some(p)
    case WrappedNull => None
    case Flat(p) => Some(p)
  }

  /** The article link: `clickThroughUrl.url` (default "") when `clickThroughUrl`
      is a non-empty object, else the flat `link` (default ""). */
  function YahooLink(p: YahooPayload): string {
    if p.clickThroughUrl.Some? && p.clickThroughUrl.value != map[] then
      (if "url" in p.clickThroughUrl.value then p.clickThroughUrl.value["url"] else "")
    else p.link.GetOr("")
  }

  /** One news object as a record: untitled objects are skipped. */
  function YahooRecord(item: YahooItem, translator: Translator): Step<NewsItem> {
    match YahooPayloadOf(item)
    case None => Raise
    case Some(p) =>
      if p.title.None? || p.title.value == "" then Skip
      else
        var original := p.title.value;
        Emit(NewsItem(YahooSource, TranslatedMark + TranslateToKorean(original, translator),
                      YahooLink(p), p.pubDate.GetOr(""), Some(true), Some(original)))
  }

  function YahooRecordFor(translator: Translator): YahooItem -> Step<NewsItem> {
    (item: YahooItem) => YahooRecord(item, translator)
  }

  /** What `get_yahoo_news` returns for this reply. */
  function YahooNews(reply: YahooReply, limit: nat, translator: Translator): seq<NewsItem> {
    match reply
    case YahooUnreachable => []
    case NewsObjects(items) =>
      Gather(Take(items, limit), YahooRecordFor(translator)).GetOr([])
  }

  method GetYahooNews(ticker: string, limit: nat, feed: YahooFeed, translator: Translator)
    returns (news: seq<NewsItem>)
    ensures news == YahooNews(feed(ticker), limit, translator)
  {
    var reply := feed(ticker);
    if reply.YahooUnreachable? || reply.items == [] {
      return [];
    }
    var selected := Take(reply.items, limit);
    var record := YahooRecordFor(translator);
    var built: seq<NewsItem> := [];
    GatherStart(selected, record);
    for i := 0 to |selected|
      invariant Gather(selected, record) == Prepend(built, Gather(selected[i..], record))
    {
      GatherTurn(selected, i, built, record);
      var step := YahooRecord(selected[i], translator);
      if step.Raise? {
        return [];
      }
      if step.Skip? {
        continue;
      }
      built := built + [step.record];
    }
    GatherDone(selected, built, record);
    news := built;
  }

  /** Only the first `limit` objects are looked at. */
  lemma YahooNewsAtMostLimit(reply: YahooReply, limit: nat, translator: Translator)
    ensures |YahooNews(reply, limit, translator)| <= limit
  {
  }

  /** An untitled object, wrapped in `content` or flat, is passed over without
      disturbing the rest of the batch. */
  lemma YahooUntitledSkipped(before: seq<YahooItem>, x: YahooItem, after: seq<YahooItem>,
                             limit: nat, translator: Translator)
    requires YahooPayloadOf(x).Some?
    requires YahooPayloadOf(x).value.title.None? || YahooPayloadOf(x).value.title.value == ""
    requires |before| + 1 + |after| <= limit
    ensures YahooNews(NewsObjects(before + [x] + after), limit, translator)
         == YahooNews(NewsObjects(before + after), limit, translator)
  {
    assert Take(before + [x] + after, limit) == before + [x] + after;
    assert Take(before + after, limit) == before + after;
    GatherSkipsEntry(before, x, after, YahooRecordFor(translator));
  }

  /** The payloads of the titled objects, in order (objects whose `content` is
      null have none). */
  function TitledPayloads(items: seq<YahooItem>): (r: seq<YahooPayload>)
    ensures |r| <= |items|
    ensures forall k | 0 <= k < |r| :: r[k].title.Some? && r[k].title.value != ""
    decreases |items|
  {
    if items == [] then []
    else match YahooPayloadOf(items[0])
      case Some(p) =>
        if p.title.Some? && p.title.value != "" then [p] + TitledPayloads(items[1..])
        else TitledPayloads(items[1..])
      case None => TitledPayloads(items[1..])
  }

  /** The record `get_yahoo_news` builds from a titled payload. */
  ghost predicate IsYahooRecordOf(n: NewsItem, p: YahooPayload, translator: Translator)
    requires p.title.Some?
  {
    n == NewsItem(YahooSource, TranslatedMark + TranslateToKorean(p.title.value, translator),
                  YahooLink(p), p.pubDate.GetOr(""), Some(true), Some(p.title.value))
  }

  lemma {:induction false} YahooGatherPerTitled(xs: seq<YahooItem>, translator: Translator)
    requires forall k | 0 <= k < |xs| :: !xs[k].WrappedNull?
    ensures Gather(xs, YahooRecordFor(translator)).Some?
    ensures var news := Gather(xs, YahooRecordFor(translator)).value;
      var ps := TitledPayloads(xs);
      && |news| == |ps|
      && forall k | 0 <= k < |ps| :: IsYahooRecordOf(news[k], ps[k], translator)
  {
    if xs != [] {
      var f := YahooRecordFor(translator);
      assert !xs[0].WrappedNull?;
      forall k | 0 <= k < |xs[1..]| ensures !xs[1..][k].WrappedNull? {
        assert xs[1..][k] == xs[k + 1];
      }
      YahooGatherPerTitled(xs[1..], translator);
      var p := YahooPayloadOf(xs[0]).value;
      var rest := Gather(xs[1..], f).value;
      var restPs := TitledPayloads(xs[1..]);
      if p.title.Some? && p.title.value != "" {
        var u := f(xs[0]).record;
        assert IsYahooRecordOf(u, p, translator);
        assert Gather(xs, f).value == [u] + rest;
        assert TitledPayloads(xs) == [p] + restPs;
        forall k | 0 <= k < |restPs| + 1
          ensures IsYahooRecordOf(([u] + rest)[k], ([p] + restPs)[k], translator)
        {
          if k > 0 {
            assert ([u] + rest)[k] == rest[k - 1] && ([p] + restPs)[k] == restPs[k - 1];
          }
        }
      } else {
        assert f(xs[0]).Skip?;
      }
    }
  }

  /** When no object has a null `content`, there is one record per titled object
      among the first `limit`, in order: the source mark, the translated title, the
      click-through or flat link, the date, and the original title. Titled objects
      past the first `limit` never count, even when some of those are untitled. */
  lemma YahooNewsPerObject(items: seq<YahooItem>, limit: nat, translator: Translator)
    requires forall k | 0 <= k < |Take(items, limit)| :: !Take(items, limit)[k].WrappedNull?
    ensures var news := YahooNews(NewsObjects(items), limit, translator);
      var ps := TitledPayloads(Take(items, limit));
      && |news| == |ps|
      && forall k | 0 <= k < |ps| ::
           news[k] == NewsItem(YahooSource, TranslatedMark + TranslateToKorean(ps[k].title.value, translator),
                               YahooLink(ps[k]), ps[k].pubDate.GetOr(""), Some(true), Some(ps[k].title.value))
  {
    YahooGatherPerTitled(Take(items, limit), translator);
  }

  /** An object among the first `limit` whose `content` is null makes the whole call return `[]`. */
  lemma YahooNullContentEmpties(items: seq<YahooItem>, k: nat, limit: nat, translator: Translator)
    requires k < |items| && k < limit
    requires items[k].WrappedNull?
    ensures YahooNews(NewsObjects(items), limit, translator) == []
  {
    var taken := Take(items, limit);
    assert taken[k] == items[k];
    assert YahooRecordFor(translator)(taken[k]).Raise?;
    GatherFailsIffSomeRaise(taken, YahooRecordFor(translator));
  }

  /** Every record is tagged "Yahoo(US)", marked translated, keeps its original
      title, and shows the translation behind the "[번역] " mark. */
  lemma YahooNewsTagged(reply: YahooReply, limit: nat, translator: Translator)
    ensures forall k | 0 <= k < |YahooNews(reply, limit, translator)| ::
      var n := YahooNews(reply, limit, translator)[k];
      && n.source == YahooSource && n.isTranslated == Some(true) && n.originalTitle.Some?
      && n.originalTitle.value != ""
      && n.title == TranslatedMark + TranslateToKorean(n.originalTitle.value, translator)
  {
    if reply.NewsObjects? {
      GatherKeeps(Take(reply.items, limit), YahooRecordFor(translator),
                  (n: NewsItem) =>
                    && n.source == YahooSource && n.isTranslated == Some(true) && n.originalTitle.Some?
                    && n.originalTitle.value != ""
                    && n.title == TranslatedMark + TranslateToKorean(n.originalTitle.value, translator));
    }
  }

  /** The payload shapes: a wrapped object with a click-through URL, a flat object
      with a plain link, and an empty click-through object that falls back to `link`. */
  lemma YahooLinkShapes(title: string, u: string, l: string)
    ensures YahooLink(YahooPayload(Some(title), Some(map["url" := u]), Some(l), None)) == u
    ensures YahooLink(YahooPayload(Some(title), None, Some(l), None)) == l
    ensures YahooLink(YahooPayload(Some(title), Some(map[]), Some(l), None)) == l
    ensures YahooLink(YahooPayload(Some(title), Some(map["id" := u]), Some(l), None)) == ""
    ensures YahooLink(YahooPayload(Some(title), None, None, None)) == ""
  {
    assert map["url" := u] != map[] by { assert "url" in map["url" := u]; }
    assert map["id" := u] != map[] by { assert "id" in map["id" := u]; }
  }

  // ---- get_integrated_news ----

  /** A ticker listed on the Korea Exchange (KOSPI `.KS` or KOSDAQ `.KQ`). */
  predicate IsDomestic(ticker: string) {
    EndsWith(ticker, ".KS") || EndsWith(ticker, ".KQ")
  }

  /** The Naver search keyword: the company name when one is known and non-empty, else the ticker. */
  function SearchKeyword(ticker: string, companyName: Option<string>): string {
    if companyName.Some? && companyName.value != "" then companyName.value else ticker
  }

  /** What `get_integrated_news` returns. */
  function IntegratedNews(ticker: string, companyName: Option<string>, creds: NaverCredentials,
                          search: NaverSearch, feed: YahooFeed, translator: Translator): seq<NewsItem>
  {
    var keyword := SearchKeyword(ticker, companyName);
    if IsDomestic(ticker) then NaverNews(creds, search(keyword, 5))
    else NaverNews(creds, search(keyword, 3)) + YahooNews(feed(ticker), 5, translator)
  }

  method GetIntegratedNews(ticker: string, companyName: Option<string>, creds: NaverCredentials,
                           search: NaverSearch, feed: YahooFeed, translator: Translator)
    returns (news: seq<NewsItem>)
    ensures news == IntegratedNews(ticker, companyName, creds, search, feed, translator)
  {
    news := [];
    var domestic := IsDomestic(ticker);
    var keyword := SearchKeyword(ticker, companyName);
    if domestic {
      var naver := GetNaverNews(keyword, 5, creds, search);
      assert news + naver == naver;
      news := news + naver;
    } else {
      var naver := GetNaverNews(keyword, 3, creds, search);
      assert news + naver == naver;
      news := news + naver;
      var yahoo := GetYahooNews(ticker, 5, feed, translator);
      news := news + yahoo;
    }
  }

  /** A domestic ticker never reaches yfinance or the translator: its news is the
      Naver search for the keyword with five results, whatever they would answer. */
  lemma DomesticUsesNaverOnly(ticker: string, companyName: Option<string>, creds: NaverCredentials,
                              search: NaverSearch, feed1: YahooFeed, feed2: YahooFeed,
                              translator1: Translator, translator2: Translator)
    requires IsDomestic(ticker)
    ensures IntegratedNews(ticker, companyName, creds, search, feed1, translator1)
         == IntegratedNews(ticker, companyName, creds, search, feed2, translator2)
         == NaverNews(creds, search(SearchKeyword(ticker, companyName), 5))
    ensures forall k | 0 <= k < |IntegratedNews(ticker, companyName, creds, search, feed1, translator1)| ::
      IntegratedNews(ticker, companyName, creds, search, feed1, translator1)[k].source == NaverSource
  {
    NaverNewsTagged(creds, search(SearchKeyword(ticker, companyName), 5));
  }

  /** A foreign ticker gets up to three Naver records first, then up to five Yahoo
      records; no record of one source comes after a record of the other. */
  lemma ForeignNaverBeforeYahoo(ticker: string, companyName: Option<string>, creds: NaverCredentials,
                                search: NaverSearch, feed: YahooFeed, translator: Translator)
    requires !IsDomestic(ticker)
    ensures var news := IntegratedNews(ticker, companyName, creds, search, feed, translator);
      var n := |NaverNews(creds, search(SearchKeyword(ticker, companyName), 3))|;
      && n <= |news| <= n + 5
      && (forall k | 0 <= k < n :: news[k].source == NaverSource)
      && (forall k | n <= k < |news| :: news[k].source == YahooSource)
  {
    NaverNewsTagged(creds, search(SearchKeyword(ticker, companyName), 3));
    YahooNewsTagged(feed(ticker), 5, translator);
  }

  /** One source failing outright leaves the other's records as the whole result. */
  lemma ForeignToleratesOneSourceFailing(ticker: string, companyName: Option<string>, creds: NaverCredentials,
                                         search: NaverSearch, feed: YahooFeed, translator: Translator)
    requires !IsDomestic(ticker)
    ensures NaverNews(creds, search(SearchKeyword(ticker, companyName), 3)) == [] ==>
      IntegratedNews(ticker, companyName, creds, search, feed, translator) == YahooNews(feed(ticker), 5, translator)
    ensures YahooNews(feed(ticker), 5, translator) == [] ==>
      IntegratedNews(ticker, companyName, creds, search, feed, translator)
        == NaverNews(creds, search(SearchKeyword(ticker, companyName), 3))
  {
    var naver := NaverNews(creds, search(SearchKeyword(ticker, companyName), 3));
    var yahoo := YahooNews(feed(ticker), 5, translator);
    assert [] + yahoo == yahoo;
    assert naver + [] == naver;
  }

  /** Scenario: Hyundai Motor on the KOSPI, searched as "현대차". */
  lemma HyundaiScenario(creds: NaverCredentials, search: NaverSearch, feed: YahooFeed, translator: Translator)
    ensures IntegratedNews("005380.KS", Some("현대차"), creds, search, feed, translator)
         == NaverNews(creds, search("현대차", 5))
  {
    assert "005380.KS"[6..] == ".KS";
  }

  /** Scenario: Apple, searched as "애플" on Naver and by ticker on yfinance. */
  lemma AppleScenario(creds: NaverCredentials, search: NaverSearch, feed: YahooFeed, translator: Translator)
    ensures IntegratedNews("AAPL", Some("애플"), creds, search, feed, translator)
         == NaverNews(creds, search("애플", 3)) + YahooNews(feed("AAPL"), 5, translator)
  {
    assert "AAPL"[1..] != ".KS" && "AAPL"[1..] != ".KQ" by { assert "AAPL"[1..][0] == 'A'; }
  }

  /** The suffix test is case-sensitive and the ticker is not normalised first. */
  lemma LowerCaseSuffixIsForeign()
    ensures !IsDomestic("005380.ks")
    ensures SearchKeyword("005380.KS", Some("")) == "005380.KS"
  {
    assert "005380.ks"[6..] != ".KS" && "005380.ks"[6..] != ".KQ" by { assert "005380.ks"[6..][1] == 'k'; }
  }
}
