# AI secretary web backend: news pipeline, briefing and route rules in Dafny

This project models the logic of a small finance web backend (a FastAPI
application) that gathers news about a stock ticker, snapshots its price,
asks a language model for a Korean market briefing, and keeps per-user watch
lists. Every remote service (the Naver news search, Google News RSS,
yfinance quotes and news, Google Translate and Gemini) is a function-valued
parameter whose result is a datatype of the service's answers, including its
failures. Password hashing and checking (bcrypt) and token issuing (JWT) are
parameters too, as total functions with no failure case. What remains is routing, folding, cleaning,
formatting and table rules, and each is proved against a specification.

Files, one module each:

- `common.dfy` (`Common`): `Option`, the normalised `NewsItem` record, and the
  two loop shapes of the sources. `Gather` is all-or-nothing: any exception
  empties the result. `GatherUntilRaise` keeps what was appended before the
  exception.
- `text.dfy` (`Text`): the Python string operations used: `str.replace`,
  `in`, `endswith`, `strip`, `upper`, and `str(n)` for an index.
- `externals.dfy` (`Externals`): the shapes of the foreign replies, already
  decoded. A missing JSON key or XML element is `None`.
- `news_collector.dfy` (`NewsCollector`): `app/news_collector.py`, the
  suffix-routed aggregator (Naver plus translated Yahoo news).
- `finance.dfy` (`Finance`): `app/finance.py`: the price snapshot, the index
  board, and the aggregator the web routes call (Naver, then at most five
  Google News RSS items).
- `ai_analyst.dfy` (`AiAnalyst`): `app/ai_analyst.py`, the briefing prompt
  and the fallback answer.
- `routes.dfy` (`Routes`): the rules of `app/main.py`: the chart alias map,
  the price and briefing guards, the watch list, signup and login.

Every loop of the modelled functions is a Dafny loop. Each is proved to compute a
specification function (`NaverNews`, `YahooNews`, `IntegratedNews`,
`DomesticHeadlines` and `GlobalHeadlines` through `IntegratedHeadlines`,
`KeptIndices`, `NewsText` inside `Analysis`). The lemmas state what the
source promises about those functions. The watch list and the user table are
classes whose methods change their fields in place. Each method is tied to
pure functions of the old state (`AfterCreate`, `AfterDelete`, `CreateReply`,
`DeleteReply`), and the lemmas are stated over those functions.

## Model

| member | source | states |
|---|---|---|
| `NewsCollector.TranslateToKorean` | app/news_collector.py:14-23 | empty text gives ""; a failing translator gives the text back unchanged; a translator that answers gives its answer |
| `NewsCollector.GetNaverNews` | app/news_collector.py:26-57 | the loop computes `NaverNews` for the reply to `(keyword, limit)`: an exception on any hit returns `[]` |
| `NewsCollector.NaverNewsNonEmptyOnlyIfAllSucceeds` | app/news_collector.py:27-57 | a non-empty result implies both credentials are set, the status is 200, the body decodes, and every hit has title, link and date |
| `NewsCollector.NaverNewsOneRecordPerHit` | app/news_collector.py:43-51 | when all succeeds, there is one record per hit in API order with source "Naver", `remove_html_tags` title, the hit's link and date, and not translated |
| `NewsCollector.NaverNewsDiscardsPartial` | app/news_collector.py:43-57 | a hit missing a key discards the records already built: the result is `[]` |
| `NewsCollector.NaverNewsTagged` | app/news_collector.py:44-50 | every record returned is tagged "Naver" and not translated |
| `NewsCollector.RemoveHtmlTagsUnchanged` | app/news_collector.py:128-129 | a string with no `<b>`, `</b>` or `&quot;` comes back unchanged |
| `NewsCollector.RemoveHtmlTags` | app/news_collector.py:128-129 | the output is never longer than the input |
| `NewsCollector.RemoveHtmlTagsLeavesNoQuot` | app/news_collector.py:129 | no `&quot;` survives, even one formed by removing a tag |
| `NewsCollector.RemoveHtmlTagsCanLeaveBold` | app/news_collector.py:129 | the replacements are single left-to-right passes: `<<b>b>` becomes `<b>` |
| `NewsCollector.GetYahooNews` | app/news_collector.py:60-105 | the loop over the first `limit` objects computes `YahooNews`: `continue` on an untitled object, `[]` on an exception |
| `NewsCollector.YahooNewsAtMostLimit` | app/news_collector.py:69-72 | at most `limit` records |
| `NewsCollector.YahooUntitledSkipped` | app/news_collector.py:73-79 | an object with a missing or empty title, whether wrapped in `content` or flat, is skipped and the rest of the batch is unaffected |
| `NewsCollector.TitledPayloads` | app/news_collector.py:73-79 | the payloads kept are titled (non-empty title) and no more numerous than the objects |
| `NewsCollector.YahooNewsPerObject` | app/news_collector.py:69-101 | with no null `content` among the first `limit` objects, one record per titled object of that slice, in order: source "Yahoo(US)", "[번역] " + translated title, the `clickThroughUrl.url`-or-`link` link, the `pubDate` (default ""), translated, and the original title; the slice is taken before untitled objects are skipped |
| `NewsCollector.YahooNullContentEmpties` | app/news_collector.py:73-105 | an object among the first `limit` whose `content` is null makes the call return `[]` |
| `NewsCollector.YahooNewsTagged` | app/news_collector.py:92-101 | every record has source "Yahoo(US)", is translated, keeps its non-empty original title, and has title "[번역] " + its translation |
| `NewsCollector.YahooLinkShapes` | app/news_collector.py:74-86 | the link is `clickThroughUrl.url` when `clickThroughUrl` is a non-empty object, "" when that object lacks `url`; otherwise it is the flat `link` or "" |
| `NewsCollector.GetIntegratedNews` | app/news_collector.py:108-126 | the method computes `IntegratedNews` by suffix routing and concatenation |
| `NewsCollector.DomesticUsesNaverOnly` | app/news_collector.py:112-119 | a `.KS`/`.KQ` ticker gets only the Naver search for the keyword with 5 results; yfinance and the translator do not matter |
| `NewsCollector.ForeignNaverBeforeYahoo` | app/news_collector.py:120-124 | other tickers get the Naver records (search with 3) first and then at most 5 Yahoo records |
| `NewsCollector.ForeignToleratesOneSourceFailing` | app/news_collector.py:120-126 | if one source yields nothing, for whatever reason, the result is the other source's records |
| `NewsCollector.HyundaiScenario` | test_finance.py:19 | `("005380.KS", "현대차")` is the Naver search for "현대차" with 5 results |
| `NewsCollector.AppleScenario` | test_finance.py:6 | `("AAPL", "애플")` is Naver "애플" with 3 results followed by Yahoo news of AAPL with 5 |
| `NewsCollector.LowerCaseSuffixIsForeign` | app/news_collector.py:112-114 | the suffix test is case-sensitive, and an empty company name falls back to the ticker |
| `Finance.NormalizeSymbol` | app/finance.py:17 | the normalised symbol is no longer than the input and has no lower-case ASCII letter |
| `Text.StripShape` | app/finance.py:17 | after `strip()`, the text is empty or starts and ends with a non-whitespace character |
| `Finance.NormalizedSymbolShape` | app/finance.py:17 | the normalised symbol has no surrounding whitespace and no lower-case ASCII letter |
| `Finance.NormalizeSymbolIdempotent` | app/finance.py:17 | normalising twice equals normalising once |
| `Finance.FallbackCurrency` | app/finance.py:35 | the guess is always KRW or USD |
| `Finance.KosdaqFallsBackToDollar` | app/finance.py:35 | a `.KQ` symbol with no other `S` falls back to USD, because only `.KS` is looked for |
| `Finance.UndottedFallsBackToDollar` | app/finance.py:35 | a symbol without a dot, other than `KRW=X`, falls back to USD |
| `Finance.KospiFallsBackToWon` | app/finance.py:35 | every symbol ending in `.KS` falls back to KRW |
| `Finance.ChangeRate` | app/finance.py:38-40 | the rate is 0 when the previous close is missing or not positive |
| `Finance.ChangeRateRecoversPrice` | app/finance.py:38-40 | with a positive previous close, prev × (1 + rate/100) = price |
| `Finance.ChangeRateSign` | app/finance.py:38-40 | with a positive previous close, the rate is positive iff the price rose, and zero iff it is unchanged |
| `Finance.GetCurrentPrice` | app/finance.py:15-50 | `None` exactly when the quote raises, has no last price, or has an empty history; otherwise `code` is the normalised symbol; on the fast path price, change and currency are the quote's last price, its change against the previous close, and its currency; on the history path the price is the last close, the change is against the close before it (or itself), and the currency is the guess |
| `Finance.FastPathSnapshot` | app/finance.py:23-40 | on the fast path the price and currency are the quote's; the change is 0 without a positive previous close, and otherwise positive exactly when the price rose |
| `Finance.HistoryPathSnapshot` | app/finance.py:30-35 | on the history path the currency is the fallback, and a single close gives change 0 |
| `Finance.CollectIndices` | app/finance.py:151-158 | the loop computes `KeptIndices`: lookups that fail are skipped, the others are tagged with their name |
| `Finance.GetMajorIndices` | app/finance.py:142-158 | the board is `KeptIndices` of the four fixed indices in dictionary order |
| `Finance.KeptIndicesInOrder` | app/finance.py:152-156 | the board's names are a subsequence of the index names |
| `Finance.KeptIndicesComplete` | app/finance.py:153-156 | every index whose lookup succeeds is on the board with its own snapshot |
| `Finance.KeptIndicesSound` | app/finance.py:153-156 | every board entry is an index name together with what that index's lookup returned |
| `Finance.AllIndicesUp` | app/finance.py:144-158 | when every lookup answers, the board is KOSPI, NASDAQ, S&P 500, Nikkei 225 in that order |
| `Finance.ClosingAngle` | app/finance.py:72 | the lazy match ends at the first `>` from the start position, with no `<` or `>` before it |
| `Finance.ClosingAngleReaches` | app/finance.py:72 | the lazy match does reach the first `>` when no `<` stands before it |
| `Finance.ClosingAngleFailsOnlyBehindOpen` | app/finance.py:72 | the lazy match fails only when every `>` from the start has a `<` before it |
| `Finance.TagAt` | app/finance.py:72 | a match of `<[^<]+?>` starts with `<`, then a character other than `<`, then characters other than `<` and `>`, and ends at that first `>` |
| `Finance.TagAtMatches` | app/finance.py:72 | conversely, wherever that shape begins the text it is matched, with that length |
| `Finance.StripTags` | app/finance.py:72 | the result is never longer than the input |
| `Finance.StripTagsPlainHead` | app/finance.py:72 | a character other than `<` at the front is never part of a match and is kept |
| `Finance.StripTagsKeepsPlainPrefix` | app/finance.py:72 | text with no `<` passes through the substitution untouched wherever it stands |
| `Finance.StripTagsRemovesTag` | app/finance.py:72 | a tag `<x>`, with `x` non-empty and free of `<` and `>`, is removed when only text free of `<` precedes it, whatever follows |
| `Finance.StripBold` | app/finance.py:72 | `<b>t</b>` loses both tags when `t` has no `<` |
| `Finance.CleanTitleDropsBold` | app/finance.py:72-73 | `<b>t</b>` cleans to `t` when `t` has no `<` or `&` |
| `Finance.CleanTitleUnescapesOnce` | app/finance.py:73 | `&amp;` is un-escaped last, so `&amp;` + t becomes `&` + t; for example `&amp;quot;` becomes `&quot;` |
| `Finance.CleanTitle` | app/finance.py:72-73 | cleaning never lengthens a title |
| `Finance.AppendDomestic` | app/finance.py:58-82 | block (A) appends `DomesticHeadlines` of the Naver reply to what came before: records are appended one by one, and an exception keeps those already appended |
| `Finance.AppendGlobal` | app/finance.py:85-114 | block (B) appends `GlobalHeadlines` of the feed reply: at most five items, and an exception keeps those already appended |
| `Finance.GetIntegratedNews` | app/finance.py:54-116 | the method computes `IntegratedHeadlines`: Naver searched for the ticker with 5 results, then the RSS search for "{ticker} stock"; each block keeps what it appended before an exception |
| `Finance.DomesticHeadlinesPerHit` | app/finance.py:71-80 | with complete hits, one record per hit with source "Domestic (Naver)", the cleaned title, `originallink` when non-empty, else `link`, and the hit's `pubDate` |
| `Finance.DomesticKeepsPartial` | app/finance.py:71-82 | a hit that raises keeps the records of the hits before it |
| `Finance.GlobalKeepsPartial` | app/finance.py:95-113 | a feed item among the first five that lacks `title`, `link` or `pubDate` keeps exactly the records of the items before it |
| `Finance.GlobalHeadlinesFirstFive` | app/finance.py:98-112 | with complete items, the first min(5, n) feed items in document order, tagged "Global (Google)" |
| `Finance.GlobalHeadlinesAtMostFive` | app/finance.py:100 | at most five feed records |
| `Finance.IntegratedHeadlinesOrder` | app/finance.py:57-116 | all Naver records come before all RSS records; at most 5 RSS records; if the Naver block yields nothing, for whatever reason, the result is the RSS records alone |
| `AiAnalyst.AnalyzeMarketData` | app/ai_analyst.py:13-54 | the method computes `Analysis`: the loop builds `NewsText`, and the prompt is sent unless the model cannot be constructed |
| `AiAnalyst.AnalysisIsReplyOrFallback` | app/ai_analyst.py:49-54 | the result is the model's text verbatim (no length or emptiness check), or exactly the fixed apology when construction or generation fails |
| `AiAnalyst.NewsLineIsOneLine` | app/ai_analyst.py:25 | a headline line whose title and source hold no line break has exactly one line break |
| `AiAnalyst.NewsTextOneLinePerHeadline` | app/ai_analyst.py:23-25 | with no line breaks inside titles or sources, the block has exactly one line per headline |
| `AiAnalyst.NewsTextListsEveryHeadline` | app/ai_analyst.py:24-25 | headline k appears as line "{k+1}. {title} ({source})" |
| `AiAnalyst.PromptCarriesInputs` | app/ai_analyst.py:28-46 | the prompt places the ticker (twice), the price, the change with "%", and the whole headline block in their template slots |
| `AiAnalyst.EmptyNewsStillAsks` | app/ai_analyst.py:23-50 | no headlines gives an empty block, and the prompt is still sent |
| `Text.DecimalRoundTrip` | app/ai_analyst.py:24-25 | the rendered line number reads back as the index |
| `Routes.ReadHomeChart` | app/main.py:271-281 | the requested symbol is never an alias, and the period is "3mo" |
| `Routes.HomeChartAliases` | app/main.py:271-281 | KOSPI, NASDAQ, S_P500 and NIKKEI map to the index symbols, any other ticker passes through, and the period is always "3mo" |
| `Routes.HomeChartResolvesOnce` | app/main.py:274-280 | resolving an alias twice gives the same request as resolving it once |
| `Routes.ReadAssetPrice` | app/main.py:128-140 | 404 exactly when the price lookup gives nothing; otherwise the lookup's own snapshot, whose code is the normalised symbol |
| `Routes.ReadAssetBriefing` | app/main.py:238-257 | 404 when the price lookup gives nothing; otherwise the briefing for the ticker as given, built from the snapshot and the routes' integrated headlines |
| `Routes.InterestTable.constructor` | app/models.py:39-57 | an empty watch-list table |
| `Routes.InterestTable.CreateInterest` | app/main.py:164-189 | the answer is `CreateReply` and the new table is `AfterCreate` of the old one |
| `Routes.InterestTable.DeleteInterest` | app/main.py:201-220 | the answer is `DeleteReply` and the new table is `AfterDelete` of the old one |
| `Routes.InterestTable.ReadInterests` | app/main.py:192-198 | a ticker is listed exactly when that user has a row for it, and it is listed with that row's category |
| `Routes.CreateInterestRule` | app/main.py:171-189 | a duplicate (user, ticker) is refused with 400 and nothing changes; otherwise exactly that pair is added with its category, and other rows are unchanged |
| `Routes.DeleteInterestRule` | app/main.py:208-220 | a missing pair is 404 and nothing changes; otherwise only that pair is removed |
| `Routes.CreateThenDeleteRestores` | app/main.py:171-220 | adding a new pair and then deleting it restores the table |
| `Routes.WatchedAfterChanges` | app/main.py:192-198 | an add appears in that user's list only, and a delete removes it from that list only |
| `Routes.UserDirectory.constructor` | app/models.py:12-18 | an empty user table |
| `Routes.UserDirectory.CreateUser` | app/main.py:35-43 | a registered e-mail is refused with 400 and changes nothing; otherwise a row with the next id and the hashed password is added; ids stay distinct |
| `Routes.NicknameOrDefault` | app/main.py:62-64 | a missing or empty nickname becomes "사용자"; any other is kept |
| `Routes.UserDirectory.Login` | app/main.py:46-64 | success exactly when the e-mail is registered and the password matches its hash, and then a bearer token issued for the e-mail |
| `Routes.LoginReply` | app/main.py:46-64 | 401 iff the e-mail is unknown or the password check fails; otherwise a bearer token for the e-mail with the nickname or its default |
| `Routes.SignupThenLogin` | app/main.py:35-64 | a freshly signed-up account logs in with its own password and gets its nickname or the default |

## Left out

- Network, JSON and XML are not modelled. The replies of the Naver search, Google News RSS, yfinance, the translator and Gemini are parameters. Timeouts and transport exceptions are reply variants.
- A JSON `null` where the source expects a list or string is not modelled, nor an RSS element present with no text (`.text` is `None`). A missing key or element is modelled (KeyError or AttributeError, handled as the source handles it).
- Finance.GetCurrentPrice: leaves out `round(..., 2)` and Python float semantics, and uses exact reals. The fast-path `currency` is a string, so a `None` currency is not modelled.
- Finance.ChangeRateRecoversPrice: holds for the unrounded rate only.
- Text.Upper: only ASCII letters are upper-cased; Unicode case mapping is not modelled.
- The `str()` rendering of the price and change in the prompt is a parameter (`show`).
- `get_price_history`, `get_price_history_custom` and the `hist['Close']` handling are pandas and float work. They are not modelled; `Routes.ReadHomeChart` stops at the request it would make.
- The `is_forex` flag is computed but never used; it is not modelled.
- app/utils.py (bcrypt hashing and checking, JWT creation with a clock-based expiry) is parameters `hash`, `verify` and `issue`.
- `get_current_user`, `read_users_me` and the template routes are not modelled. They are authentication plumbing and HTML.
- `read_asset_history` (app/main.py) returns `get_price_history`, which is pandas work. It is not modelled.
- `read_asset_news` (app/main.py:145-156) and `read_home_indices` (app/main.py:266-268) are not modelled. They only return `get_integrated_news` and `get_major_indices`, which are modelled as `Finance.IntegratedHeadlines` and `Finance.GetMajorIndices`.
- `get_exchange_rate` (app/finance.py:182-188) is not modelled. It is one yfinance read of `KRW=X` with a `None` fallback, and no route calls it.
- Routes.InterestTable.ReadInterests: each row's `id` and `user_id` are dropped. Rows have no id in the model, and `user_id` is the argument.
- The database is not modelled (SQLAlchemy sessions, commits, cascades, `created_at`). The watch list is a map keyed by the unique `(user_id, ticker)` pair. The user table is a map keyed by the unique e-mail, and the autoincrement key is a counter.
- Concurrent requests are not modelled. Each route runs alone on the table.
- Routes.ReadAssetBriefing: the foreign calls are pure parameters, so the order of the calls is not observable. The model states what is returned, not that no news is fetched when the price lookup fails.
- app/schemas.py defines `InterestCreate` twice, and the second definition (`ticker`, `category` with default "stock") wins. The default is applied when the request is decoded, so `CreateInterest` takes the category as given.
- `print` logging is not modelled.

Where the written description of the system and the code differ, the model follows the code:

- `remove_html_tags` is three plain replacements, so `<<b>b>` leaves `<b>`.
- The route title cleaning un-escapes `&amp;` last, so `&amp;quot;` yields `&quot;`.
- `.KQ` tickers fall back to USD, because only `.KS` is checked.
- The Naver search in `news_collector` is not capped by the code, so its record count is not bounded by `limit`.
- The model's text is returned even when it is empty or over 500 characters.
