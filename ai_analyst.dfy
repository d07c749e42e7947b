/** app/ai_analyst.py: the market briefing. The headlines are rendered as a
    numbered list, spliced with the ticker and the price snapshot into a fixed
    Korean prompt, and the prompt is sent to Gemini; any failure gives a fixed
    apology instead. */
module AiAnalyst {
  import opened Common
  import opened Text
  import opened Externals
  import opened Finance

  /** One headline line: `f"{idx}. {news['title']} ({news['source']})\n"`. */
  function NewsLine(idx: nat, news: NewsItem): string {
    DecimalString(idx) + ". " + news.title + " (" + news.source + ")\n"
  }

  /** The headline block for `newsList`, numbered from 1 as `enumerate(news_list, 1)` does. */
  function NewsText(newsList: seq<NewsItem>): string
    decreases |newsList|
  {
    if newsList == [] then ""
    else NewsText(newsList[..|newsList| - 1]) + NewsLine(|newsList|, newsList[|newsList| - 1])
  }

  /** The apology returned when the model cannot be built or does not answer. */
  const Fallback: string := "죄송합니다. 현재 AI 분석 서버 연결이 지연되고 있습니다. 잠시 후 다시 시도해주세요."

  // The f-string prompt, cut at the places where values are spliced in.
  const PromptOpening: string :=
    "\n        당신은 월가에서 20년 경력을 가진 유능한 '금융 애널리스트'입니다.\n        아래 데이터를 바탕으로 '"
  const PromptBrief: string :=
    "' 종목의 현재 상황과 등락 원인을 분석해서 브리핑해주세요.\n\n        [시장 데이터]\n        - 현재가: "
  const PromptChange: string := "\n        - 등락률: "
  const PromptHeadlines: string := "%\n\n        [최신 뉴스 헤드라인]\n        "
  const PromptPrinciples: string :=
    "\n\n        [작성 원칙]\n"
    + "        1. **등락의 핵심 원인**을 뉴스에 기반하여 논리적으로 설명하세요.\n"
    + "        2. 상승/하락 여부에 따라 긍정적/부정적 요인을 명확히 짚어주세요.\n"
    + "        3. 단순한 뉴스 나열이 아니라, 투자자가 이해하기 쉬운 **'인사이트'**를 제공하세요.\n"
    + "        4. 말투는 \"~했습니다.\", \"~보입니다.\"와 같은 **전문적이고 정중한 '해요체'**를 사용하세요.\n"
    + "        5. 분량은 반드시 **공백 포함 한글 350자 이상, 500자 이하**로 작성하세요.\n"
    + "        6. 글의 시작을 \"현재 "
  const PromptClosing: string := "의 주가는...\" 으로 시작하지 마세요. 바로 핵심 분석으로 들어가세요.\n        "

  /** The f-string prompt. `show` renders a float as `str()` does (the snapshot's
      `price` and `change_percent`). */
  function Prompt(ticker: string, priceInfo: PriceInfo, newsText: string, show: real -> string): string {
    PromptOpening + ticker + PromptBrief + show(priceInfo.price) + PromptChange
    + show(priceInfo.changePercent) + PromptHeadlines + newsText + PromptPrinciples + ticker + PromptClosing
  }

  /** What `analyze_market_data` returns. */
  function Analysis(ticker: string, priceInfo: PriceInfo, newsList: seq<NewsItem>,
                    show: real -> string, gemini: Gemini): string
  {
    if !gemini.constructs then Fallback
    else gemini.generate(Prompt(ticker, priceInfo, NewsText(newsList), show)).GetOr(Fallback)
  }

  method AnalyzeMarketData(ticker: string, priceInfo: PriceInfo, newsList: seq<NewsItem>,
                           show: real -> string, gemini: Gemini)
    returns (analysis: string)
    ensures analysis == Analysis(ticker, priceInfo, newsList, show, gemini)
  {
    if !gemini.constructs {
      return Fallback;
    }
    var newsText := "";
    for idx := 1 to |newsList| + 1
      invariant newsText == NewsText(newsList[..idx - 1])
    {
      assert newsList[..idx][..idx - 1] == newsList[..idx - 1];
      newsText := newsText + NewsLine(idx, newsList[idx - 1]);
    }
    assert newsList[..|newsList|] == newsList;
    var prompt := Prompt(ticker, priceInfo, newsText, show);
    var response := gemini.generate(prompt);
    if response.None? {
      return Fallback;
    }
    return response.value;
  }

  /** The briefing is the model's text verbatim, or else the apology: no length
      check, no emptiness check, nothing is appended. */
  lemma AnalysisIsReplyOrFallback(ticker: string, priceInfo: PriceInfo, newsList: seq<NewsItem>,
                                  show: real -> string, gemini: Gemini)
    ensures var r := Analysis(ticker, priceInfo, newsList, show, gemini);
      var reply := gemini.generate(Prompt(ticker, priceInfo, NewsText(newsList), show));
      && (gemini.constructs && reply.Some? ==> r == reply.value)
      && (!gemini.constructs || reply.None? ==> r == Fallback)
  {
  }

  function CountChar(s: string, c: char): nat
    decreases |s|
  {
    if s == [] then 0 else (if s[0] == c then 1 else 0) + CountChar(s[1..], c)
  }

  lemma {:induction false} CountCharAppend(a: string, b: string, c: char)
    ensures CountChar(a + b, c) == CountChar(a, c) + CountChar(b, c)
    decreases |a|
  {
    if a == [] {
      assert a + b == b;
    } else {
      assert (a + b)[0] == a[0] && (a + b)[1..] == a[1..] + b;
      CountCharAppend(a[1..], b, c);
    }
  }

  lemma {:induction false} CountCharAbsent(s: string, c: char)
    requires c !in s
    ensures CountChar(s, c) == 0
    decreases |s|
  {
    if s != [] {
      assert forall d | d in s[1..] :: d in s;
      CountCharAbsent(s[1..], c);
    }
  }

  predicate SingleLine(news: NewsItem) {
    '\n' !in news.title && '\n' !in news.source
  }

  /** A headline line without inner line breaks ends the only line it holds. */
  lemma NewsLineIsOneLine(idx: nat, news: NewsItem)
    requires SingleLine(news)
    ensures CountChar(NewsLine(idx, news), '\n') == 1
  {
    var d := DecimalString(idx);
    forall i | 0 <= i < |d| ensures d[i] != '\n' {
      assert IsDigit(d[i]);
    }
    CountCharAbsent(d, '\n');
    CountCharAbsent(news.title, '\n');
    CountCharAbsent(news.source, '\n');
    CountCharAppend(d, ". ", '\n');
    CountCharAppend(d + ". ", news.title, '\n');
    CountCharAppend(d + ". " + news.title, " (", '\n');
    CountCharAppend(d + ". " + news.title + " (", news.source, '\n');
    CountCharAppend(d + ". " + news.title + " (" + news.source, ")\n", '\n');
  }

  /** With no line break inside titles or sources, the block has exactly one line per headline. */
  lemma {:induction false} NewsTextOneLinePerHeadline(newsList: seq<NewsItem>)
    requires forall k | 0 <= k < |newsList| :: SingleLine(newsList[k])
    ensures CountChar(NewsText(newsList), '\n') == |newsList|
    decreases |newsList|
  {
    if newsList != [] {
      var n := |newsList|;
      var init := newsList[..n - 1];
      assert forall k | 0 <= k < |init| :: init[k] == newsList[k];
      NewsTextOneLinePerHeadline(init);
      NewsLineIsOneLine(n, newsList[n - 1]);
      CountCharAppend(NewsText(init), NewsLine(n, newsList[n - 1]), '\n');
    }
  }

  lemma {:induction false} ContainsExtended(a: string, b: string, p: string)
    requires Contains(a, p)
    ensures Contains(a + b, p)
    decreases |a|
  {
    if IsPrefix(p, a) {
      assert (a + b)[..|p|] == a[..|p|];
    } else {
      assert (a + b)[1..] == a[1..] + b;
      ContainsExtended(a[1..], b, p);
    }
  }

  /** Headline `k` (from 0) appears in the block as line number `k + 1`. */
  lemma {:induction false} NewsTextListsEveryHeadline(newsList: seq<NewsItem>, k: nat)
    requires k < |newsList|
    ensures Contains(NewsText(newsList), NewsLine(k + 1, newsList[k]))
    decreases |newsList|
  {
    var n := |newsList|;
    var init := newsList[..n - 1];
    if k == n - 1 {
      ContainsMiddle(NewsText(init), NewsLine(n, newsList[k]), "");
      assert NewsText(init) + NewsLine(n, newsList[k]) + "" == NewsText(newsList);
    } else {
      assert init[k] == newsList[k];
      NewsTextListsEveryHeadline(init, k);
      ContainsExtended(NewsText(init), NewsLine(n, newsList[n - 1]), NewsLine(k + 1, newsList[k]));
    }
  }

  /** A piece followed by three more contains the three. */
  lemma Window(l: string, a: string, b: string, c: string)
    ensures Contains(l + a + b + c, a + b + c)
  {
    ContainsMiddle(l, a + b + c, []);
    assert l + (a + b + c) + [] == l + a + b + c;
  }

  /** Each value spliced into a text made of eleven pieces can be found with its
      two neighbouring pieces. */
  lemma Splices(s0: string, s1: string, s2: string, s3: string, s4: string, s5: string,
                s6: string, s7: string, s8: string, s9: string, s10: string)
    ensures var w := s0 + s1 + s2 + s3 + s4 + s5 + s6 + s7 + s8 + s9 + s10;
      && Contains(w, s0 + s1 + s2) && Contains(w, s2 + s3 + s4) && Contains(w, s4 + s5 + s6)
      && Contains(w, s6 + s7 + s8) && Contains(w, s8 + s9 + s10)
  {
    ContainsMiddle([], s0 + s1 + s2, []);
    assert [] + (s0 + s1 + s2) + [] == s0 + s1 + s2;
    ContainsExtended(s0 + s1 + s2, s3, s0 + s1 + s2);
    ContainsExtended(s0 + s1 + s2 + s3, s4, s0 + s1 + s2);
    ContainsExtended(s0 + s1 + s2 + s3 + s4, s5, s0 + s1 + s2);
    ContainsExtended(s0 + s1 + s2 + s3 + s4 + s5, s6, s0 + s1 + s2);
    ContainsExtended(s0 + s1 + s2 + s3 + s4 + s5 + s6, s7, s0 + s1 + s2);
    ContainsExtended(s0 + s1 + s2 + s3 + s4 + s5 + s6 + s7, s8, s0 + s1 + s2);
    ContainsExtended(s0 + s1 + s2 + s3 + s4 + s5 + s6 + s7 + s8, s9, s0 + s1 + s2);
    ContainsExtended(s0 + s1 + s2 + s3 + s4 + s5 + s6 + s7 + s8 + s9, s10, s0 + s1 + s2);
    Window(s0 + s1, s2, s3, s4);
    ContainsExtended(s0 + s1 + s2 + s3 + s4, s5, s2 + s3 + s4);
    ContainsExtended(s0 + s1 + s2 + s3 + s4 + s5, s6, s2 + s3 + s4);
    ContainsExtended(s0 + s1 + s2 + s3 + s4 + s5 + s6, s7, s2 + s3 + s4);
    ContainsExtended(s0 + s1 + s2 + s3 + s4 + s5 + s6 + s7, s8, s2 + s3 + s4);
    ContainsExtended(s0 + s1 + s2 + s3 + s4 + s5 + s6 + s7 + s8, s9, s2 + s3 + s4);
    ContainsExtended(s0 + s1 + s2 + s3 + s4 + s5 + s6 + s7 + s8 + s9, s10, s2 + s3 + s4);
    Window(s0 + s1 + s2 + s3, s4, s5, s6);
    ContainsExtended(s0 + s1 + s2 + s3 + s4 + s5 + s6, s7, s4 + s5 + s6);
    ContainsExtended(s0 + s1 + s2 + s3 + s4 + s5 + s6 + s7, s8, s4 + s5 + s6);
    ContainsExtended(s0 + s1 + s2 + s3 + s4 + s5 + s6 + s7 + s8, s9, s4 + s5 + s6);
    ContainsExtended(s0 + s1 + s2 + s3 + s4 + s5 + s6 + s7 + s8 + s9, s10, s4 + s5 + s6);
    Window(s0 + s1 + s2 + s3 + s4 + s5, s6, s7, s8);
    ContainsExtended(s0 + s1 + s2 + s3 + s4 + s5 + s6 + s7 + s8, s9, s6 + s7 + s8);
    ContainsExtended(s0 + s1 + s2 + s3 + s4 + s5 + s6 + s7 + s8 + s9, s10, s6 + s7 + s8);
    Window(s0 + s1 + s2 + s3 + s4 + s5 + s6 + s7, s8, s9, s10);
  }

  /** The prompt names the ticker (twice), quotes both figures, and carries the
      whole headline block, each in its place in the template. */
  lemma PromptCarriesInputs(ticker: string, priceInfo: PriceInfo, newsText: string, show: real -> string)
    ensures var p := Prompt(ticker, priceInfo, newsText, show);
      && Contains(p, PromptOpening + ticker + PromptBrief)
      && Contains(p, PromptBrief + show(priceInfo.price) + PromptChange)
      && Contains(p, PromptChange + show(priceInfo.changePercent) + PromptHeadlines)
      && Contains(p, PromptHeadlines + newsText + PromptPrinciples)
      && Contains(p, PromptPrinciples + ticker + PromptClosing)
  {
    Splices(PromptOpening, ticker, PromptBrief, show(priceInfo.price), PromptChange,
            show(priceInfo.changePercent), PromptHeadlines, newsText, PromptPrinciples, ticker, PromptClosing);
  }

  /** Without headlines the block is empty and the prompt is still sent. */
  lemma EmptyNewsStillAsks(ticker: string, priceInfo: PriceInfo, show: real -> string, gemini: Gemini)
    requires gemini.constructs
    ensures NewsText([]) == ""
    ensures Analysis(ticker, priceInfo, [], show, gemini)
         == gemini.generate(Prompt(ticker, priceInfo, "", show)).GetOr(Fallback)
  {
  }
}
