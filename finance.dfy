/** app/finance.py: the price snapshot of a ticker, the major-index board, and the
    news aggregator the web routes call (Naver search by ticker, then Google News RSS). */
module Finance {
  import opened Common
  import opened Text
  import opened Externals

  // ---- get_current_price ----

  /** The symbol with surrounding whitespace removed and ASCII letters upper-cased. */
  function NormalizeSymbol(s: string): (r: string)
    ensures |r| <= |s|
    ensures forall i | 0 <= i < |r| :: !('a' <= r[i] <= 'z')
  {
    var t := Strip(s);
    forall i | 0 <= i < |t| ensures !('a' <= Upper(t)[i] <= 'z') {
      UpperCharNotLower(t[i]);
    }
    Upper(t)
  }

  lemma UpperKeepsSpaces(c: char)
    ensures IsPythonSpace(UpperChar(c)) == IsPythonSpace(c)
  {
  }

  /** A normalised symbol has no surrounding whitespace and no lower-case ASCII letter. */
  lemma NormalizedSymbolShape(s: string)
    ensures var r := NormalizeSymbol(s);
      && (r == [] || (!IsPythonSpace(r[0]) && !IsPythonSpace(r[|r| - 1])))
      && forall i | 0 <= i < |r| :: !('a' <= r[i] <= 'z')
  {
    var t := Strip(s);
    StripShape(s);
    if t != [] {
      UpperKeepsSpaces(t[0]);
      UpperKeepsSpaces(t[|t| - 1]);
    }
    forall i | 0 <= i < |t| ensures !('a' <= Upper(t)[i] <= 'z') {
      UpperCharNotLower(t[i]);
    }
  }

  /** Normalising twice is normalising once. */
  lemma NormalizeSymbolIdempotent(s: string)
    ensures NormalizeSymbol(NormalizeSymbol(s)) == NormalizeSymbol(s)
  {
    var r := NormalizeSymbol(s);
    NormalizedSymbolShape(s);
    assert TrimStart(r) == r;
    assert TrimEnd(r) == r;
    assert Upper(r) == r;
  }

  /** The currency guessed on the history path: won when the symbol mentions the KOSPI
      suffix `.KS` anywhere or is the won exchange rate `KRW=X`, dollars otherwise. */
  function FallbackCurrency(symbol: string): (r: string)
    ensures r == "KRW" || r == "USD"
  {
    if Contains(symbol, ".KS") || symbol == "KRW=X" then "KRW" else "USD"
  }

  /** A KOSDAQ symbol does not fall back to won, because only `.KS` is looked for. */
  lemma KosdaqFallsBackToDollar(code: string)
    requires 'S' !in code
    ensures FallbackCurrency(code + ".KQ") == "USD"
  {
    var symbol := code + ".KQ";
    ContainsNeedsChar(symbol, ".KS", 2);
    assert symbol[|symbol| - 1] == 'Q';
  }

  /** A symbol without a dot, other than the won rate, falls back to dollars. */
  lemma UndottedFallsBackToDollar(symbol: string)
    requires '.' !in symbol && symbol != "KRW=X"
    ensures FallbackCurrency(symbol) == "USD"
  {
    ContainsNeedsChar(symbol, ".KS", 0);
  }

  /** Any symbol ending in `.KS` falls back to won. */
  lemma KospiFallsBackToWon(symbol: string)
    requires EndsWith(symbol, ".KS")
    ensures FallbackCurrency(symbol) == "KRW"
  {
    ContainsMiddle(symbol[..|symbol| - 3], ".KS", "");
    assert symbol[..|symbol| - 3] + ".KS" + "" == symbol;
  }

  /** Percentage change from the previous close; 0 when that close is missing or not positive. */
  function ChangeRate(price: real, previousClose: Option<real>): (r: real)
    ensures previousClose.None? || previousClose.value <= 0.0 ==> r == 0.0
  {
    if previousClose.Some? && previousClose.value > 0.0 then
      (price - previousClose.value) / previousClose.value * 100.0
    else 0.0
  }

  /** The reported rate is the relative move: the price is recovered from the
      previous close and the rate. */
  lemma ChangeRateRecoversPrice(price: real, previousClose: real)
    requires previousClose > 0.0
    ensures previousClose * (1.0 + ChangeRate(price, Some(previousClose)) / 100.0) == price
  {
    var q := (price - previousClose) / previousClose;
    assert q * previousClose == price - previousClose;
    assert ChangeRate(price, Some(previousClose)) / 100.0 == q;
  }

  /** The sign of the rate is the direction of the move. */
  lemma ChangeRateSign(price: real, previousClose: real)
    requires previousClose > 0.0
    ensures ChangeRate(price, Some(previousClose)) > 0.0 <==> price > previousClose
    ensures ChangeRate(price, Some(previousClose)) == 0.0 <==> price == previousClose
  {
    ChangeRateRecoversPrice(price, previousClose);
  }

  lemma ChangeRateFlat(price: real)
    ensures ChangeRate(price, Some(price)) == 0.0
  {
  }

  /** The price snapshot (`price` and `change_percent` before rounding). */
  datatype PriceInfo = PriceInfo(code: string, price: real, changePercent: real, currency: string)

  /** What `get_current_price` returns: `None` when every way of quoting fails. */
  function GetCurrentPrice(tickerSymbol: string, quotes: QuoteSource): (r: Option<PriceInfo>)
    ensures r.Some? ==> r.value.code == NormalizeSymbol(tickerSymbol)
    ensures r.None? <==> match quotes(NormalizeSymbol(tickerSymbol))
      case FastInfo(last, _, _) => last.None?
      case History(closes) => closes == []
      case QuoteRaised => true
    ensures r.Some? && quotes(NormalizeSymbol(tickerSymbol)).FastInfo? ==>
      var q := quotes(NormalizeSymbol(tickerSymbol));
      && r.value.price == q.lastPrice.value
      && r.value.changePercent == ChangeRate(q.lastPrice.value, q.previousClose)
      && r.value.currency == q.currency
    ensures r.Some? && quotes(NormalizeSymbol(tickerSymbol)).History? ==>
      var closes := quotes(NormalizeSymbol(tickerSymbol)).closes;
      var last := closes[|closes| - 1];
      && r.value.price == last
      && r.value.changePercent == ChangeRate(last, Some(if |closes| > 1 then closes[|closes| - 2] else last))
      && r.value.currency == FallbackCurrency(NormalizeSymbol(tickerSymbol))
  {
    var symbol := NormalizeSymbol(tickerSymbol);
    match quotes(symbol)
    case QuoteRaised => None
    case FastInfo(last, previous, currency) =>
      if last.None? then None
      else Some(PriceInfo(symbol, last.value, ChangeRate(last.value, previous), currency))
    case History(closes) =>
      if closes == [] then None
      else
        var price := closes[|closes| - 1];
        var previous := if |closes| > 1 then closes[|closes| - 2] else price;
        Some(PriceInfo(symbol, price, ChangeRate(price, Some(previous)), FallbackCurrency(symbol)))
  }

  /** On the fast path the price and currency are the quote's, the change is 0 without
      a positive previous close, and otherwise its sign is the direction of the move. */
  lemma FastPathSnapshot(tickerSymbol: string, quotes: QuoteSource)
    requires quotes(NormalizeSymbol(tickerSymbol)).FastInfo?
    requires quotes(NormalizeSymbol(tickerSymbol)).lastPrice.Some?
    ensures var q := quotes(NormalizeSymbol(tickerSymbol));
      var info := GetCurrentPrice(tickerSymbol, quotes).value;
      && info.price == q.lastPrice.value && info.currency == q.currency
      && (q.previousClose.None? || q.previousClose.value <= 0.0 ==> info.changePercent == 0.0)
      && (q.previousClose.Some? && q.previousClose.value > 0.0 ==>
            (info.changePercent > 0.0 <==> info.price > q.previousClose.value))
  {
    var q := quotes(NormalizeSymbol(tickerSymbol));
    if q.previousClose.Some? && q.previousClose.value > 0.0 {
      ChangeRateSign(q.lastPrice.value, q.previousClose.value);
    }
  }

  /** On the history path the currency is inferred from the symbol, and a single
      close means no move. */
  lemma HistoryPathSnapshot(tickerSymbol: string, quotes: QuoteSource)
    requires quotes(NormalizeSymbol(tickerSymbol)).History?
    requires quotes(NormalizeSymbol(tickerSymbol)).closes != []
    ensures var info := GetCurrentPrice(tickerSymbol, quotes).value;
      && info.currency == FallbackCurrency(NormalizeSymbol(tickerSymbol))
      && (|quotes(NormalizeSymbol(tickerSymbol)).closes| == 1 ==> info.changePercent == 0.0)
  {
    var symbol := NormalizeSymbol(tickerSymbol);
    var closes := quotes(symbol).closes;
    if |closes| == 1 {
      ChangeRateFlat(closes[0]);
      assert GetCurrentPrice(tickerSymbol, quotes).value.changePercent == ChangeRate(closes[0], Some(closes[0]));
    }
  }

  // ---- get_major_indices ----

  /** The board, in the dictionary's insertion order: display name and Yahoo symbol. */
  const MajorIndices: seq<(string, string)> :=
    [("KOSPI", "^KS11"), ("NASDAQ", "^IXIC"), ("S&P 500", "^GSPC"), ("Nikkei 225", "^N225")]

  /** A snapshot tagged with its display name (`data['name'] = name`). */
  datatype IndexQuote = IndexQuote(name: string, info: PriceInfo)

  /** `get_current_price` as a lookup by symbol. */
  function PriceLookup(quotes: QuoteSource): string -> Option<PriceInfo> {
    symbol => GetCurrentPrice(symbol, quotes)
  }

  /** The entries whose lookup succeeds, in order, each tagged with its name. */
  function KeptIndices(entries: seq<(string, string)>, lookup: string -> Option<PriceInfo>): seq<IndexQuote>
    decreases |entries|
  {
    if entries == [] then []
    else
      var rest := KeptIndices(entries[1..], lookup);
      match lookup(entries[0].1)
      case None => rest
      case Some(info) => [IndexQuote(entries[0].0, info)] + rest
  }

  /** The loop of `get_major_indices` over its (name, symbol) table. */
  method CollectIndices(indices: seq<(string, string)>, quotes: QuoteSource) returns (results: seq<IndexQuote>)
    ensures results == KeptIndices(indices, PriceLookup(quotes))
  {
    results := [];
    var lookup := PriceLookup(quotes);
    assert indices[0..] == indices;
    for i := 0 to |indices|
      invariant results + KeptIndices(indices[i..], lookup) == KeptIndices(indices, lookup)
    {
      assert indices[i..][0] == indices[i] && indices[i..][1..] == indices[i + 1..];
      var (name, tickerSymbol) := indices[i];
      var data := lookup(tickerSymbol);
      if data.Some? {
        assert results + ([IndexQuote(name, data.value)] + KeptIndices(indices[i + 1..], lookup))
            == (results + [IndexQuote(name, data.value)]) + KeptIndices(indices[i + 1..], lookup);
        results := results + [IndexQuote(name, data.value)];
      }
    }
    assert indices[|indices|..] == [];
    assert results + [] == results;
  }

  method GetMajorIndices(quotes: QuoteSource) returns (results: seq<IndexQuote>)
    ensures results == KeptIndices(MajorIndices, PriceLookup(quotes))
  {
    results := CollectIndices(MajorIndices, quotes);
  }

  function Names(quotes: seq<IndexQuote>): seq<string> {
    seq(|quotes|, k requires 0 <= k < |quotes| => quotes[k].name)
  }

  function EntryNames(entries: seq<(string, string)>): seq<string> {
    seq(|entries|, k requires 0 <= k < |entries| => entries[k].0)
  }

  /** `a` is `b` with some elements left out, the rest in the same order. */
  predicate IsSubsequence<T(==)>(a: seq<T>, b: seq<T>)
    decreases |b|
  {
    a == [] || (b != [] && ((a[0] == b[0] && IsSubsequence(a[1..], b[1..])) || IsSubsequence(a, b[1..])))
  }

  /** The board keeps the fixed order: its names are the index names with the
      failed lookups left out. */
  lemma {:induction false} KeptIndicesInOrder(entries: seq<(string, string)>, lookup: string -> Option<PriceInfo>)
    ensures IsSubsequence(Names(KeptIndices(entries, lookup)), EntryNames(entries))
    decreases |entries|
  {
    var r := KeptIndices(entries, lookup);
    if entries != [] {
      var rest := KeptIndices(entries[1..], lookup);
      KeptIndicesInOrder(entries[1..], lookup);
      assert EntryNames(entries)[1..] == EntryNames(entries[1..]);
      if lookup(entries[0].1).Some? {
        assert Names(r)[0] == EntryNames(entries)[0];
        assert Names(r)[1..] == Names(rest);
      } else {
        assert Names(r) == Names(rest);
      }
    }
  }

  /** Every entry whose lookup succeeds is on the board with its own snapshot. */
  lemma {:induction false} KeptIndicesComplete(entries: seq<(string, string)>, lookup: string -> Option<PriceInfo>, j: nat)
    requires j < |entries|
    requires lookup(entries[j].1).Some?
    ensures IndexQuote(entries[j].0, lookup(entries[j].1).value) in KeptIndices(entries, lookup)
    decreases |entries|
  {
    if j > 0 {
      assert entries[1..][j - 1] == entries[j];
      KeptIndicesComplete(entries[1..], lookup, j - 1);
    }
  }

  /** Every board entry comes from an index whose lookup gave exactly that snapshot. */
  lemma {:induction false} KeptIndicesSound(entries: seq<(string, string)>, lookup: string -> Option<PriceInfo>, k: nat)
    requires k < |KeptIndices(entries, lookup)|
    ensures exists j | 0 <= j < |entries| ::
      entries[j].0 == KeptIndices(entries, lookup)[k].name
      && lookup(entries[j].1) == Some(KeptIndices(entries, lookup)[k].info)
    decreases |entries|
  {
    var r := KeptIndices(entries, lookup);
    var rest := KeptIndices(entries[1..], lookup);
    if lookup(entries[0].1).Some? && k == 0 {
      assert entries[0].0 == r[0].name;
    } else {
      var k' := if lookup(entries[0].1).Some? then k - 1 else k;
      assert r[k] == rest[k'];
      KeptIndicesSound(entries[1..], lookup, k');
      var j :| 0 <= j < |entries[1..]| && entries[1..][j].0 == rest[k'].name
        && lookup(entries[1..][j].1) == Some(rest[k'].info);
      assert entries[j + 1] == entries[1..][j];
    }
  }

  /** With every lookup answering, the board shows all four indices in the fixed order. */
  lemma AllIndicesUp(lookup: string -> Option<PriceInfo>)
    requires forall j | 0 <= j < |MajorIndices| :: lookup(MajorIndices[j].1).Some?
    ensures Names(KeptIndices(MajorIndices, lookup)) == ["KOSPI", "NASDAQ", "S&P 500", "Nikkei 225"]
  {
    var e := MajorIndices;
    assert lookup(e[0].1).Some? && lookup(e[1].1).Some?;
    assert lookup(e[2].1).Some? && lookup(e[3].1).Some?;
    assert e[1..][1..][1..][1..] == [];
    assert |KeptIndices(e, lookup)| == 4;
  }

  // ---- get_integrated_news ----

  const DomesticSource: string := "Domestic (Naver)"
  const GlobalSource: string := "Global (Google)"

  /** Where the lazy pattern `<[^<]+?>` ends once `<` and one non-`<` character
      are matched: the first `>` from position `j` on, provided no `<` comes before it. */
  function ClosingAngle(s: string, j: nat): (r: Option<nat>)
    requires j <= |s|
    ensures r.Some? ==>
      j <= r.value < |s| && s[r.value] == '>' && forall k | j <= k < r.value :: s[k] != '<' && s[k] != '>'
    decreases |s| - j
  {
    if j == |s| then None
    else if s[j] == '>' then Some(j)
    else if s[j] == '<' then None
    else ClosingAngle(s, j + 1)
  }

  /** The length of the match of `<[^<]+?>` at the start of `s`, if there is one. */
  function TagAt(s: string): (r: Option<nat>)
    ensures r.Some? ==>
      3 <= r.value <= |s| && s[0] == '<' && s[1] != '<' && s[r.value - 1] == '>'
      && forall m | 2 <= m < r.value - 1 :: s[m] != '<' && s[m] != '>'
  {
    if |s| >= 2 && s[0] == '<' && s[1] != '<' then
      match ClosingAngle(s, 2)
      case Some(j) => Some(j + 1)
      case None => None
    else None
  }

  /** The converse of `TagAt`'s contract: wherever that shape begins the text, it is matched. */
  lemma TagAtMatches(s: string, n: nat)
    requires 3 <= n <= |s| && s[0] == '<' && s[1] != '<' && s[n - 1] == '>'
    requires forall m | 2 <= m < n - 1 :: s[m] != '<' && s[m] != '>'
    ensures TagAt(s) == Some(n)
  {
    ClosingAngleReaches(s, 2, n - 1);
  }

  /** `re.sub('<[^<]+?>', '', s)`: matches are removed left to right; where none
      starts, one character is kept and the scan moves on. */
  function StripTags(s: string): (r: string)
    ensures |r| <= |s|
    decreases |s|
  {
    if s == [] then []
    else match TagAt(s)
      case Some(n) => StripTags(s[n..])
      case None => [s[0]] + StripTags(s[1..])
  }

  /** The lazy match reaches the first `>` when no `<` stands before it. */
  lemma {:induction false} ClosingAngleReaches(s: string, j: nat, k: nat)
    requires j <= k < |s| && s[k] == '>'
    requires forall m | j <= m < k :: s[m] != '<' && s[m] != '>'
    ensures ClosingAngle(s, j) == Some(k)
    decreases k - j
  {
    if j < k {
      ClosingAngleReaches(s, j + 1, k);
    }
  }

  /** The lazy match fails only when every `>` from the start position has a `<` before it. */
  lemma {:induction false} ClosingAngleFailsOnlyBehindOpen(s: string, j: nat)
    requires j <= |s|
    ensures ClosingAngle(s, j).None? ==>
      forall k | j <= k < |s| && s[k] == '>' :: exists m | j <= m < k :: s[m] == '<'
    decreases |s| - j
  {
    if j < |s| && s[j] != '>' && s[j] != '<' {
      ClosingAngleFailsOnlyBehindOpen(s, j + 1);
      if ClosingAngle(s, j).None? {
        forall k | j <= k < |s| && s[k] == '>' ensures exists m | j <= m < k :: s[m] == '<' {
          var m :| j + 1 <= m < k && s[m] == '<';
        }
      }
    } else if j < |s| && s[j] == '<' {
      forall k | j <= k < |s| && s[k] == '>' ensures exists m | j <= m < k :: s[m] == '<' {
        assert s[j] == '<';
      }
    }
  }

  /** A text starting with anything but `<` keeps its first character. */
  lemma StripTagsPlainHead(s: string)
    requires s != [] && s[0] != '<'
    ensures StripTags(s) == [s[0]] + StripTags(s[1..])
  {
    assert TagAt(s) == None;
  }

  /** Text with no `<` passes through the tag pattern untouched, wherever it stands. */
  lemma {:induction false} StripTagsKeepsPlainPrefix(t: string, u: string)
    requires forall k | 0 <= k < |t| :: t[k] != '<'
    ensures StripTags(t + u) == t + StripTags(u)
    decreases |t|
  {
    if t == [] {
      assert t + u == u;
    } else {
      var s := t + u;
      assert s[0] == t[0] && s[1..] == t[1..] + u;
      StripTagsPlainHead(s);
      forall k | 0 <= k < |t[1..]| ensures t[1..][k] != '<' {
        assert t[1..][k] == t[k + 1];
      }
      StripTagsKeepsPlainPrefix(t[1..], u);
      assert [t[0]] + (t[1..] + StripTags(u)) == t + StripTags(u);
    }
  }

  /** `s[i..j]` is one match of the tag pattern: `<`, at least one character that is
      neither `<` nor `>`, then `>`. */
  predicate IsTagSpan(s: string, i: nat, j: nat) {
    i + 3 <= j <= |s| && s[i] == '<' && s[j - 1] == '>'
    && forall m | i + 1 <= m < j - 1 :: s[m] != '<' && s[m] != '>'
  }

  /** A tag span seen from its own start. */
  lemma TagSpanFrom(s: string, i: nat, j: nat)
    requires IsTagSpan(s, i, j)
    ensures IsTagSpan(s[i..], 0, j - i)
  {
    var u := s[i..];
    forall m | 1 <= m < j - i - 1 ensures u[m] != '<' && u[m] != '>' {
      assert u[m] == s[i + m];
    }
  }

  /** A text opening with a tag loses it. */
  lemma StripTagsDropsTagAt(s: string, n: nat)
    requires IsTagSpan(s, 0, n)
    ensures StripTags(s) == StripTags(s[n..])
  {
    TagAtMatches(s, n);
  }

  /** A run of text free of `<` at the front is kept as it is. */
  lemma StripTagsPlainRun(s: string, k: nat)
    requires k <= |s|
    requires forall m | 0 <= m < k :: s[m] != '<'
    ensures StripTags(s) == s[..k] + StripTags(s[k..])
  {
    assert s[..k] + s[k..] == s;
    StripTagsKeepsPlainPrefix(s[..k], s[k..]);
  }

  /** A tag standing at position `k` is dropped from the rest of the text from `k`. */
  lemma StripTagsDropsTagFrom(s: string, k: nat, n: nat)
    requires IsTagSpan(s, k, n)
    ensures StripTags(s[k..]) == StripTags(s[n..])
  {
    TagSpanFrom(s, k, n);
    StripTagsDropsTagAt(s[k..], n - k);
    assert s[k..][n - k..] == s[n..];
  }

  /** Text free of `<`, then a tag: the text is kept, the tag dropped. */
  lemma StripTagsPlainThenTagAt(s: string, k: nat, n: nat)
    requires IsTagSpan(s, k, n)
    requires forall m | 0 <= m < k :: s[m] != '<'
    ensures StripTags(s) == s[..k] + StripTags(s[n..])
  {
    StripTagsPlainRun(s, k);
    StripTagsDropsTagFrom(s, k, n);
  }

  /** Where the pieces of `a + "<" + x + ">" + b` stand. */
  lemma TagSplice(a: string, x: string, b: string)
    requires forall k | 0 <= k < |a| :: a[k] != '<'
    requires x != [] && forall k | 0 <= k < |x| :: x[k] != '<' && x[k] != '>'
    ensures var s := a + "<" + x + ">" + b;
      && IsTagSpan(s, |a|, |a| + |x| + 2)
      && (forall m | 0 <= m < |a| :: s[m] != '<')
      && s[..|a|] == a && s[|a| + |x| + 2..] == b
  {
    var s := a + "<" + x + ">" + b;
    var n := |x| + 2;
    assert s[..|a|] == a;
    assert s[|a|] == '<' && s[|a| + n - 1] == '>';
    assert s[|a| + 1..|a| + n - 1] == x;
    forall m | |a| + 1 <= m < |a| + n - 1 ensures s[m] != '<' && s[m] != '>' {
      assert s[m] == s[|a| + 1..|a| + n - 1][m - |a| - 1];
    }
    forall m | 0 <= m < |a| ensures s[m] != '<' {
      assert s[m] == s[..|a|][m];
    }
  }

  /** A tag `<x>` (with `x` non-empty and free of `<` and `>`) is removed, and the text
      before it, free of `<`, is kept. */
  lemma StripTagsRemovesTag(a: string, x: string, b: string)
    requires forall k | 0 <= k < |a| :: a[k] != '<'
    requires x != [] && forall k | 0 <= k < |x| :: x[k] != '<' && x[k] != '>'
    ensures StripTags(a + "<" + x + ">" + b) == a + StripTags(b)
  {
    TagSplice(a, x, b);
    StripTagsPlainThenTagAt(a + "<" + x + ">" + b, |a|, |a| + |x| + 2);
  }

  /** What follows an opening piece. */
  lemma AfterOpening(open: string, t: string, close: string)
    ensures (open + t + close)[|open|..] == t + close
  {
  }

  lemma StripClosingBold(t: string)
    requires forall k | 0 <= k < |t| :: t[k] != '<'
    ensures StripTags(t + "</b>") == t
  {
    StripTagsKeepsPlainPrefix(t, "</b>");
    var close := "</b>";
    assert ClosingAngle(close, 3) == Some(3);
    assert ClosingAngle(close, 2) == Some(3);
    assert StripTags(close[4..]) == [];
    assert t + [] == t;
  }

  lemma StripBold(t: string)
    requires forall k | 0 <= k < |t| :: t[k] != '<'
    ensures StripTags("<b>" + t + "</b>") == t
  {
    var s := "<b>" + t + "</b>";
    AfterOpening("<b>", t, "</b>");
    assert s[0] == '<' && s[1] == 'b' && s[2] == '>';
    assert ClosingAngle(s, 2) == Some(2);
    assert TagAt(s) == Some(3);
    assert StripTags(s) == StripTags(s[3..]);
    StripClosingBold(t);
  }

  /** The tag pattern, then `&quot;` to `"`, then `&amp;` to `&`; no step lengthens the title. */
  function CleanTitle(raw: string): (r: string)
    ensures |r| <= |raw|
  {
    var a := StripTags(raw);
    ReplaceNoLonger(a, "&quot;", "\"");
    ReplaceNoLonger(ReplaceAll(a, "&quot;", "\""), "&amp;", "&");
    ReplaceAll(ReplaceAll(a, "&quot;", "\""), "&amp;", "&")
  }

  lemma CleanTitleDropsBold(t: string)
    requires forall k | 0 <= k < |t| :: t[k] != '<' && t[k] != '&'
    ensures CleanTitle("<b>" + t + "</b>") == t
  {
    StripBold(t);
    ContainsNeedsChar(t, "&quot;", 0);
    ReplaceAbsent(t, "&quot;", "\"");
    ContainsNeedsChar(t, "&amp;", 0);
    ReplaceAbsent(t, "&amp;", "&");
  }

  /** Because `&amp;` is un-escaped last, an escaped entity behind it stays escaped
      once: `&amp;quot;` becomes `&quot;`, not `"`. */
  lemma CleanTitleUnescapesOnce(t: string)
    requires forall k | 0 <= k < |t| :: t[k] != '<' && t[k] != '&'
    ensures CleanTitle("&amp;" + t) == "&" + t
  {
    var s := "&amp;" + t;
    StripTagsKeepsPlainPrefix(s, []);
    assert s + [] == s;
    assert !Contains(s, "&quot;") by {
      assert s[1] == 'a';
      assert !IsPrefix("&quot;", s);
      ContainsNeedsChar(s[1..], "&quot;", 0);
    }
    ReplaceAbsent(s, "&quot;", "\"");
    assert IsPrefix("&amp;", s) && s[5..] == t;
    ContainsNeedsChar(t, "&amp;", 0);
    ReplaceAbsent(t, "&amp;", "&");
  }

  /** One search hit as a record. A missing `title`, `originallink`, `pubDate`, or a
      missing `link` when `originallink` is empty, raises KeyError. */
  function DomesticRecord(item: NaverItem): Step<NewsItem> {
    if item.title.None? || item.originallink.None? || item.pubDate.None? then Raise
    else if item.originallink.value == "" && item.link.None? then Raise
    else
      var link := if item.originallink.value != "" then item.originallink.value else item.link.value;
      Emit(NewsItem(DomesticSource, CleanTitle(item.title.value), link, item.pubDate.value, None, None))
  }

  /** The records block (A) leaves in the list. */
  function DomesticHeadlines(reply: NaverReply): seq<NewsItem> {
    match reply
    case NaverUnreachable => []
    case NaverResponse(status, body) =>
      if status != 200 then []
      else match body
        case NaverUndecodable => []
        case NaverJson(items) => GatherUntilRaise(items.GetOr([]), DomesticRecord)
  }

  /** One feed item as a record; a missing child element raises. */
  function GlobalRecord(item: RssItem): Step<NewsItem> {
    if item.title.None? || item.link.None? || item.pubDate.None? then Raise
    else Emit(NewsItem(GlobalSource, item.title.value, item.link.value, item.pubDate.value, None, None))
  }

  const RssLimit: nat := 5

  /** The records block (B) appends. */
  function GlobalHeadlines(reply: RssReply): seq<NewsItem> {
    match reply
    case RssUnreachable => []
    case RssResponse(status, document) =>
      if status != 200 then []
      else match document
        case RssMalformed => []
        case RssFeed(items) => GatherUntilRaise(Take(items, RssLimit), GlobalRecord)
  }

  /** The feed search: the ticker followed by a space and the word "stock". */
  function RssQuery(tickerSymbol: string): string {
    tickerSymbol + " stock"
  }

  /** What `get_integrated_news` returns: the Naver search is for the ticker itself
      with five results, the feed search for the ticker followed by " stock". */
  function IntegratedHeadlines(tickerSymbol: string, search: NaverSearch, rss: RssSearch): seq<NewsItem> {
    DomesticHeadlines(search(tickerSymbol, 5)) + GlobalHeadlines(rss(RssQuery(tickerSymbol)))
  }

  /** Block (A) of `get_integrated_news`: the Naver items appended one by one
      until one raises. */
  method AppendDomestic(newsList: seq<NewsItem>, response: NaverReply)
    returns (extended: seq<NewsItem>)
    ensures extended == newsList + DomesticHeadlines(response)
  {
    extended := newsList;
    if response.NaverResponse? && response.status == 200 && response.body.NaverJson? {
      var items := response.body.items.GetOr([]);
      UntilRaiseEnds(items, [], DomesticRecord);
      for i := 0 to |items|
        invariant extended + GatherUntilRaise(items[i..], DomesticRecord) == newsList + GatherUntilRaise(items, DomesticRecord)
      {
        UntilRaiseTurn(items, i, extended, DomesticRecord);
        var step := DomesticRecord(items[i]);
        if step.Raise? {
          break;
        }
        extended := extended + [step.record];
      }
      UntilRaiseEnds(items, extended, DomesticRecord);
    } else {
      assert newsList + [] == newsList;
    }
  }

  /** Block (B) of `get_integrated_news`: the feed items appended one by one,
      stopping after five or at the first one that raises. */
  method AppendGlobal(newsList: seq<NewsItem>, rssResponse: RssReply)
    returns (extended: seq<NewsItem>)
    ensures extended == newsList + GlobalHeadlines(rssResponse)
  {
    extended := newsList;
    if rssResponse.RssResponse? && rssResponse.status == 200 && rssResponse.document.RssFeed? {
      var entries := rssResponse.document.items;
      ghost var taken := Take(entries, RssLimit);
      UntilRaiseEnds(taken, [], GlobalRecord);
      var count := 0;
      for i := 0 to |entries|
        invariant count == i <= RssLimit && i <= |taken|
        invariant extended + GatherUntilRaise(taken[i..], GlobalRecord) == newsList + GatherUntilRaise(taken, GlobalRecord)
      {
        if count >= RssLimit {
          UntilRaiseEnds(taken, extended, GlobalRecord);
          break;
        }
        UntilRaiseTurn(taken, i, extended, GlobalRecord);
        var step := GlobalRecord(entries[i]);
        if step.Raise? {
          break;
        }
        extended := extended + [step.record];
        count := count + 1;
      }
      UntilRaiseEnds(taken, extended, GlobalRecord);
    } else {
      assert newsList + [] == newsList;
    }
  }

  method GetIntegratedNews(tickerSymbol: string, search: NaverSearch, rss: RssSearch)
    returns (newsList: seq<NewsItem>)
    ensures newsList == IntegratedHeadlines(tickerSymbol, search, rss)
  {
    newsList := [];
    newsList := AppendDomestic(newsList, search(tickerSymbol, 5));
    newsList := AppendGlobal(newsList, rss(RssQuery(tickerSymbol)));
  }

  predicate WellFormedHit(item: NaverItem) {
    item.title.Some? && item.originallink.Some? && item.pubDate.Some?
    && (item.originallink.value == "" ==> item.link.Some?)
  }

  /** With every hit complete: one record per hit, in order, with the cleaned
      title, `originallink` when non-empty and `link` otherwise. */
  lemma DomesticHeadlinesPerHit(items: seq<NaverItem>)
    requires forall i | 0 <= i < |items| :: WellFormedHit(items[i])
    ensures var news := DomesticHeadlines(NaverResponse(200, NaverJson(Some(items))));
      && |news| == |items|
      && forall i | 0 <= i < |items| && WellFormedHit(items[i]) ::
           && news[i].source == DomesticSource
           && news[i].title == CleanTitle(items[i].title.value)
           && news[i].link == (if items[i].originallink.value != "" then items[i].originallink.value
                               else items[i].link.value)
           && news[i].pubDate == items[i].pubDate.value
  {
    GatherAllEmitted(items, DomesticRecord);
    UntilRaiseAgreesWithGather(items, DomesticRecord);
  }

  /** A hit that raises half-way keeps the records of the hits before it. */
  lemma DomesticKeepsPartial(before: seq<NaverItem>, bad: NaverItem, after: seq<NaverItem>)
    requires forall i | 0 <= i < |before| :: WellFormedHit(before[i])
    requires !WellFormedHit(bad)
    ensures var news := DomesticHeadlines(NaverResponse(200, NaverJson(Some(before + [bad] + after))));
      && |news| == |before|
      && forall i | 0 <= i < |before| :: DomesticRecord(before[i]).Emit? && news[i] == DomesticRecord(before[i]).record
  {
    GatherAllEmitted(before, DomesticRecord);
    UntilRaiseKeepsEarlier(before, bad, after, DomesticRecord);
  }

  /** Feed items are taken in document order, at most five. */
  lemma GlobalHeadlinesFirstFive(status: int, items: seq<RssItem>)
    requires status == 200
    requires forall i | 0 <= i < |items| :: items[i].title.Some? && items[i].link.Some? && items[i].pubDate.Some?
    ensures var news := GlobalHeadlines(RssResponse(status, RssFeed(items)));
      && |news| == (if |items| < 5 then |items| else 5)
      && forall i | 0 <= i < |news| ::
           news[i] == NewsItem(GlobalSource, items[i].title.value, items[i].link.value, items[i].pubDate.value, None, None)
  {
    var taken := Take(items, RssLimit);
    assert forall i | 0 <= i < |taken| :: taken[i] == items[i];
    GatherAllEmitted(taken, GlobalRecord);
    UntilRaiseAgreesWithGather(taken, GlobalRecord);
  }

  /** A feed item among the first five that lacks a child element keeps the records
      of the items before it. */
  lemma GlobalKeepsPartial(before: seq<RssItem>, bad: RssItem, after: seq<RssItem>)
    requires |before| < RssLimit
    requires forall i | 0 <= i < |before| :: before[i].title.Some? && before[i].link.Some? && before[i].pubDate.Some?
    requires bad.title.None? || bad.link.None? || bad.pubDate.None?
    ensures var news := GlobalHeadlines(RssResponse(200, RssFeed(before + [bad] + after)));
      && |news| == |before|
      && forall i | 0 <= i < |before| ::
           news[i] == NewsItem(GlobalSource, before[i].title.value, before[i].link.value, before[i].pubDate.value, None, None)
  {
    var items := before + [bad] + after;
    assert Take(items, RssLimit) == before + [bad] + Take(after, RssLimit - |before| - 1);
    GatherAllEmitted(before, GlobalRecord);
    UntilRaiseKeepsEarlier(before, bad, Take(after, RssLimit - |before| - 1), GlobalRecord);
  }

  lemma GlobalHeadlinesAtMostFive(reply: RssReply)
    ensures |GlobalHeadlines(reply)| <= 5
  {
  }

  /** Domestic records first, feed records after; a Naver block that yields nothing,
      whatever the failure, leaves the feed records as the whole result. */
  lemma IntegratedHeadlinesOrder(tickerSymbol: string, search: NaverSearch, rss: RssSearch)
    ensures var news := IntegratedHeadlines(tickerSymbol, search, rss);
      var n := |DomesticHeadlines(search(tickerSymbol, 5))|;
      && n <= |news| <= n + 5
      && (forall k | 0 <= k < n :: news[k].source == DomesticSource)
      && (forall k | n <= k < |news| :: news[k].source == GlobalSource)
    ensures DomesticHeadlines(search(tickerSymbol, 5)) == [] ==>
      IntegratedHeadlines(tickerSymbol, search, rss) == GlobalHeadlines(rss(RssQuery(tickerSymbol)))
  {
    var reply := search(tickerSymbol, 5);
    if reply.NaverResponse? && reply.status == 200 && reply.body.NaverJson? {
      UntilRaiseKeeps(reply.body.items.GetOr([]), DomesticRecord, (n: NewsItem) => n.source == DomesticSource);
    }
    var feed := rss(RssQuery(tickerSymbol));
    if feed.RssResponse? && feed.status == 200 && feed.document.RssFeed? {
      UntilRaiseKeeps(Take(feed.document.items, RssLimit), GlobalRecord, (n: NewsItem) => n.source == GlobalSource);
    }
  }
}
