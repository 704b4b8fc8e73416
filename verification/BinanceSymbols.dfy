/** The symbol conversions of the Binance extension (core/extensions/binance/include/type_convert_binance.h). */
module BinanceSymbols {
  import opened Wrappers

  function ToUpper(c: char): char {
    if 'a' <= c <= 'z' then (c as int - 32) as char else c
  }

  function ToLower(c: char): char {
    if 'A' <= c <= 'Z' then (c as int + 32) as char else c
  }

  function Upper(s: string): (r: string)
    ensures |r| == |s| && forall i :: 0 <= i < |s| ==> r[i] == ToUpper(s[i])
  {
    if s == [] then [] else [ToUpper(s[0])] + Upper(s[1..])
  }

  function Lower(s: string): (r: string)
    ensures |r| == |s| && forall i :: 0 <= i < |s| ==> r[i] == ToLower(s[i])
  {
    if s == [] then [] else [ToLower(s[0])] + Lower(s[1..])
  }

  // ---------------------------------------------------------------- to the exchange

  /** The pieces between underscores. */
  function Split(s: string): (r: seq<string>)
    ensures |r| >= 1
  {
    if s == [] then [[]]
    else
      var tail := Split(s[1..]);
      if s[0] == '_' then [[]] + tail else [[s[0]] + tail[0]] + tail[1..]
  }

  function WithoutUnderscores(s: string): string {
    if s == [] then [] else (if s[0] == '_' then [] else [s[0]]) + WithoutUnderscores(s[1..])
  }

  function ToBinance(s: string): string {
    Upper(WithoutUnderscores(s))
  }

  function UpperAll(parts: seq<string>): string {
    if parts == [] then [] else Upper(parts[0]) + UpperAll(parts[1..])
  }

  lemma {:induction false} UpperAppend(s: string, t: string)
    ensures Upper(s + t) == Upper(s) + Upper(t)
  {
  }

  lemma {:induction false} SplitLosesUnderscores(s: string)
    ensures UpperAll(Split(s)) == ToBinance(s)
  {
    if s != [] {
      SplitLosesUnderscores(s[1..]);
      var tail := Split(s[1..]);
      if s[0] == '_' {
        assert Split(s)[1..] == tail;
        assert WithoutUnderscores(s) == WithoutUnderscores(s[1..]);
      } else {
        assert Split(s)[1..] == tail[1..];
        UpperAppend([s[0]], tail[0]);
        UpperAppend([s[0]], WithoutUnderscores(s[1..]));
      }
    }
  }

  method ToBinanceSymbol(symbol: string) returns (res: string)
    ensures res == ToBinance(symbol)
  {
    var result := Split(symbol);
    res := [];
    for i := 0 to |result|
      invariant res + UpperAll(result[i..]) == UpperAll(result)
    {
      assert result[i..][1..] == result[i + 1..];
      res := res + Upper(result[i]);
    }
    SplitLosesUnderscores(symbol);
  }

  // ---------------------------------------------------------------- from the exchange

  const QUOTE_COINS: seq<string> := ["BTC", "USDT", "BNB", "BUSD", "ETH"]

  predicate EndsWith(s: string, q: string) {
    |q| <= |s| && s[|s| - |q|..] == q
  }

  /** The last place where `q` occurs at or before `k`. */
  function RFindFrom(s: string, q: string, k: nat): (r: Option<nat>)
    requires k + |q| <= |s|
    ensures r.Some? ==> r.value <= k
  {
    if s[k..k + |q|] == q then Some(k) else if k == 0 then None else RFindFrom(s, q, k - 1)
  }

  function RFind(s: string, q: string): (r: Option<nat>)
    ensures r.Some? ==> r.value <= |s|
  {
    if |q| > |s| then None else RFindFrom(s, q, |s| - |q|)
  }

  /** The first listed quote coin the symbol ends with. */
  function QuoteOf(s: string, coins: seq<string>): (q: Option<string>)
    ensures q.Some? ==> EndsWith(s, q.value) && q.value in coins
    ensures q.None? ==> forall c :: c in coins ==> !EndsWith(s, c)
  {
    if coins == [] then None
    else if EndsWith(s, coins[0]) then Some(coins[0])
    else QuoteOf(s, coins[1..])
  }

  function FromBinance(s: string): string {
    var q := QuoteOf(s, QUOTE_COINS);
    if q.None? then s
    else
      var base := |s| - |q.value|;
      Lower(s[..base] + "_" + s[base..])
  }

  method FromBinanceSymbol(symbol: string) returns (res: string)
    ensures res == FromBinance(symbol)
  {
    res := symbol;
    var converted := false;
    for i := 0 to |QUOTE_COINS|
      invariant !converted && res == symbol
      invariant QuoteOf(symbol, QUOTE_COINS[i..]) == QuoteOf(symbol, QUOTE_COINS)
    {
      var quote := QUOTE_COINS[i];
      assert QUOTE_COINS[i..][1..] == QUOTE_COINS[i + 1..];
      if EndsWith(symbol, quote) {
        assert symbol[|symbol| - |quote|..|symbol| - |quote| + |quote|] == quote;
        var at := RFind(res, quote);
        res := res[..at.value] + "_" + res[at.value..];
        converted := true;
        break;
      }
    }
    if converted { res := Lower(res); }
  }

  /** A symbol that ends in none of the listed coins stays as it is, case and all. */
  lemma UnlistedUnchanged(s: string)
    ensures FromBinance(s) == s || EndsWith(s, "BTC") || EndsWith(s, "USDT") || EndsWith(s, "BNB")
            || EndsWith(s, "BUSD") || EndsWith(s, "ETH")
  {
    assert forall c :: c in QUOTE_COINS ==> c in {"BTC", "USDT", "BNB", "BUSD", "ETH"};
  }

  // ---------------------------------------------------------------- round trips

  predicate HasNoUnderscore(s: string) {
    forall i :: 0 <= i < |s| ==> s[i] != '_'
  }

  predicate IsUpper(s: string) {
    forall i :: 0 <= i < |s| ==> ToUpper(s[i]) == s[i]
  }

  predicate IsLower(s: string) {
    forall i :: 0 <= i < |s| ==> ToLower(s[i]) == s[i]
  }

  lemma {:induction false} NoUnderscoreKept(s: string, t: string)
    requires HasNoUnderscore(s)
    ensures WithoutUnderscores(s + t) == s + WithoutUnderscores(t)
  {
    if s == [] {
      assert s + t == t;
    } else {
      assert (s + t)[1..] == s[1..] + t;
      NoUnderscoreKept(s[1..], t);
    }
  }

  lemma LeadingUnderscoreGoes(s: string)
    ensures WithoutUnderscores("_" + s) == WithoutUnderscores(s)
  {
    assert ("_" + s)[1..] == s && ("_" + s)[0] == '_';
  }

  lemma NoUnderscores(s: string)
    requires HasNoUnderscore(s)
    ensures WithoutUnderscores(s) == s
  {
    assert s + [] == s;
    NoUnderscoreKept(s, []);
  }

  lemma JoinedLosesUnderscore(base: string, quote: string)
    requires HasNoUnderscore(base) && HasNoUnderscore(quote)
    ensures WithoutUnderscores(base + "_" + quote) == base + quote
  {
    assert base + "_" + quote == base + ("_" + quote);
    NoUnderscoreKept(base, "_" + quote);
    LeadingUnderscoreGoes(quote);
    NoUnderscores(quote);
  }

  /** An exchange symbol survives the way to the local form and back. */
  lemma ExchangeRoundTrip(s: string)
    requires IsUpper(s) && HasNoUnderscore(s)
    ensures ToBinance(FromBinance(s)) == s
  {
    var q := QuoteOf(s, QUOTE_COINS);
    if q.Some? {
      InsertedUnderscoreGoes(s[..|s| - |q.value|], s[|s| - |q.value|..]);
      assert s[..|s| - |q.value|] + s[|s| - |q.value|..] == s;
    } else {
      NoUnderscores(s);
      assert Upper(s) == s;
    }
  }

  lemma LowerJoined(s: string, t: string)
    ensures Lower(s + "_" + t) == Lower(s) + "_" + Lower(t)
  {
  }

  lemma UpperOfLower(s: string)
    requires IsUpper(s)
    ensures Upper(Lower(s)) == s
  {
  }

  lemma LowerOfUpper(s: string)
    requires IsLower(s)
    ensures Lower(Upper(s)) == s
  {
  }

  lemma InsertedUnderscoreGoes(s: string, t: string)
    requires IsUpper(s) && HasNoUnderscore(s) && IsUpper(t) && HasNoUnderscore(t)
    ensures ToBinance(Lower(s + "_" + t)) == s + t
  {
    LowerJoined(s, t);
    JoinedLosesUnderscore(Lower(s), Lower(t));
    UpperAppend(Lower(s), Lower(t));
    UpperOfLower(s);
    UpperOfLower(t);
  }

  /** The listed coin with a given last letter. */
  function CoinEnding(c: char): string {
    if c == 'C' then "BTC"
    else if c == 'T' then "USDT"
    else if c == 'B' then "BNB"
    else if c == 'D' then "BUSD"
    else "ETH"
  }

  lemma ListedCoin(c: string)
    requires c in QUOTE_COINS
    ensures |c| >= 3 && c == CoinEnding(c[|c| - 1])
  {
    var i :| 0 <= i < |QUOTE_COINS| && QUOTE_COINS[i] == c;
    assert i == 0 || i == 1 || i == 2 || i == 3 || i == 4;
  }

  lemma UpperQuote(quote: string)
    requires quote in {"btc", "usdt", "bnb", "busd", "eth"}
    ensures Upper(quote) in QUOTE_COINS
  {
    if |quote| == 3 {
      assert Upper(quote) == [ToUpper(quote[0]), ToUpper(quote[1]), ToUpper(quote[2])];
      assert Upper(quote) == if quote[0] == 'e' then QUOTE_COINS[4]
                             else if quote[1] == 't' then QUOTE_COINS[0]
                             else QUOTE_COINS[2];
    } else {
      assert Upper(quote) == [ToUpper(quote[0]), ToUpper(quote[1]), ToUpper(quote[2]), ToUpper(quote[3])];
      assert Upper(quote) == if quote[0] == 'u' then QUOTE_COINS[1] else QUOTE_COINS[3];
    }
  }

  /** No listed coin ends in another, so a symbol ends in one of them at most. */
  lemma OneQuote(s: string, c: string, d: string)
    requires c in QUOTE_COINS && d in QUOTE_COINS
    requires EndsWith(s, c) && EndsWith(s, d)
    ensures c == d
  {
    ListedCoin(c);
    ListedCoin(d);
    assert c[|c| - 1] == s[|s| - 1] == d[|d| - 1];
  }

  /** A local symbol over a listed quote coin survives the way to the exchange and back. */
  lemma LocalRoundTrip(base: string, quote: string)
    requires IsLower(base) && HasNoUnderscore(base)
    requires quote in {"btc", "usdt", "bnb", "busd", "eth"}
    ensures FromBinance(ToBinance(base + "_" + quote)) == base + "_" + quote
  {
    assert HasNoUnderscore(quote) && IsLower(quote);
    JoinedLosesUnderscore(base, quote);
    UpperAppend(base, quote);
    var s, coin := Upper(base) + Upper(quote), Upper(quote);
    UpperQuote(quote);
    assert EndsWith(s, coin);
    OneQuote(s, QuoteOf(s, QUOTE_COINS).value, coin);
    assert s[..|base|] == Upper(base) && s[|base|..] == coin;
    LowerJoined(Upper(base), coin);
    LowerOfUpper(base);
    LowerOfUpper(quote);
  }
}
