/**
  The image search: `sanitise_for_url`, which turns a search term into the
  `+`-separated form the query string carries, and `get_img_urls`, which
  builds the request URL, sends it and collects the image URLs of the
  answer. `urllib.quote` is an oracle on single words; the search service is
  an oracle on requests that records what it was sent.
 */
module Query {
  import opened Wrappers
  import opened PyStr

  /** The referer sent with a search when no other is given. */
  const DefaultReferer: string := "https://launchpad.net/coverlovin"

  /** The endpoint of the image search: its host, then its path. */
  const GoogleImagesUrl: string := "https://ajax.googleapis.com" + "/ajax/services/search/images"

  /** `urllib.quote` on one word: the quoted word, or nothing when it raises. */
  type Quoter = string -> Option<string>

  /** The quoted words in order, leaving out each word whose quoting raises. */
  function QuotedWords(words: seq<string>, quote: Quoter): seq<string>
  {
    if words == [] then []
    else
      var init := QuotedWords(words[..|words| - 1], quote);
      match quote(words[|words| - 1])
      case Some(q) => init + [q]
      case None => init
  }

  /** Parts each followed by `+`: what a loop doing `s += part + '+'` accumulates. */
  function Terminated(parts: seq<string>): string
  {
    if parts == [] then "" else JoinWith(parts, '+') + "+"
  }

  /** What `sanitise_for_url` means: nothing for None, else the quoted space-separated words joined by single `+`. */
  function Sanitised(input: Option<string>, quote: Quoter): string
  {
    match input
    case None => ""
    case Some(s) => JoinWith(QuotedWords(Split(s, ' '), quote), '+')
  }

  /** Each search term sanitised. */
  function SanitisedAll(terms: seq<string>, quote: Quoter): seq<string>
  {
    seq(|terms|, i requires 0 <= i < |terms| => Sanitised(Some(terms[i]), quote))
  }

  /**
    The request URL `get_img_urls` builds, step by step as written: the
    endpoint and `?v=1.0&q=`, each sanitised term followed by `+`, the last
    character dropped, then the file type, size and result count parameters.
   */
  function RequestUrl(terms: seq<string>, fileType: string, fileSize: string, resultCount: int, quote: Quoter): string
  {
    DropLast(GoogleImagesUrl + "?v=1.0&q=" + Terminated(SanitisedAll(terms, quote)))
      + "&as_filetype=" + fileType + "&imgsz=" + fileSize + "&rsz=" + IntToStr(resultCount)
  }

  /** One more part appends the part and its `+`. */
  lemma TerminatedSnoc(parts: seq<string>, p: string)
    ensures Terminated(parts + [p]) == Terminated(parts) + (p + "+")
  {
    if parts != [] {
      JoinWithSnoc(parts, p, '+');
    }
  }

  /** Dropping the trailing `+` leaves the parts joined by `+`. */
  lemma DropTrailingPlus(prefix: string, parts: seq<string>)
    requires parts != []
    ensures DropLast(prefix + Terminated(parts)) == prefix + JoinWith(parts, '+')
  {
    var t := prefix + JoinWith(parts, '+');
    assert prefix + Terminated(parts) == t + "+";
    assert (t + "+")[..|t|] == t;
  }

  /** Quoting words that all quote keeps one quoted word per word, in order. */
  lemma {:induction false} QuotedWordsTotal(words: seq<string>, quote: Quoter)
    requires forall i :: 0 <= i < |words| ==> quote(words[i]).Some?
    ensures |QuotedWords(words, quote)| == |words|
    ensures forall i :: 0 <= i < |words| ==> QuotedWords(words, quote)[i] == quote(words[i]).value
  {
    if words != [] {
      var init := words[..|words| - 1];
      assert forall i :: 0 <= i < |init| ==> init[i] == words[i];
      QuotedWordsTotal(init, quote);
    }
  }

  /** Words whose quoting raises are dropped, never replaced: at most one quoted word per word. */
  lemma {:induction false} QuotedWordsDropOnly(words: seq<string>, quote: Quoter)
    ensures |QuotedWords(words, quote)| <= |words|
    ensures (forall i :: 0 <= i < |words| ==> quote(words[i]).None?) ==> QuotedWords(words, quote) == []
  {
    if words != [] {
      var init := words[..|words| - 1];
      assert forall i :: 0 <= i < |init| ==> init[i] == words[i];
      QuotedWordsDropOnly(init, quote);
    }
  }

  /** Quoting a concatenation quotes each half. */
  lemma {:induction false} QuotedWordsConcat(a: seq<string>, b: seq<string>, quote: Quoter)
    ensures QuotedWords(a + b, quote) == QuotedWords(a, quote) + QuotedWords(b, quote)
  {
    if b == [] {
      assert a + b == a;
    } else {
      var init := b[..|b| - 1];
      assert (a + b)[..|a + b| - 1] == a + init;
      assert (a + b)[|a + b| - 1] == b[|b| - 1];
      QuotedWordsConcat(a, init, quote);
    }
  }

  /** A word whose quoting raises is dropped: the words around it are quoted as they would be without it. */
  lemma QuotedWordsDrop(words: seq<string>, quote: Quoter, i: nat)
    requires i < |words| && quote(words[i]).None?
    ensures QuotedWords(words, quote) == QuotedWords(words[..i], quote) + QuotedWords(words[i + 1..], quote)
  {
    QuotedWordsAround(words, quote, i);
    QuotedWordsSingle(words[i], quote);
    assert QuotedWords([words[i]], quote) == [];
    assert QuotedWords(words[..i], quote) + [] == QuotedWords(words[..i], quote);
  }

  /** A word that quotes stands for its quoted form, between the quoted words before and after it. */
  lemma QuotedWordsKeep(words: seq<string>, quote: Quoter, i: nat)
    requires i < |words| && quote(words[i]).Some?
    ensures QuotedWords(words, quote) == QuotedWords(words[..i], quote) + [quote(words[i]).value] + QuotedWords(words[i + 1..], quote)
  {
    QuotedWordsAround(words, quote, i);
    QuotedWordsSingle(words[i], quote);
  }

  /** Quoting the words is quoting those before word `i`, word `i` alone, and those after it. */
  lemma QuotedWordsAround(words: seq<string>, quote: Quoter, i: nat)
    requires i < |words|
    ensures QuotedWords(words, quote) ==
      QuotedWords(words[..i], quote) + QuotedWords([words[i]], quote) + QuotedWords(words[i + 1..], quote)
  {
    var before, w, after := words[..i], words[i], words[i + 1..];
    SplitAround(words, i);
    QuotedWordsConcat(before, [w] + after, quote);
    QuotedWordsConcat([w], after, quote);
  }

  /** A single word quotes to its quoted form, or to nothing. */
  lemma QuotedWordsSingle(w: string, quote: Quoter)
    ensures QuotedWords([w], quote) == if quote(w).Some? then [quote(w).value] else []
  {
    assert [w][..0] == [];
  }

  /** `sanitise_for_url(None)` and `sanitise_for_url("")` are both empty, quoting leaving the empty word empty. */
  lemma SanitisedEmpty(quote: Quoter)
    requires quote("") == Some("") || quote("") == None
    ensures Sanitised(None, quote) == ""
    ensures Sanitised(Some(""), quote) == ""
  {
  }

  /**
    When every word quotes to something free of `+`, the sanitised term
    splits on `+` back into exactly the quoted words, one per word.
   */
  lemma SanitisedSplitsBack(s: string, quote: Quoter)
    requires forall i :: 0 <= i < |Split(s, ' ')| ==> quote(Split(s, ' ')[i]).Some?
    requires forall i :: 0 <= i < |Split(s, ' ')| ==> '+' !in quote(Split(s, ' ')[i]).value
    ensures var words := Split(s, ' ');
      var parts := Split(Sanitised(Some(s), quote), '+');
      |parts| == |words| && forall i :: 0 <= i < |words| ==> parts[i] == quote(words[i]).value
  {
    var words := Split(s, ' ');
    QuotedWordsTotal(words, quote);
    SplitJoin(QuotedWords(words, quote), '+');
  }

  /** For words that quoting leaves alone, sanitising replaces every space by `+`. */
  lemma SanitisedPlain(s: string, quote: Quoter)
    requires forall i :: 0 <= i < |Split(s, ' ')| ==> quote(Split(s, ' ')[i]) == Some(Split(s, ' ')[i])
    ensures Sanitised(Some(s), quote) == Replace(s, ' ', '+')
  {
    var words := Split(s, ' ');
    QuotedWordsTotal(words, quote);
    assert QuotedWords(words, quote) == words;
    SplitJoinReplaces(s, ' ', '+');
  }

  /**
    With at least one term, the request URL is the endpoint, `?v=1.0&q=`, the
    sanitised terms joined by `+`, then `&as_filetype=`, `&imgsz=` and `&rsz=`
    with their values, in that order.
   */
  lemma RequestUrlLayout(terms: seq<string>, fileType: string, fileSize: string, resultCount: int, quote: Quoter)
    requires terms != []
    ensures RequestUrl(terms, fileType, fileSize, resultCount, quote) ==
      GoogleImagesUrl + "?v=1.0&q=" + JoinWith(SanitisedAll(terms, quote), '+')
        + "&as_filetype=" + fileType + "&imgsz=" + fileSize + "&rsz=" + IntToStr(resultCount)
  {
    DropTrailingPlus(GoogleImagesUrl + "?v=1.0&q=", SanitisedAll(terms, quote));
  }

  /** With no terms at all, dropping the last character takes the `=` of `q=` instead of a `+`. */
  lemma RequestUrlNoTerms(fileType: string, fileSize: string, resultCount: int, quote: Quoter)
    ensures RequestUrl([], fileType, fileSize, resultCount, quote) ==
      GoogleImagesUrl + "?v=1.0&q" + "&as_filetype=" + fileType + "&imgsz=" + fileSize + "&rsz=" + IntToStr(resultCount)
  {
  }

  /**
    When no sanitised term and neither the file type nor the size holds an
    `&`, the query string splits on `&` into its five fields, and the result
    count reads back from the last one.
   */
  lemma RequestUrlFields(terms: seq<string>, fileType: string, fileSize: string, resultCount: int, quote: Quoter)
    requires terms != []
    requires forall i :: 0 <= i < |terms| ==> '&' !in Sanitised(Some(terms[i]), quote)
    requires '&' !in fileType && '&' !in fileSize
    ensures var fields := Split(RequestUrl(terms, fileType, fileSize, resultCount, quote), '&');
      fields == [GoogleImagesUrl + "?v=1.0", "q=" + JoinWith(SanitisedAll(terms, quote), '+'),
                 "as_filetype=" + fileType, "imgsz=" + fileSize, "rsz=" + IntToStr(resultCount)] &&
      ParseInt(fields[4][4..]) == resultCount
  {
    var q := JoinWith(SanitisedAll(terms, quote), '+');
    var n := IntToStr(resultCount);
    RequestUrlLayout(terms, fileType, fileSize, resultCount, quote);
    JoinNoSep(SanitisedAll(terms, quote), '+', '&');
    IntToStrChars(resultCount);
    EndpointFieldFree();
    QueryFields(GoogleImagesUrl, q, fileType, fileSize, n);
    assert ("rsz=" + n)[4..] == n;
    IntToStrRoundTrip(resultCount);
  }

  /** The endpoint and version field holds no `&`. */
  lemma EndpointFieldFree()
    ensures '&' !in GoogleImagesUrl + "?v=1.0"
  {
    assert '&' !in "https://ajax.googleapis.com";
    assert '&' !in "/ajax/services/search/images";
    assert '&' !in "?v=1.0";
  }

  /** The query string laid out by `get_img_urls` splits on `&` into its fields when none of them holds an `&`. */
  lemma QueryFields(base: string, q: string, fileType: string, fileSize: string, n: string)
    requires '&' !in base + "?v=1.0" && '&' !in q && '&' !in fileType && '&' !in fileSize && '&' !in n
    ensures Split(base + "?v=1.0&q=" + q + "&as_filetype=" + fileType + "&imgsz=" + fileSize + "&rsz=" + n, '&') ==
      [base + "?v=1.0", "q=" + q, "as_filetype=" + fileType, "imgsz=" + fileSize, "rsz=" + n]
  {
    QueryAsJoin(base, q, fileType, fileSize, n);
    SplitJoin([base + "?v=1.0", "q=" + q, "as_filetype=" + fileType, "imgsz=" + fileSize, "rsz=" + n], '&');
  }

  /** The query string is its five fields joined by `&`. */
  lemma QueryAsJoin(base: string, q: string, fileType: string, fileSize: string, n: string)
    ensures base + "?v=1.0&q=" + q + "&as_filetype=" + fileType + "&imgsz=" + fileSize + "&rsz=" + n ==
      JoinWith([base + "?v=1.0", "q=" + q, "as_filetype=" + fileType, "imgsz=" + fileSize, "rsz=" + n], '&')
  {
    var f0, f1, f2, f3, f4 := base + "?v=1.0", "q=" + q, "as_filetype=" + fileType, "imgsz=" + fileSize, "rsz=" + n;
    ParameterSeparators();
    assert base + "?v=1.0&q=" + q == f0 + "&" + f1;
    assert f0 + "&" + f1 + "&as_filetype=" + fileType == f0 + "&" + f1 + "&" + f2;
    assert f0 + "&" + f1 + "&" + f2 + "&imgsz=" + fileSize == f0 + "&" + f1 + "&" + f2 + "&" + f3;
    assert f0 + "&" + f1 + "&" + f2 + "&" + f3 + "&rsz=" + n == f0 + "&" + f1 + "&" + f2 + "&" + f3 + "&" + f4;
    JoinWithSnoc([f0], f1, '&');
    JoinWithSnoc([f0, f1], f2, '&');
    JoinWithSnoc([f0, f1, f2], f3, '&');
    JoinWithSnoc([f0, f1, f2, f3], f4, '&');
    assert [f0] + [f1] == [f0, f1];
    assert [f0, f1] + [f2] == [f0, f1, f2];
    assert [f0, f1, f2] + [f3] == [f0, f1, f2, f3];
    assert [f0, f1, f2, f3] + [f4] == [f0, f1, f2, f3, f4];
  }

  /** Each parameter of the query string starts with the `&` that separates it from the one before. */
  lemma ParameterSeparators()
    ensures "?v=1.0&q=" == "?v=1.0" + "&" + "q="
    ensures "&as_filetype=" == "&" + "as_filetype="
    ensures "&imgsz=" == "&" + "imgsz="
    ensures "&rsz=" == "&" + "rsz="
  {
  }

  /** A join holds the separator-free character `c` nowhere when no part holds it. */
  lemma {:induction false} JoinNoSep(parts: seq<string>, sep: char, c: char)
    requires c != sep
    requires forall i :: 0 <= i < |parts| ==> c !in parts[i]
    ensures c !in JoinWith(parts, sep)
  {
    if |parts| > 1 {
      JoinNoSep(parts[1..], sep, c);
    }
  }

  /** `str(n)` is made of digits and a minus sign only. */
  lemma IntToStrChars(n: int)
    ensures forall k :: 0 <= k < |IntToStr(n)| ==> IntToStr(n)[k] == '-' || '0' <= IntToStr(n)[k] <= '9'
  {
    if n < 0 {
      assert forall k :: 1 <= k < |IntToStr(n)| ==> IntToStr(n)[k] == Digits(-n)[k - 1];
    }
  }

  /**
    `sanitise_for_url(inputString)`: quotes each space-separated word,
    appending it and a `+`, skips a word whose quoting raises, and finally
    drops the last character.
   */
  method SanitiseForUrl(input: Option<string>, quote: Quoter) returns (out: string)
    ensures out == Sanitised(input, quote)
  {
    if input.None? {
      return "";
    }
    var words := Split(input.value, ' ');
    out := "";
    for i := 0 to |words|
      invariant out == Terminated(QuotedWords(words[..i], quote))
    {
      assert words[..i + 1][..i] == words[..i];
      var q := quote(words[i]);
      if q.Some? {
        TerminatedSnoc(QuotedWords(words[..i], quote), q.value);
        out := out + q.value + "+";
      }
    }
    assert words[..|words|] == words;
    if QuotedWords(words, quote) != [] {
      DropTrailingPlus("", QuotedWords(words, quote));
      assert "" + out == out;
    }
    out := DropLast(out);
  }

  /** The request `get_img_urls` sends: its URL and the `Referer` header. */
  datatype Request = Request(url: string, referer: string)

  /**
    What the search service answers: the request cannot be opened, the answer
    is not JSON, the JSON is empty (false in Python), or the image URLs of its
    results.
   */
  datatype SearchOutcome = OpenFailed | ParseFailed | NoResults | Hits(urls: seq<string>)

  /** The image URLs `get_img_urls` returns for an answer: none unless it has results. */
  function ImgUrls(outcome: SearchOutcome): seq<string>
  {
    if outcome.Hits? then outcome.urls else []
  }

  /** The image search service, with the requests sent to it so far. */
  class SearchService {
    const answer: Request -> SearchOutcome
    var sent: seq<Request>

    constructor(answer: Request -> SearchOutcome)
      ensures this.answer == answer && sent == []
    {
      this.answer := answer;
      sent := [];
    }

    /** `urllib2.urlopen(request, None, 10)` and `simplejson.load` of the response. */
    method Send(req: Request) returns (outcome: SearchOutcome)
      modifies this
      ensures outcome == answer(req)
      ensures sent == old(sent) + [req]
    {
      sent := sent + [req];
      outcome := answer(req);
    }
  }

  /**
    The URL building of `get_img_urls`: sanitise every term, append each with
    a `+`, drop the last character, then add the parameters.
   */
  method BuildRequestUrl(terms: seq<string>, fileType: string, fileSize: string, resultCount: int, quote: Quoter)
    returns (url: string)
    ensures url == RequestUrl(terms, fileType, fileSize, resultCount, quote)
  {
    var words := SanitiseTerms(terms, quote);
    url := GoogleImagesUrl + "?v=1.0&q=";
    url := AppendTerms(url, words);
    url := url[..|url| - 1];
    url := url + "&as_filetype=" + fileType;
    url := url + "&imgsz=" + fileSize;
    url := url + "&rsz=" + IntToStr(resultCount);
  }

  /** The list comprehension of `get_img_urls` sanitising each search term. */
  method SanitiseTerms(terms: seq<string>, quote: Quoter) returns (words: seq<string>)
    ensures words == SanitisedAll(terms, quote)
  {
    words := [];
    for i := 0 to |terms|
      invariant |words| == i
      invariant forall j :: 0 <= j < i ==> words[j] == Sanitised(Some(terms[j]), quote)
    {
      var w := SanitiseForUrl(Some(terms[i]), quote);
      words := words + [w];
    }
  }

  /** The loop of `get_img_urls` appending each sanitised term and a `+` to the URL. */
  method AppendTerms(start: string, words: seq<string>) returns (url: string)
    ensures url == start + Terminated(words)
  {
    url := start;
    for i := 0 to |words|
      invariant url == start + Terminated(words[..i])
    {
      assert words[..i + 1] == words[..i] + [words[i]];
      TerminatedSnoc(words[..i], words[i]);
      ConcatAssoc(start, Terminated(words[..i]), words[i] + "+");
      url := url + (words[i] + "+");
    }
    assert words[..|words|] == words;
  }

  /**
    `get_img_urls(searchWords, fileType, fileSize, resultCount, referer)`:
    sends one request and returns the image URLs of the answer, in order; an
    answer that cannot be opened or parsed gives no URLs rather than an error.
   */
  method GetImgUrls(terms: seq<string>, fileType: string, fileSize: string, resultCount: int, referer: string,
                    quote: Quoter, svc: SearchService) returns (imgUrls: seq<string>)
    modifies svc
    ensures svc.sent == old(svc.sent) + [Request(RequestUrl(terms, fileType, fileSize, resultCount, quote), referer)]
    ensures imgUrls == ImgUrls(svc.answer(Request(RequestUrl(terms, fileType, fileSize, resultCount, quote), referer)))
  {
    imgUrls := [];
    var url := BuildRequestUrl(terms, fileType, fileSize, resultCount, quote);
    var outcome := svc.Send(Request(url, referer));
    if outcome.OpenFailed? || outcome.ParseFailed? {
      return imgUrls;
    }
    if outcome.Hits? {
      imgUrls := CollectUrls(outcome.urls);
    }
  }

  /** The loop of `get_img_urls` appending the URL of each result, in order. */
  method CollectUrls(results: seq<string>) returns (imgUrls: seq<string>)
    ensures imgUrls == results
  {
    imgUrls := [];
    for i := 0 to |results|
      invariant imgUrls == results[..i]
    {
      assert results[..i + 1] == results[..i] + [results[i]];
      imgUrls := imgUrls + [results[i]];
    }
    assert results[..|results|] == results;
  }
}
