/** GET /{short_code} (app/routes/redirect.py): the reserved names, the resolve, and the two background tasks. */
module Redirect {
  import opened Wrappers
  import opened Redis
  import opened Api
  import opened ShortCode
  import opened Text
  import opened UrlService

  const RESERVED_PREFIXES :=
    {"health", "docs", "redoc", "openapi.json", "api", "metrics", "favicon.ico", "robots.txt", "static"}

  const VALID_REDIRECT_CODES := {301, 302, 307, 308}

  datatype Response = Redirected(url: Url, status: int) | NotFound404

  /** A background task, with what it is scheduled with: log_click gets the Referer and User-Agent headers and the peer. */
  datatype Task =
    | RecordClickTask(code: Code)
    | LogClickTask(code: Code, referrer: Option<string>, userAgent: Option<string>, peer: Option<string>)

  predicate Reserved(code: Code) {
    Lower(code) in RESERVED_PREFIXES
  }

  class RedirectRoute {
    const urls: URLService
    var tasks: seq<Task>

    constructor (urls: URLService)
      ensures this.urls == urls && tasks == []
    {
      this.urls := urls;
      tasks := [];
    }

    /** `redirect_to_long_url`: a reserved name reaches neither store; every redirect schedules exactly its two tasks, the
        counter first; the status is always a redirect status. */
    method RedirectToLongUrl(shortCode: string, redirectCode: Option<int>, referrer: Option<string>,
                             userAgent: Option<string>, peer: Option<string>, get: Call, fill: Call)
      returns (r: Response)
      modifies this`tasks, urls.cache.redis`strings
      ensures
        var code := Strip(shortCode);
        var reserved := Lower(code) in {"health", "docs", "redoc", "openapi.json", "api", "metrics", "favicon.ico",
                                        "robots.txt", "static"};
        var (strings, found) :=
          Resolved(old(urls.cache.redis.strings), urls.database.db, code, urls.cache.defaultTtl, get, fill);
        && (r.Redirected? <==> !reserved && found.Some? && found.value != "")
        && urls.cache.redis.strings == (if reserved then old(urls.cache.redis.strings) else strings)
        && (r.Redirected? ==>
              && r.url == found.value
              && (redirectCode in {Some(301), Some(302), Some(308)} ==> r.status == redirectCode.value)
              && (redirectCode !in {Some(301), Some(302), Some(308)} ==> r.status == 307)
              && tasks == old(tasks) + [RecordClickTask(code), LogClickTask(code, referrer, userAgent, peer)])
        && (r.NotFound404? ==> tasks == old(tasks))
    {
      var cleanCode := Strip(shortCode);
      if Lower(cleanCode) in RESERVED_PREFIXES {
        return NotFound404;
      }
      var destination := urls.GetDestinationUrl(cleanCode, get, fill);
      if destination == None || destination.value == "" {
        return NotFound404;
      }
      tasks := tasks + [RecordClickTask(cleanCode)];
      tasks := tasks + [LogClickTask(cleanCode, referrer, userAgent, peer)];
      var status := if redirectCode.Some? && redirectCode.value in VALID_REDIRECT_CODES then redirectCode.value else 307;
      return Redirected(destination.value, status);
    }
  }

  lemma SevenLetters(t: string)
    requires |t| == 7
    ensures t in RESERVED_PREFIXES <==> t == "metrics"
  {
    assert t != "health" && t != "docs" && t != "redoc" && t != "openapi.json" && t != "api" by {
      assert |"health"| == 6 && |"docs"| == 4 && |"redoc"| == 5 && |"openapi.json"| == 12 && |"api"| == 3;
    }
    assert t != "favicon.ico" && t != "robots.txt" && t != "static" by {
      assert |"favicon.ico"| == 11 && |"robots.txt"| == 10 && |"static"| == 6;
    }
  }

  /** A generated code is reserved exactly when it spells "metrics" in some letter case. */
  lemma ReservedGeneratedCodes(code: Code)
    requires |code| == 7
    ensures Reserved(code) <==> Lower(code) == "metrics"
  {
    SevenLetters(Lower(code));
  }

  lemma LettersAreDigits(c: char)
    requires 'a' <= c <= 'z'
    ensures Digit(c) >= 0
  {
    var d := c as int - 'a' as int + 10;
    assert c == Symbol(d);
    DigitOfAlphabet(d);
  }

  lemma {:induction false} LettersStay(s: string)
    requires forall i | 0 <= i < |s| :: 'a' <= s[i] <= 'z'
    ensures Lower(s) == s
  {
    if s != "" {
      LettersStay(s[1..]);
    }
  }

  /** The generator can draw such a code, so not every created code redirects. */
  lemma ReservedCodeCanBeGenerated(code: Code)
    requires code == "metrics"
    ensures |code| == 7 && Valid(code) && Reserved(code)
  {
    forall i | 0 <= i < |code| ensures 'a' <= code[i] <= 'z' && Digit(code[i]) >= 0 {
      LettersAreDigits(code[i]);
    }
    LettersStay(code);
    ReservedGeneratedCodes(code);
  }
}
