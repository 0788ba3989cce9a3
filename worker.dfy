/**
 * The decision logic of the download worker (`worker` in downloader.py):
 * the archive-URL rewrite, the soft "502 Bad Gateway" rule, the table that
 * shortens exception texts, the shard file name, and the way the driver
 * reads the worker's reply.  The HTTP exchange, decoding, tokenisation and
 * the compressed append are inputs or left out.
 */
module Worker {
  import opened Wrappers
  import opened Strings
  import opened Extractor

  /**
   * `http://web.archive.org/web` and `https://web.archive.org/web`, written
   * out around the second `h` (the only letters an occurrence of the
   * insecure prefix can start at).
   */
  const ArchiveTail: string := "hive.org/web"
  const InsecureArchive: string := "h" + "ttp://web.arc" + ArchiveTail
  const SecureArchive: string := "h" + "ttps://web.arc" + ArchiveTail

  /** Every occurrence of the insecure archive prefix in the archive URL replaced by the secure one. */
  function RewriteArchiveUrl(wbUrl: string): string
  {
    ReplaceAll(wbUrl, InsecureArchive, SecureArchive)
  }

  /**
   * A prefix free of `h` that the rewritten URL starts with was already in
   * the original URL: only an `h` can begin a replacement.
   */
  lemma {:induction false} PrefixBeforeAnyH(t: string, w: string, rest: string)
    requires 'h' !in w
    requires StartsWith(RewriteArchiveUrl(t), w + rest)
    ensures StartsWith(t, w) && StartsWith(RewriteArchiveUrl(t[|w|..]), rest)
    decreases |w|
  {
    if w == [] {
      assert w + rest == rest;
      assert t[|w|..] == t;
    } else {
      var r := RewriteArchiveUrl(t);
      assert r[0] == w[0];
      assert t != [];
      assert r == [t[0]] + RewriteArchiveUrl(t[1..]);
      var r1 := RewriteArchiveUrl(t[1..]);
      assert r1 == r[1..];
      assert (w + rest)[1..] == w[1..] + rest;
      assert StartsWith(r1, w[1..] + rest);
      PrefixBeforeAnyH(t[1..], w[1..], rest);
      assert t[1..][|w| - 1..] == t[|w|..];
      assert t[..|w|] == [t[0]] + t[1..][..|w| - 1];
    }
  }

  /** `hive.org/web` in the rewritten URL comes from `hive.org/web` in the original. */
  lemma HiveSurvives(u: string)
    requires StartsWith(RewriteArchiveUrl(u), "hive.org/web")
    ensures StartsWith(u, "hive.org/web")
  {
    var ru := RewriteArchiveUrl(u);
    assert ru[1] == 'i';
    assert u != [];
    assert ru == [u[0]] + RewriteArchiveUrl(u[1..]);
    var w := "ive.org/web";
    var ru1 := RewriteArchiveUrl(u[1..]);
    assert ru1 == ru[1..];
    assert forall k | 0 <= k < |w| :: ru1[k] == ru[..12][k + 1] == w[k];
    assert ru1[..|w|] == w;
    assert w + "" == w;
    PrefixBeforeAnyH(u[1..], w, "");
    assert u[0] == 'h' by {
      assert ru[..12][0] == 'h';
    }
    assert u[1..][..|w|] == w;
    assert |u| >= 12;
    assert u[..12] == [u[0]] + u[1..][..|w|] by {
      forall k | 0 <= k < 12
        ensures u[..12][k] == ([u[0]] + u[1..][..|w|])[k]
      {
        if k > 0 {
          assert u[..12][k] == u[1..][..|w|][k - 1];
        }
      }
    }
  }

  /** If the rewrite of `t` starts with the tail of the insecure prefix, so does `t`. */
  lemma InsecureTailSurvives(t: string)
    requires StartsWith(RewriteArchiveUrl(t), InsecureArchive[1..])
    ensures StartsWith(t, InsecureArchive[1..])
  {
    var w1, w2 := "ttp://web.arc", "hive.org/web";
    assert InsecureArchive[1..] == w1 + w2;
    PrefixBeforeAnyH(t, w1, w2);
    HiveSurvives(t[|w1|..]);
    assert t[..25] == t[..|w1|] + t[|w1|..][..|w2|];
  }

  /** No occurrence of the insecure prefix can start inside the `hive.org/web` tail of either prefix. */
  lemma HiveThenClean(x: string)
    requires !Contains(x, InsecureArchive)
    ensures !Contains("hive.org/web" + x, InsecureArchive)
  {
    var y := "hive.org/web" + x;
    assert y[1] == 'i' && InsecureArchive[1] == 't';
    assert y[1..] == "ive.org/web" + x;
    SkipPrefix("ive.org/web", x, InsecureArchive);
  }

  /** No occurrence of the insecure prefix can start inside the secure replacement. */
  lemma SecureThenClean(x: string)
    requires !Contains(x, InsecureArchive)
    ensures !Contains(SecureArchive + x, InsecureArchive)
  {
    HiveThenClean(x);
    var s := SecureArchive + x;
    assert s[4] == 's' && InsecureArchive[4] == ':';
    var a := "ttps://web.arc";
    assert s[1..] == a + (ArchiveTail + x);
    SkipPrefix(a, ArchiveTail + x, InsecureArchive);
  }

  /** After the rewrite the URL no longer contains `http://web.archive.org/web`. */
  lemma {:induction false} RewriteRemovesInsecure(u: string)
    ensures !Contains(RewriteArchiveUrl(u), InsecureArchive)
    decreases |u|
  {
    var r := RewriteArchiveUrl(u);
    if StartsWith(u, InsecureArchive) {
      RewriteRemovesInsecure(u[|InsecureArchive|..]);
      SecureThenClean(RewriteArchiveUrl(u[|InsecureArchive|..]));
    } else if u != [] {
      RewriteRemovesInsecure(u[1..]);
      assert r == [u[0]] + RewriteArchiveUrl(u[1..]);
      assert r[1..] == RewriteArchiveUrl(u[1..]);
      if StartsWith(r[1..], InsecureArchive[1..]) {
        InsecureTailSurvives(u[1..]);
        if |u| >= 26 {
          assert u[..26] == [u[0]] + u[1..][..25];
        }
      }
    }
  }

  /** The rewrite is idempotent. */
  lemma RewriteIdempotent(u: string)
    ensures RewriteArchiveUrl(RewriteArchiveUrl(u)) == RewriteArchiveUrl(u)
  {
    RewriteRemovesInsecure(u);
    ReplaceAllAbsent(RewriteArchiveUrl(u), InsecureArchive, SecureArchive);
  }

  /** A URL without the insecure prefix is left exactly as it is. */
  lemma RewriteKeepsOtherUrls(u: string)
    requires !Contains(u, InsecureArchive)
    ensures RewriteArchiveUrl(u) == u
  {
    ReplaceAllAbsent(u, InsecureArchive, SecureArchive);
  }

  /** An insecure archive URL becomes the secure one with the same remainder (rewritten in turn). */
  lemma RewriteInsecureUrl(rest: string)
    ensures RewriteArchiveUrl(InsecureArchive + rest) == SecureArchive + RewriteArchiveUrl(rest)
  {
    var u := InsecureArchive + rest;
    assert u[..|InsecureArchive|] == InsecureArchive;
    assert u[|InsecureArchive|..] == rest;
  }

  /** The title archive.org renders when it turns a client away. */
  const GatewayTitle: string := "502 Bad Gateway"
  /** Documents whose genuine content is such a page. */
  const GatewayAllowlist: set<string> := {"80445ed4fc45", "9ff7c85c8c28", "03e460cf3fa1"}
  const GatewayAllowedText: string := "502 Bad Gateway nginx"

  /** The soft-failure rule: a gateway-error title is an error unless the page is one of the known genuine ones. */
  predicate IsSoftGatewayError(docid: string, title: string, text: string)
  {
    title == GatewayTitle && !(docid in GatewayAllowlist && text == GatewayAllowedText)
  }

  const NotFoundClientError: string := "404 Client Error: NOT FOUND"
  const ForbiddenClientError: string := "403 Client Error: FORBIDDEN"
  const ConnectionRefusedError: string := "[Errno 111] Connection refused"
  const ReadTimeoutError: string := "Read timed out"

  const NotFoundReason: string := "404 not found"
  const ForbiddenReason: string := "403 forbidden"

  /** The ordered table that shortens an exception's text; anything unmatched is kept verbatim. */
  function NormalizeError(ex: string): string
  {
    if Contains(ex, NotFoundClientError) then NotFoundReason
    else if Contains(ex, ForbiddenClientError) then ForbiddenReason
    else if Contains(ex, ConnectionRefusedError) then "connection refused"
    else if Contains(ex, ReadTimeoutError) then "read timed out"
    else ex
  }

  /**
   * The table, entry by entry: the first of the four exception texts that
   * occurs decides the reason, and a text matching none is kept verbatim.
   */
  lemma NormalizeErrorTable(ex: string)
    ensures Contains(ex, NotFoundClientError) ==> NormalizeError(ex) == NotFoundReason
    ensures !Contains(ex, NotFoundClientError) && Contains(ex, ForbiddenClientError) ==>
      NormalizeError(ex) == ForbiddenReason
    ensures (&& !Contains(ex, NotFoundClientError) && !Contains(ex, ForbiddenClientError)
             && !Contains(ex, ConnectionRefusedError) && !Contains(ex, ReadTimeoutError))
            ==> NormalizeError(ex) == ex
  {
  }

  /** The message the worker returns for any failure. */
  function RetryMessage(wbUrl: string, ex: string): string
  {
    "failed download of " + wbUrl + ": " + NormalizeError(ex) + "; will retry"
  }

  /** The driver's test for a failure that will never succeed (downloader.py:214). */
  predicate IsTerminalError(error: string)
  {
    Contains(error, NotFoundReason) || Contains(error, ForbiddenReason)
  }

  /** What one reply means to the driver. */
  datatype Outcome = Succeeded | Terminal | Retryable

  /** The driver's reading of a worker reply: no error, a 404/403, or anything else. */
  function Classify(error: Option<string>): Outcome
  {
    match error
    case None => Succeeded
    case Some(e) => if IsTerminalError(e) then Terminal else Retryable
  }

  /** The name of the shard file a document goes to: its first character. */
  function ShardName(docid: string): string
    requires docid != []
  {
    [docid[0]] + ".jsonl.lz4"
  }

  /** Shard assignment depends on the first character of the id and on nothing else. */
  lemma ShardNameByFirstChar(a: string, b: string)
    requires a != [] && b != []
    ensures ShardName(a) == ShardName(b) <==> a[0] == b[0]
  {
    if ShardName(a) == ShardName(b) {
      assert ShardName(a)[0] == a[0] && ShardName(b)[0] == b[0];
    }
  }

  /** What the HTTP exchange produced: an exception text, or a response. */
  datatype Fetch =
    | Raised(message: string)
    | Response(contentType: Option<string>, body: seq<Event>)

  /** One document as appended to its shard. */
  datatype Record = Record(docId: string, url: string, wbUrl: string, title: string, text: string)

  /** An append of a record to the named shard file. */
  datatype Append = Append(shard: string, record: Record)

  /** The worker's reply `(docid, error)`, and the append it made. */
  datatype Reply = Reply(docId: string, error: Option<string>, appended: Option<Append>)

  /** The `try` block: either the append it performs or the text of the exception it raises. */
  function Attempt(docid: string, url: string, wbUrl: string, fetch: Fetch,
                   tokenize: string -> seq<string>): Result<Append>
  {
    match fetch
    case Raised(m) => Err(m)
    case Response(contentType, body) =>
      if !Contains(Lower(contentType.GetOr("")), "html") then
        Err("content-type " + contentType.GetOr("None"))
      else
        var extracted := Run(Initial, body);
        var title := Join(" ", tokenize(extracted.title));
        var text := Join(" ", tokenize(extracted.text));
        if IsSoftGatewayError(docid, title, text) then Err("502 bad gateway")
        else if docid == [] then Err("string index out of range")
        else Ok(Append(ShardName(docid), Record(docid, url, wbUrl, title, text)))
  }

  /** The worker for one task, with the network exchange given as `fetch`. */
  function Process(docid: string, url: string, wbUrl: string, fetch: Fetch,
                   tokenize: string -> seq<string>): Reply
  {
    var secure := RewriteArchiveUrl(wbUrl);
    match Attempt(docid, url, secure, fetch, tokenize)
    case Ok(a) => Reply(docid, None, Some(a))
    case Err(ex) => Reply(docid, Some(RetryMessage(secure, ex)), None)
  }

  /**
   * The reply always names the task's document; it carries no error exactly
   * when a record was appended, and that record is for this document, in
   * this document's shard, under the secure archive URL.
   */
  lemma ReplyShape(docid: string, url: string, wbUrl: string, fetch: Fetch,
                   tokenize: string -> seq<string>)
    ensures var r := Process(docid, url, wbUrl, fetch, tokenize);
      && r.docId == docid
      && (r.error.None? <==> r.appended.Some?)
      && (r.appended.Some? ==>
            && docid != []
            && r.appended.value.shard == ShardName(docid)
            && r.appended.value.record.docId == docid
            && r.appended.value.record.url == url
            && r.appended.value.record.wbUrl == RewriteArchiveUrl(wbUrl)
            && !Contains(r.appended.value.record.wbUrl, InsecureArchive))
  {
    RewriteRemovesInsecure(wbUrl);
  }

  /**
   * The success path, in full: the reply has no error iff the fetch gave an
   * HTML response, the extracted page is not a soft gateway error, and the
   * id has a first character to name its shard.
   */
  lemma SuccessPath(docid: string, url: string, wbUrl: string, fetch: Fetch,
                    tokenize: string -> seq<string>)
    ensures Process(docid, url, wbUrl, fetch, tokenize).error.None? <==>
      && fetch.Response?
      && Contains(Lower(fetch.contentType.GetOr("")), "html")
      && !IsSoftGatewayError(docid, Join(" ", tokenize(Run(Initial, fetch.body).title)),
                              Join(" ", tokenize(Run(Initial, fetch.body).text)))
      && docid != []
  {
  }

  /**
   * A page titled "502 Bad Gateway" is turned into a retried failure unless
   * the document is one of the three allow-listed ids and its text is
   * exactly "502 Bad Gateway nginx".
   */
  lemma GatewayPageRetried(docid: string, url: string, wbUrl: string,
                           contentType: Option<string>, body: seq<Event>,
                           tokenize: string -> seq<string>)
    requires Contains(Lower(contentType.GetOr("")), "html")
    requires Join(" ", tokenize(Run(Initial, body).title)) == GatewayTitle
    ensures var r := Process(docid, url, wbUrl, Response(contentType, body), tokenize);
      var text := Join(" ", tokenize(Run(Initial, body).text));
      && (r.error.Some? <==> !(docid in GatewayAllowlist && text == GatewayAllowedText))
      && (r.error.Some? ==> r.error == Some(RetryMessage(RewriteArchiveUrl(wbUrl), "502 bad gateway")))
  {
    var secure := RewriteArchiveUrl(wbUrl);
    var title := Join(" ", tokenize(Run(Initial, body).title));
    var text := Join(" ", tokenize(Run(Initial, body).text));
    var a := Attempt(docid, url, secure, Response(contentType, body), tokenize);
    if docid in GatewayAllowlist && text == GatewayAllowedText {
      assert docid != [];
      assert !IsSoftGatewayError(docid, title, text);
      assert a.Ok?;
    } else {
      assert IsSoftGatewayError(docid, title, text);
      assert a == Err("502 bad gateway");
    }
  }

  lemma NotTerminalLiteral(s: string)
    requires '4' !in s
    ensures !IsTerminalError(s)
  {
    SkipPrefix(s, "", NotFoundReason);
    SkipPrefix(s, "", ForbiddenReason);
    assert s + "" == s;
  }

  /**
   * The normalised reason is terminal iff the exception named a 404 or a
   * 403 client error, or it matched no entry of the table and already
   * contained one of the two short reasons itself.
   */
  lemma NormalizedTerminal(ex: string)
    ensures IsTerminalError(NormalizeError(ex)) <==>
      || Contains(ex, NotFoundClientError)
      || Contains(ex, ForbiddenClientError)
      || (&& !Contains(ex, ConnectionRefusedError)
          && !Contains(ex, ReadTimeoutError)
          && IsTerminalError(ex))
  {
    if Contains(ex, NotFoundClientError) {
      assert StartsWith(NotFoundReason, NotFoundReason);
    } else if Contains(ex, ForbiddenClientError) {
      assert StartsWith(ForbiddenReason, ForbiddenReason);
    } else if Contains(ex, ConnectionRefusedError) {
      NotTerminalLiteral("connection refused");
    } else if Contains(ex, ReadTimeoutError) {
      NotTerminalLiteral("read timed out");
    }
  }

  /**
   * A text that holds neither of the message's separators, is longer than
   * its fixed tail and cannot start inside its fixed head occurs in the
   * retry message exactly when it occurs in the URL or the normalised text.
   */
  lemma MessageContains(wbUrl: string, n: string, p: string)
    requires p != [] && p[0] != ' ' && p[0] !in "failed download of "
    requires ':' !in p && ';' !in p && |p| > |" will retry"|
    ensures Contains("failed download of " + wbUrl + ": " + n + "; will retry", p) <==>
      Contains(wbUrl, p) || Contains(n, p)
  {
    var head := "failed download of " + wbUrl;
    var tail := (" " + n) + [';'] + " will retry";
    assert "failed download of " + wbUrl + ": " + n + "; will retry" == head + [':'] + tail;
    SplitOnSeparator(head, ':', tail, p);
    SkipPrefix("failed download of ", wbUrl, p);
    MessageTail(n, p);
  }

  /** The part of the retry message after the colon. */
  lemma MessageTail(n: string, p: string)
    requires p != [] && p[0] != ' ' && ';' !in p && |p| > |" will retry"|
    ensures Contains((" " + n) + [';'] + " will retry", p) <==> Contains(n, p)
  {
    SplitOnSeparator(" " + n, ';', " will retry", p);
    SkipPrefix(" ", n, p);
    ContainsLength(" will retry", p);
  }

  /**
   * The failure message is terminal iff the URL it quotes or the normalised
   * reason is: the separators around them cannot take part in a match.
   */
  lemma MessageTerminal(wbUrl: string, ex: string)
    ensures IsTerminalError(RetryMessage(wbUrl, ex)) <==>
      IsTerminalError(wbUrl) || IsTerminalError(NormalizeError(ex))
  {
    MessageContains(wbUrl, NormalizeError(ex), NotFoundReason);
    MessageContains(wbUrl, NormalizeError(ex), ForbiddenReason);
  }

  /**
   * How the driver reads a failure (downloader.py:124-135, 214): when
   * neither the URL nor the raw exception text already spells out one of
   * the short reasons, the failure is terminal iff the exception named a
   * 404 or a 403 client error; every other failure is retried.
   */
  lemma FailureClassification(wbUrl: string, ex: string)
    requires !IsTerminalError(wbUrl) && !IsTerminalError(ex)
    ensures Classify(Some(RetryMessage(wbUrl, ex))) == Terminal <==>
      Contains(ex, NotFoundClientError) || Contains(ex, ForbiddenClientError)
    ensures Classify(Some(RetryMessage(wbUrl, ex))) != Succeeded
  {
    MessageTerminal(wbUrl, ex);
    NormalizedTerminal(ex);
  }
}
