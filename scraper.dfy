/**
 * The content fetcher: turns an HTML document into plain text and a title, and wraps the
 * single fetch of a URL with truncation and error reporting.
 */
module Scraper {
  import opened Wrappers
  import opened Js
  import opened Text

  // ---------------------------------------------------------------------------
  // Script and style blocks

  /**
   * The length of the block that `/<name\b[^<]*(?:(?!<\/name>)<[^<]*)*<\/name>/i` matches at the
   * start of `s`: from an opening `<name` not followed by a word character up to and including the
   * first following `</name>`, letters compared without case.
   */
  function BlockLength(s: string, name: string): (r: Option<nat>)
    ensures r.Some? ==> |name| + 1 < r.value <= |s|
  {
    var opener := "<" + name;
    var closer := "</" + name + ">";
    if !StartsWithIgnoringCase(s, opener) then None
    else if |s| > |opener| && IsWordChar(s[|opener|]) then None
    else
      match IndexOfIgnoringCase(s[|opener|..], closer)
      case Some(k) => Some(|opener| + k + |closer|)
      case None => None
  }

  /** `s.replace(/<name\b...<\/name>/gi, '')`: every block, contents included, is deleted. */
  function RemoveBlocks(s: string, name: string): (r: string)
    ensures |r| <= |s|
    ensures forall c :: c in r ==> c in s
    decreases |s|
  {
    if s == [] then []
    else
      match BlockLength(s, name)
      case Some(n) => RemoveBlocks(s[n..], name)
      case None => [s[0]] + RemoveBlocks(s[1..], name)
  }

  // ---------------------------------------------------------------------------
  // Tags

  /** The length of the tag `/<[^>]+>/` matches at the start of `s`: a `<`, at least one other character, the first `>`. */
  function TagLength(s: string): (r: Option<nat>)
    ensures r.Some? ==> 3 <= r.value <= |s| && s[0] == '<' && s[r.value - 1] == '>'
    ensures r.Some? ==> '>' !in s[1..r.value - 1]
    ensures r.None? ==> |s| < 2 || s[0] != '<' || s[1] == '>' || '>' !in s[1..]
  {
    if |s| >= 2 && s[0] == '<' && s[1] != '>' then
      match IndexOfChar(s[1..], '>')
      case Some(k) =>
        assert s[1..k + 1] == s[1..][..k];
        Some(k + 2)
      case None => None
    else None
  }

  /** `s.replace(/<[^>]+>/g, ' ')`: every tag becomes a single space. */
  function StripTags(s: string): (r: string)
    ensures |r| <= |s|
    ensures forall c :: c in r ==> c in s || c == ' '
    decreases |s|
  {
    if s == [] then []
    else
      match TagLength(s)
      case Some(n) => [' '] + StripTags(s[n..])
      case None => [s[0]] + StripTags(s[1..])
  }

  /** No tag starts anywhere in `s`. */
  predicate TagFree(s: string)
    decreases |s|
  {
    s == [] || (TagLength(s).None? && TagFree(s[1..]))
  }

  // ---------------------------------------------------------------------------
  // Entities

  /** The six entity replacements, in the order the scraper applies them. */
  function DecodeEntities(s: string): (r: string)
    ensures |r| <= |s|
  {
    var s1 := ReplaceAll(s, "&nbsp;", " ");
    var s2 := ReplaceAll(s1, "&amp;", "&");
    var s3 := ReplaceAll(s2, "&lt;", "<");
    var s4 := ReplaceAll(s3, "&gt;", ">");
    var s5 := ReplaceAll(s4, "&quot;", "\"");
    ReplaceAll(s5, "&#39;", "'")
  }

  // ---------------------------------------------------------------------------
  // The text pipeline

  /** The text `extractTextFromHTML` produces: every pass, in order. */
  function ExtractedText(html: string): (t: string)
    ensures IsTrimmed(t) && SingleSpaced(t)
  {
    Normalize(DecodeEntities(StripTags(RemoveBlocks(RemoveBlocks(html, "script"), "style"))))
  }

  /** `extractTextFromHTML`: the passes rebind one variable in turn. */
  method ExtractTextFromHtml(html: string) returns (text: string)
    ensures text == ExtractedText(html)
    ensures IsTrimmed(text) && SingleSpaced(text)
  {
    text := RemoveBlocks(html, "script");
    text := RemoveBlocks(text, "style");
    text := StripTags(text);
    text := ReplaceAll(text, "&nbsp;", " ");
    text := ReplaceAll(text, "&amp;", "&");
    text := ReplaceAll(text, "&lt;", "<");
    text := ReplaceAll(text, "&gt;", ">");
    text := ReplaceAll(text, "&quot;", "\"");
    text := ReplaceAll(text, "&#39;", "'");
    text := Trim(CollapseSpaces(text));
  }

  // ---------------------------------------------------------------------------
  // Titles

  /**
   * The captured group of `/<name[^>]*>([^<]+)<\/name>/i` when a match starts at `s[0]`: the
   * opener runs to the first `>`, the group to the first `<` after it, and the closer must follow.
   */
  function ElementAt(s: string, name: string): (r: Option<string>)
    ensures r.Some? ==> r.value != [] && '<' !in r.value
  {
    if StartsWithIgnoringCase(s, "<" + name) then ElementAfterOpener(s[|name| + 1..], name) else None
  }

  /** The rest of a match once `<name` is read: attributes up to the first `>`, then the text. */
  function ElementAfterOpener(t: string, name: string): (r: Option<string>)
    ensures r.Some? ==> r.value != [] && '<' !in r.value
  {
    match IndexOfChar(t, '>')
    case None => None
    case Some(k) => ElementText(t[k + 1..], name)
  }

  /** The group `([^<]+)` and the closer `</name>` right after it. */
  function ElementText(u: string, name: string): (r: Option<string>)
    ensures r.Some? ==> r.value != [] && '<' !in r.value
  {
    match IndexOfChar(u, '<')
    case None => None
    case Some(m) =>
      if m > 0 && StartsWithIgnoringCase(u[m..], "</" + name + ">") then
        assert forall j :: 0 <= j < m ==> u[..m][j] == u[j];
        Some(u[..m])
      else None
  }

  /** `s.match(/<name[^>]*>([^<]+)<\/name>/i)`: the group of the leftmost match. */
  function FirstElement(s: string, name: string): (r: Option<string>)
    ensures r.Some? ==> r.value != [] && '<' !in r.value
    decreases |s|
  {
    if s == [] then None
    else
      match ElementAt(s, name)
      case Some(c) => Some(c)
      case None => FirstElement(s[1..], name)
  }

  /** `extractTitle`: the trimmed `<title>` text, else the first `<h1>` as plain text, else "Untitled". */
  function ExtractTitle(html: string): (t: string)
    ensures IsTrimmed(t)
    ensures FirstElement(html, "title").Some? ==> t == Trim(FirstElement(html, "title").value) && '<' !in t
    ensures FirstElement(html, "title").None? && FirstElement(html, "h1").Some? ==>
      t == ExtractedText(FirstElement(html, "h1").value)
    ensures FirstElement(html, "title").None? && FirstElement(html, "h1").None? ==> t == "Untitled"
  {
    match FirstElement(html, "title")
    case Some(c) =>
      TrimAddsNothing(c, '<');
      Trim(c)
    case None =>
      match FirstElement(html, "h1")
      case Some(c) => ExtractedText(c)
      case None => "Untitled"
  }

  // ---------------------------------------------------------------------------
  // Fetching a URL

  datatype ScrapedContent = ScrapedContent(title: string, content: string, url: string)

  /** What the single fetch of the URL yields: a response, or a rejection (network failure, timeout, unreadable body). */
  datatype FetchOutcome = Responded(status: nat, body: string) | Rejected(reason: Exception)

  const MaxContentLength: nat := 5000
  const Ellipsis := "..."
  const ScrapeErrorPrefix := "Failed to scrape URL: "

  /**
   * The content cap: text over 5000 UTF-16 code units is cut to its first 5000 and marked with an
   * ellipsis. A surrogate pair the cut would split is left out whole.
   */
  function Capped(content: string): (r: string)
    ensures Utf16Length(r) <= MaxContentLength + |Ellipsis|
    ensures Utf16Length(content) <= MaxContentLength ==> r == content
    ensures Utf16Length(content) > MaxContentLength ==>
      var kept := |r| - |Ellipsis|;
      && |Ellipsis| <= |r| && r[kept..] == Ellipsis
      && kept < |content| && r[..kept] == content[..kept]
      && MaxContentLength - 1 <= Utf16Length(r[..kept]) <= MaxContentLength
      && Utf16Length(r[..kept]) + CodeUnits(content[kept]) > MaxContentLength
  {
    if Utf16Length(content) > MaxContentLength then
      var p := Utf16Prefix(content, MaxContentLength);
      assert content[..|content|] == content;
      Utf16LengthConcat(p, Ellipsis);
      assert (p + Ellipsis)[..|p|] == p && (p + Ellipsis)[|p|..] == Ellipsis;
      p + Ellipsis
    else content
  }

  /** For text without characters beyond U+FFFF the cap is exactly `substring(0, 5000) + '...'`. */
  lemma CapOfBmpText(content: string)
    requires forall i :: 0 <= i < |content| ==> content[i] as int <= 0xFFFF
    requires |content| > MaxContentLength
    ensures Capped(content) == content[..MaxContentLength] + Ellipsis
  {
    Utf16LengthOfBmp(content);
    Utf16PrefixOfBmp(content, MaxContentLength);
  }

  /** The message the catch block rethrows for a thrown value. */
  function ScrapeFailure(e: Exception): (m: string)
    ensures StartsWith(m, ScrapeErrorPrefix)
    ensures !e.isError ==> m == ScrapeErrorPrefix + "Unknown error"
    ensures e.isError && e.name == "AbortError" ==> m == ScrapeErrorPrefix + "Request timeout after 10 seconds"
    ensures e.isError && e.name != "AbortError" ==> m == ScrapeErrorPrefix + e.message
  {
    var detail :=
      if !e.isError then "Unknown error"
      else if e.name == "AbortError" then "Request timeout after 10 seconds"
      else e.message;
    assert (ScrapeErrorPrefix + detail)[..|ScrapeErrorPrefix|] == ScrapeErrorPrefix;
    ScrapeErrorPrefix + detail
  }

  /** The error `scrapeURL` throws for a response that is not OK. */
  function HttpError(status: nat): Exception {
    Exception(true, "Error", "HTTP error! status: " + DecimalString(status))
  }

  /** `scrapeURL` with the fetch of `url` given as an oracle. */
  method ScrapeUrl(url: string, fetch: string -> FetchOutcome) returns (r: Result<ScrapedContent, string>)
    ensures r.Success? <==> fetch(url).Responded? && IsOkStatus(fetch(url).status)
    ensures r.Success? ==>
      var html := fetch(url).body;
      r.value == ScrapedContent(ExtractTitle(html), Capped(ExtractedText(html)), url)
    ensures r.Success? ==> Utf16Length(r.value.content) <= MaxContentLength + |Ellipsis|
    ensures r.Failure? ==> StartsWith(r.error, ScrapeErrorPrefix)
    ensures fetch(url).Rejected? ==> r == Failure(ScrapeFailure(fetch(url).reason))
    ensures fetch(url).Responded? && !IsOkStatus(fetch(url).status) ==>
      r == Failure(ScrapeErrorPrefix + "HTTP error! status: " + DecimalString(fetch(url).status))
  {
    var response := fetch(url);
    if response.Rejected? {
      return Failure(ScrapeFailure(response.reason));
    }
    if !IsOkStatus(response.status) {
      var e := HttpError(response.status);
      assert |e.name| != |"AbortError"|;
      assert ScrapeFailure(e) == ScrapeErrorPrefix + e.message
        == ScrapeErrorPrefix + "HTTP error! status: " + DecimalString(response.status);
      return Failure(ScrapeFailure(HttpError(response.status)));
    }
    var html := response.body;
    var title := ExtractTitle(html);
    var content := ExtractTextFromHtml(html);
    if Utf16Length(content) > MaxContentLength {
      content := Utf16Prefix(content, MaxContentLength) + Ellipsis;
    }
    return Success(ScrapedContent(title, content, url));
  }

  // ---------------------------------------------------------------------------
  // Lemmas: script and style blocks

  /** Text before the first `<` is never part of a block and is kept as it is. */
  lemma {:induction false} RemoveBlocksKeepsPlainPrefix(a: string, t: string, name: string)
    requires '<' !in a
    ensures RemoveBlocks(a + t, name) == a + RemoveBlocks(t, name)
    decreases |a|
  {
    if a == [] {
      assert a + t == t;
    } else {
      var s := a + t;
      assert s[0] == a[0] && s[1..] == a[1..] + t;
      NoBlockAtPlainChar(s, name);
      assert RemoveBlocks(s, name) == [a[0]] + RemoveBlocks(a[1..] + t, name);
      RemoveBlocksKeepsPlainPrefix(a[1..], t, name);
      ConsAppend(a, RemoveBlocks(t, name));
    }
  }

  /** No block opens at a character other than `<`. */
  lemma NoBlockAtPlainChar(s: string, name: string)
    requires s != [] && s[0] != '<'
    ensures BlockLength(s, name).None?
  {
    var opener := "<" + name;
    assert LowerAscii(s[0]) != LowerAscii(opener[0]);
  }

  /**
   * A block is removed whole, contents included: an opener `<name` in any letter case, not followed
   * by a word character, up to and including the first closer `</name>` in any letter case.
   */
  lemma RemoveBlocksDropsBlock(opener: string, body: string, closer: string, rest: string, name: string)
    requires SameIgnoringCase(opener, "<" + name) && SameIgnoringCase(closer, "</" + name + ">")
    requires body == [] || !IsWordChar(body[0])
    requires forall j :: 0 <= j < |body| ==> !StartsWithIgnoringCase((body + closer + rest)[j..], "</" + name + ">")
    ensures RemoveBlocks(opener + body + closer + rest, name) == RemoveBlocks(rest, name)
  {
    var s := opener + body + closer + rest;
    BlockLengthOfBlock(opener, body, closer, rest, name);
    assert s != [] && s[|opener| + |body| + |closer|..] == rest;
  }

  /** The same, for a block whose contents hold no `<`. */
  lemma RemoveBlocksDropsPlainBlock(opener: string, body: string, closer: string, rest: string, name: string)
    requires SameIgnoringCase(opener, "<" + name) && SameIgnoringCase(closer, "</" + name + ">")
    requires body == [] || !IsWordChar(body[0])
    requires '<' !in body
    ensures RemoveBlocks(opener + body + closer + rest, name) == RemoveBlocks(rest, name)
  {
    var close := "</" + name + ">";
    var after := body + closer + rest;
    forall j | 0 <= j < |body|
      ensures !StartsWithIgnoringCase(after[j..], close)
    {
      assert after[j..][0] == body[j];
      assert LowerAscii(body[j]) != LowerAscii(close[0]);
    }
    RemoveBlocksDropsBlock(opener, body, closer, rest, name);
  }

  lemma BlockLengthOfBlock(opener: string, body: string, closer: string, rest: string, name: string)
    requires SameIgnoringCase(opener, "<" + name) && SameIgnoringCase(closer, "</" + name + ">")
    requires body == [] || !IsWordChar(body[0])
    requires forall j :: 0 <= j < |body| ==> !StartsWithIgnoringCase((body + closer + rest)[j..], "</" + name + ">")
    ensures BlockLength(opener + body + closer + rest, name) == Some(|opener| + |body| + |closer|)
  {
    var after := body + closer + rest;
    var s := opener + body + closer + rest;
    assert s == opener + after;
    OpenerStarts(opener, after, name);
    CloserFound(body, closer, rest, name);
    assert s[|opener|..] == after && s[|opener|] == after[0];
    BlockLengthFrom(s, name, |body|);
  }

  /** `BlockLength` read off its three conditions: an opener, no word character after it, and where the closer is. */
  lemma BlockLengthFrom(s: string, name: string, k: nat)
    requires StartsWithIgnoringCase(s, "<" + name)
    requires |s| > |"<" + name| ==> !IsWordChar(s[|"<" + name|])
    requires IndexOfIgnoringCase(s[|"<" + name|..], "</" + name + ">") == Some(k)
    ensures BlockLength(s, name) == Some(|"<" + name| + k + |"</" + name + ">"|)
  {
  }

  /** After an opener, in any letter case, the text continues with `after`. */
  lemma OpenerStarts(opener: string, after: string, name: string)
    requires SameIgnoringCase(opener, "<" + name)
    ensures StartsWithIgnoringCase(opener + after, "<" + name)
    ensures |opener| == |"<" + name| && (opener + after)[|opener|..] == after
  {
    StartsWithIgnoringCaseOfPrefix(opener, after, "<" + name);
  }

  /** The first closer after a body without one is found right after that body, and it does not start with a word character. */
  lemma CloserFound(body: string, closer: string, rest: string, name: string)
    requires SameIgnoringCase(closer, "</" + name + ">")
    requires body == [] || !IsWordChar(body[0])
    requires forall j :: 0 <= j < |body| ==> !StartsWithIgnoringCase((body + closer + rest)[j..], "</" + name + ">")
    ensures IndexOfIgnoringCase(body + closer + rest, "</" + name + ">") == Some(|body|)
    ensures |closer| == |"</" + name + ">"|
    ensures !IsWordChar((body + closer + rest)[0])
  {
    var after := body + closer + rest;
    var close := "</" + name + ">";
    assert after[|body|..] == closer + rest;
    StartsWithIgnoringCaseOfPrefix(closer, rest, close);
    IndexOfIgnoringCaseAt(after, close, |body|);
    if body == [] {
      assert LowerAscii(closer[0]) == LowerAscii(close[0]) == '<';
      assert after[0] == closer[0];
    } else {
      assert after[0] == body[0];
    }
  }

  /** A character that differs from the opener, in any letter case, means no block opens here. */
  lemma NoBlockAtMismatch(s: string, name: string, k: nat)
    requires 0 < k <= |name| && k < |s| && LowerAscii(s[k]) != LowerAscii(name[k - 1])
    ensures BlockLength(s, name).None?
  {
    var opener := "<" + name;
    assert opener[k] == name[k - 1];
    if |opener| <= |s| {
      assert s[..|opener|][k] == s[k];
      assert !SameIgnoringCase(s[..|opener|], opener);
    }
  }

  /** Where no block opens, the first character is kept and the scan moves on by one. */
  lemma RemoveBlocksKeepsFirst(s: string, name: string, k: nat)
    requires 0 < k <= |name| && k < |s| && LowerAscii(s[k]) != LowerAscii(name[k - 1])
    ensures RemoveBlocks(s, name) == [s[0]] + RemoveBlocks(s[1..], name)
  {
    NoBlockAtMismatch(s, name, k);
  }

  /**
   * One pass is not a fixed point: removing a block that splits another opener in two joins the
   * halves into a new block, which survives, contents and all (for `script`:
   * `<scr<script></script>ipt>x</script>` leaves `<script>x</script>`).
   */
  lemma SplitOpenerSurvives(name: string, front: string, back: string, x: string)
    requires name == front + back && front != [] && back != []
    requires '<' !in name && name[0] != '/' && '<' !in x
    ensures
      var opener := "<" + name;
      var closer := "</" + name + ">";
      var inner := opener + (">" + closer);
      RemoveBlocks("<" + (front + (inner + (back + (">" + (x + closer))))), name)
        == opener + (">" + (x + closer))
  {
    var closer := "</" + name + ">";
    var tail := back + (">" + x);
    Regroup(name, front, back, x, closer);
    SplitOpenerFront(name, front, back, tail + closer);
    SplitOpenerBack(name, tail);
  }

  lemma Regroup(name: string, front: string, back: string, x: string, closer: string)
    requires name == front + back
    ensures back + (">" + (x + closer)) == (back + (">" + x)) + closer
    ensures "<" + (front + ((back + (">" + x)) + closer)) == "<" + name + (">" + (x + closer))
  {
  }

  /** The front half of the split opener is kept as it is. */
  lemma SplitOpenerFront(name: string, front: string, back: string, rest: string)
    requires name == front + back && front != [] && back != [] && '<' !in name
    ensures
      var inner := "<" + name + (">" + ("</" + name + ">"));
      RemoveBlocks("<" + (front + (inner + rest)), name) == "<" + (front + RemoveBlocks(inner + rest, name))
  {
    var inner := "<" + name + (">" + ("</" + name + ">"));
    var s := "<" + (front + (inner + rest));
    assert s[|front| + 1] == inner[0] == '<';
    assert name[|front|] == back[0];
    assert back[0] in name;
    assert s[1..] == front + (inner + rest);
    assert '<' !in front by {
      assert forall i :: 0 <= i < |front| ==> front[i] == name[i];
    }
    // `<` comes where the first character of `back` should, so no block opens at the front
    assert LowerAscii(name[|front|]) != '<';
    RemoveBlocksKeepsFirst(s, name, |front| + 1);
    RemoveBlocksKeepsPlainPrefix(front, inner + rest, name);
  }

  /** The inner block goes, contents and all, and the rest is kept. */
  lemma SplitOpenerBack(name: string, tail: string)
    requires name != [] && '<' !in name && name[0] != '/' && '<' !in tail
    ensures
      var closer := "</" + name + ">";
      var inner := "<" + name + (">" + closer);
      RemoveBlocks(inner + (tail + closer), name) == tail + closer
  {
    var opener := "<" + name;
    var closer := "</" + name + ">";
    var inner := opener + (">" + closer);
    assert inner + (tail + closer) == opener + ">" + closer + (tail + closer);
    RemoveBlocksDropsPlainBlock(opener, ">", closer, tail + closer, name);
    RemoveBlocksKeepsPlainPrefix(tail, closer, name);
    ClosingTagKept(name);
  }

  /** A closing tag on its own opens no block and is kept. */
  lemma ClosingTagKept(name: string)
    requires name != [] && '<' !in name && name[0] != '/'
    ensures RemoveBlocks("</" + name + ">", name) == "</" + name + ">"
  {
    var closer := "</" + name + ">";
    var rest := "/" + name + ">";
    assert closer[1..] == rest + "";
    assert closer == [closer[0]] + (rest + "");
    assert '<' !in rest;
    assert LowerAscii(closer[1]) != LowerAscii(name[0]);
    RemoveBlocksKeepsFirst(closer, name, 1);
    RemoveBlocksKeepsPlainPrefix(rest, "", name);
  }

  // ---------------------------------------------------------------------------
  // Lemmas: tags

  lemma {:induction false} StripTagsKeepsPlainPrefix(a: string, t: string)
    requires '<' !in a
    ensures StripTags(a + t) == a + StripTags(t)
    decreases |a|
  {
    if a == [] {
      assert a + t == t;
    } else {
      assert (a + t)[0] == a[0];
      assert (a + t)[1..] == a[1..] + t;
      StripTagsKeepsPlainPrefix(a[1..], t);
    }
  }

  /** A tag is replaced by one space, not deleted, so the words on either side stay apart. */
  lemma TagBecomesSpace(a: string, inner: string, b: string)
    requires '<' !in a && inner != [] && '>' !in inner
    ensures StripTags(a + "<" + inner + ">" + b) == a + " " + StripTags(b)
  {
    var tag := "<" + inner + ">";
    assert a + "<" + inner + ">" + b == a + (tag + b);
    StripTagsKeepsPlainPrefix(a, tag + b);
    var s := tag + b;
    assert s[1..] == inner + ">" + b;
    assert IndexOfChar(s[1..], '>') == Some(|inner|) by {
      assert s[1..][|inner|] == '>';
    }
    assert TagLength(s) == Some(|inner| + 2);
    assert s[|inner| + 2..] == b;
  }

  /** If no `>` occurs, none appears after stripping either. */
  lemma {:induction false} StripTagsAddsNoCloser(s: string)
    requires '>' !in s
    ensures '>' !in StripTags(s)
  {
  }

  /** Stripping leaves no tag behind. */
  lemma {:induction false} StripTagsIsTagFree(s: string)
    ensures TagFree(StripTags(s))
    decreases |s|
  {
    if s != [] {
      match TagLength(s)
      case Some(n) =>
        StripTagsIsTagFree(s[n..]);
        var r := [' '] + StripTags(s[n..]);
        assert r[1..] == StripTags(s[n..]);
      case None =>
        StripTagsIsTagFree(s[1..]);
        var x := StripTags(s[1..]);
        var r := [s[0]] + x;
        assert r[1..] == x;
        if |s| >= 2 && s[0] == '<' && s[1] != '>' {
          assert '>' !in s[1..];
          StripTagsAddsNoCloser(s[1..]);
          assert '>' !in r[1..];
        } else if |s| >= 2 && s[0] == '<' {
          assert TagLength(s[1..]).None?;
          assert r[1] == '>';
        }
    }
  }

  /** Text without tags passes through unchanged. */
  lemma {:induction false} StripTagsFixesTagFree(s: string)
    requires TagFree(s)
    ensures StripTags(s) == s
    decreases |s|
  {
    if s != [] {
      StripTagsFixesTagFree(s[1..]);
    }
  }

  /** Stripping tags twice is stripping them once. */
  lemma StripTagsIdempotent(s: string)
    ensures StripTags(StripTags(s)) == StripTags(s)
  {
    StripTagsIsTagFree(s);
    StripTagsFixesTagFree(StripTags(s));
  }

  // ---------------------------------------------------------------------------
  // Lemmas: entities

  /** Text without `&` is not touched by entity decoding. */
  lemma DecodeWithoutAmpersand(s: string)
    requires '&' !in s
    ensures DecodeEntities(s) == s
  {
    MissingCharMeansAbsent(s, "&nbsp;", '&');
    ReplaceAbsentIsIdentity(s, "&nbsp;", " ");
    MissingCharMeansAbsent(s, "&amp;", '&');
    ReplaceAbsentIsIdentity(s, "&amp;", "&");
    MissingCharMeansAbsent(s, "&lt;", '&');
    ReplaceAbsentIsIdentity(s, "&lt;", "<");
    MissingCharMeansAbsent(s, "&gt;", '&');
    ReplaceAbsentIsIdentity(s, "&gt;", ">");
    MissingCharMeansAbsent(s, "&quot;", '&');
    ReplaceAbsentIsIdentity(s, "&quot;", "\"");
    MissingCharMeansAbsent(s, "&#39;", '&');
    ReplaceAbsentIsIdentity(s, "&#39;", "'");
  }

  /**
   * After decoding, none of `&lt;`, `&gt;`, `&quot;`, `&#39;` is left: each is replaced by a
   * character foreign to itself and to those decoded before it, and no later pass can rebuild one.
   */
  lemma DecodedHasNoLateEntities(s: string)
    ensures var d := DecodeEntities(s);
      !Occurs(d, "&lt;") && !Occurs(d, "&gt;") && !Occurs(d, "&quot;") && !Occurs(d, "&#39;")
  {
    var s1 := ReplaceAll(s, "&nbsp;", " ");
    var s2 := ReplaceAll(s1, "&amp;", "&");
    var s3 := ReplaceAll(s2, "&lt;", "<");
    var s4 := ReplaceAll(s3, "&gt;", ">");
    var s5 := ReplaceAll(s4, "&quot;", "\"");
    var d := ReplaceAll(s5, "&#39;", "'");
    ReplaceLeavesNoOccurrence(s2, "&lt;", "&lt;", "<");
    ReplaceLeavesNoOccurrence(s3, "&lt;", "&gt;", ">");
    ReplaceLeavesNoOccurrence(s4, "&lt;", "&quot;", "\"");
    ReplaceLeavesNoOccurrence(s5, "&lt;", "&#39;", "'");
    ReplaceLeavesNoOccurrence(s3, "&gt;", "&gt;", ">");
    ReplaceLeavesNoOccurrence(s4, "&gt;", "&quot;", "\"");
    ReplaceLeavesNoOccurrence(s5, "&gt;", "&#39;", "'");
    ReplaceLeavesNoOccurrence(s4, "&quot;", "&quot;", "\"");
    ReplaceLeavesNoOccurrence(s5, "&quot;", "&#39;", "'");
    ReplaceLeavesNoOccurrence(s5, "&#39;", "&#39;", "'");
  }

  /** The last four passes, from `&lt;` on. */
  lemma DecodeFromSecondPass(s: string, s2: string)
    requires ReplaceAll(ReplaceAll(s, "&nbsp;", " "), "&amp;", "&") == s2
    ensures DecodeEntities(s) ==
      ReplaceAll(ReplaceAll(ReplaceAll(ReplaceAll(s2, "&lt;", "<"), "&gt;", ">"), "&quot;", "\""), "&#39;", "'")
  {
  }

  /** `&lt;` followed by text without `&` decodes to `<` and that text. */
  lemma DecodeLessThan(t: string)
    requires '&' !in t
    ensures DecodeEntities("&lt;" + t) == "<" + t
  {
    var s := "&lt;" + t;
    assert s[1..] == "lt;" + t;
    assert '&' !in s[1..];
    MismatchAt(s, "&nbsp;", 1);
    ReplaceMissesLoneStart(s, "&nbsp;", " ");
    MismatchAt(s, "&amp;", 1);
    ReplaceMissesLoneStart(s, "&amp;", "&");
    DecodeFromSecondPass(s, s);
    ReplaceHitsPrefix(t, "&lt;", "<");
    ReplaceMissingIsIdentity(t, "&lt;", "<", '&');
    ReplaceMissingIsIdentity("<" + t, "&gt;", ">", '&');
    ReplaceMissingIsIdentity("<" + t, "&quot;", "\"", '&');
    ReplaceMissingIsIdentity("<" + t, "&#39;", "'", '&');
  }

  /** What the first two passes make of `&amp;` followed by text without `&`: a lone `&`. */
  lemma FirstPassesOfDoubleEncoded(t: string)
    requires '&' !in t
    ensures ReplaceAll(ReplaceAll("&amp;" + t, "&nbsp;", " "), "&amp;", "&") == "&" + t
  {
    var s := "&amp;" + t;
    assert ReplaceAll(s, "&nbsp;", " ") == s by {
      assert s[1..] == "amp;" + t;
      assert '&' !in s[1..];
      MismatchAt(s, "&nbsp;", 1);
      ReplaceMissesLoneStart(s, "&nbsp;", " ");
    }
    assert ReplaceAll(s, "&amp;", "&") == "&" + t by {
      ReplaceHitsPrefix(t, "&amp;", "&");
      ReplaceMissingIsIdentity(t, "&amp;", "&", '&');
    }
  }

  /**
   * `&amp;` is decoded before `&lt;`, `&gt;`, `&quot;` and `&#39;`, so a double-encoded one of
   * these decodes all the way: `&amp;lt;` becomes `<`, not `&lt;`.
   */
  lemma DoubleEncodedDecodesFully(t: string)
    requires '&' !in t && !StartsWith(t, "nbsp;") && !StartsWith(t, "amp;")
    ensures DecodeEntities("&amp;" + t) == DecodeEntities("&" + t)
  {
    var s := "&" + t;
    assert s[1..] == t && s[0] == '&';
    assert "&nbsp;"[1..] == "nbsp;" && "&amp;"[1..] == "amp;";
    StartsWithAfterFirst(s, "&nbsp;");
    StartsWithAfterFirst(s, "&amp;");
    ReplaceMissesLoneStart(s, "&nbsp;", " ");
    ReplaceMissesLoneStart(s, "&amp;", "&");
    FirstPassesOfDoubleEncoded(t);
    DecodeFromSecondPass("&amp;" + t, s);
    DecodeFromSecondPass(s, s);
  }

  /** The instance of `DoubleEncodedDecodesFully` for `&lt;`. */
  lemma DoubleEncodedLessThan(t: string)
    requires '&' !in t
    ensures DecodeEntities("&amp;lt;" + t) == "<" + t
  {
    var u := "lt;" + t;
    assert '&' !in u;
    MismatchAt(u, "nbsp;", 0);
    MismatchAt(u, "amp;", 0);
    DoubleEncodedDecodesFully(u);
    assert "&amp;" + u == "&amp;lt;" + t;
    assert "&" + u == "&lt;" + t;
    DecodeLessThan(t);
  }

  /** `&nbsp;` is decoded before `&amp;`, so a double-encoded `&amp;nbsp;` keeps an `&nbsp;`. */
  lemma DoubleEncodedSpaceSurvives(t: string)
    requires '&' !in t
    ensures DecodeEntities("&amp;nbsp;" + t) == "&nbsp;" + t
  {
    var u := "nbsp;" + t;
    var s := "&" + u;
    assert '&' !in u;
    assert "&amp;" + u == "&amp;nbsp;" + t;
    assert s == "&nbsp;" + t;
    FirstPassesOfDoubleEncoded(u);
    DecodeFromSecondPass("&amp;" + u, s);
    assert s[1..] == u;
    MismatchAt(s, "&lt;", 1);
    ReplaceMissesLoneStart(s, "&lt;", "<");
    MismatchAt(s, "&gt;", 1);
    ReplaceMissesLoneStart(s, "&gt;", ">");
    MismatchAt(s, "&quot;", 1);
    ReplaceMissesLoneStart(s, "&quot;", "\"");
    MismatchAt(s, "&#39;", 1);
    ReplaceMissesLoneStart(s, "&#39;", "'");
  }

  /** Only one level of `&amp;` is decoded: `&amp;amp;` becomes `&amp;`. */
  lemma DoubleEncodedAmpersandDecodesOnce(t: string)
    requires '&' !in t
    ensures DecodeEntities("&amp;amp;" + t) == "&amp;" + t
  {
    var u := "amp;" + t;
    var s := "&" + u;
    assert '&' !in u;
    assert "&amp;" + u == "&amp;amp;" + t;
    assert s == "&amp;" + t;
    FirstPassesOfDoubleEncoded(u);
    DecodeFromSecondPass("&amp;" + u, s);
    assert s[1..] == u;
    MismatchAt(s, "&lt;", 1);
    ReplaceMissesLoneStart(s, "&lt;", "<");
    MismatchAt(s, "&gt;", 1);
    ReplaceMissesLoneStart(s, "&gt;", ">");
    MismatchAt(s, "&quot;", 1);
    ReplaceMissesLoneStart(s, "&quot;", "\"");
    MismatchAt(s, "&#39;", 1);
    ReplaceMissesLoneStart(s, "&#39;", "'");
  }

  /** Text without `<` holds neither blocks nor tags: only its entities and white space change. */
  lemma ExtractedPlainText(s: string)
    requires '<' !in s
    ensures ExtractedText(s) == Normalize(DecodeEntities(s))
  {
    assert s + "" == s;
    RemoveBlocksKeepsPlainPrefix(s, "", "script");
    RemoveBlocksKeepsPlainPrefix(s, "", "style");
    StripTagsKeepsPlainPrefix(s, "");
  }

  /**
   * Entities are decoded after tags are stripped, so escaped markup comes out as markup:
   * `&lt;b>` is extracted as `<b>`.
   */
  lemma EscapedTagSurvives(t: string)
    requires '&' !in t && '<' !in t
    ensures ExtractedText("&lt;" + t) == Normalize("<" + t)
  {
    assert '<' !in "&lt;" + t;
    ExtractedPlainText("&lt;" + t);
    DecodeLessThan(t);
  }

  /** A pass for an entity other than `&lt;` and `&gt;` does not touch an escaped tag. */
  lemma PassMissesEscapedTag(t: string, p: string, rep: string)
    requires '&' !in t && |p| >= 5 && p[0] == '&' && p[1] != 'l' && p[1] != 'g'
    ensures ReplaceAll("&lt;" + (t + "&gt;"), p, rep) == "&lt;" + (t + "&gt;")
  {
    var s := "&lt;" + (t + "&gt;");
    var front := "lt;" + t;
    assert s[1..] == front + "&gt;";
    assert '&' !in front;
    MismatchAt(s, p, 1);
    ReplaceSkipsForeignPrefix(front, "&gt;", p, rep);
    ReplaceMissesLoneStart("&gt;", p, rep);
    assert s == [s[0]] + (front + "&gt;");
  }

  /** `&lt;` and `&gt;` around text without `&` decode to the angle brackets. */
  lemma DecodeEscapedTag(t: string)
    requires '&' !in t
    ensures DecodeEntities("&lt;" + (t + "&gt;")) == "<" + t + ">"
  {
    var s := "&lt;" + (t + "&gt;");
    PassMissesEscapedTag(t, "&nbsp;", " ");
    PassMissesEscapedTag(t, "&amp;", "&");
    DecodeFromSecondPass(s, s);
    LessThanPassOfEscapedTag(t);
    GreaterThanPassOfEscapedTag(t);
    var s4 := "<" + t + ">";
    ReplaceMissingIsIdentity(s4, "&quot;", "\"", '&');
    ReplaceMissingIsIdentity(s4, "&#39;", "'", '&');
  }

  lemma LessThanPassOfEscapedTag(t: string)
    requires '&' !in t
    ensures ReplaceAll("&lt;" + (t + "&gt;"), "&lt;", "<") == "<" + (t + "&gt;")
  {
    ReplaceHitsPrefix(t + "&gt;", "&lt;", "<");
    ReplaceSkipsForeignPrefix(t, "&gt;", "&lt;", "<");
    MismatchAt("&gt;", "&lt;", 1);
    ReplaceMissesLoneStart("&gt;", "&lt;", "<");
  }

  lemma GreaterThanPassOfEscapedTag(t: string)
    requires '&' !in t
    ensures ReplaceAll("<" + (t + "&gt;"), "&gt;", ">") == "<" + t + ">"
  {
    var a := "<" + t;
    assert "<" + (t + "&gt;") == a + "&gt;";
    assert '&' !in a;
    ReplaceSkipsForeignPrefix(a, "&gt;", "&gt;", ">");
    assert "&gt;" + "" == "&gt;";
    ReplaceHitsPrefix("", "&gt;", ">");
  }

  /**
   * The escaped form of a whole tag, `&lt;b&gt;`, is extracted as the tag `<b>` itself:
   * tags are stripped before entities are decoded.
   */
  lemma EscapedMarkupSurvives(t: string)
    requires '&' !in t && '<' !in t
    ensures ExtractedText("&lt;" + (t + "&gt;")) == Normalize("<" + t + ">")
  {
    assert '<' !in "&lt;" + (t + "&gt;");
    ExtractedPlainText("&lt;" + (t + "&gt;"));
    DecodeEscapedTag(t);
  }

  // ---------------------------------------------------------------------------
  // Lemmas: titles

  /**
   * An element matches where it starts: an opener `<name` in any letter case, attributes without
   * `>`, the `>`, a nonempty text without `<` and the closer `</name>` in any letter case.
   */
  lemma ElementAtFindsElement(opener: string, attrs: string, c: string, closer: string, rest: string, name: string)
    requires SameIgnoringCase(opener, "<" + name) && SameIgnoringCase(closer, "</" + name + ">")
    requires '>' !in attrs && c != [] && '<' !in c
    ensures ElementAt(opener + (attrs + (">" + (c + (closer + rest)))), name) == Some(c)
  {
    var t := attrs + (">" + (c + (closer + rest)));
    assert (opener + t)[..|opener|] == opener && (opener + t)[|opener|..] == t;
    ElementAfterAttributes(attrs, c + (closer + rest), name);
    ElementTextFindsText(c, closer, rest, name);
  }

  lemma ElementAfterAttributes(attrs: string, u: string, name: string)
    requires '>' !in attrs
    ensures ElementAfterOpener(attrs + (">" + u), name) == ElementText(u, name)
  {
    assert attrs + (">" + u) == attrs + [('>')] + u;
    IndexOfCharAfter(attrs, '>', u);
    assert (attrs + [('>')] + u)[|attrs| + 1..] == u;
  }

  lemma ElementTextFindsText(c: string, closer: string, rest: string, name: string)
    requires SameIgnoringCase(closer, "</" + name + ">") && c != [] && '<' !in c
    ensures ElementText(c + (closer + rest), name) == Some(c)
  {
    assert LowerAscii(closer[0]) == LowerAscii(("</" + name + ">")[0]);
    var u := c + (closer + rest);
    assert u == c + [('<')] + (closer[1..] + rest);
    IndexOfCharAfter(c, '<', closer[1..] + rest);
    assert u[|c|..] == closer + rest && (closer + rest)[..|closer|] == closer;
    assert u[..|c|] == c;
  }

  /** And every match has that shape. */
  lemma ElementAtHasShape(s: string, name: string) returns (opener: string, attrs: string, closer: string, rest: string)
    requires ElementAt(s, name).Some?
    ensures var c := ElementAt(s, name).value;
      s == opener + (attrs + (">" + (c + (closer + rest))))
      && SameIgnoringCase(opener, "<" + name) && SameIgnoringCase(closer, "</" + name + ">")
      && '>' !in attrs
  {
    var n := |name| + 1;
    opener := s[..n];
    var u;
    attrs, u := ElementAfterOpenerHasShape(s[n..], name);
    closer, rest := ElementTextHasShape(u, name);
    assert s == opener + s[n..];
  }

  lemma ElementAfterOpenerHasShape(t: string, name: string) returns (attrs: string, u: string)
    requires ElementAfterOpener(t, name).Some?
    ensures t == attrs + (">" + u) && '>' !in attrs
    ensures ElementAfterOpener(t, name) == ElementText(u, name)
  {
    var k := IndexOfChar(t, '>').value;
    attrs, u := t[..k], t[k + 1..];
    assert '>' !in attrs by {
      forall j | 0 <= j < k ensures attrs[j] != '>' { assert attrs[j] == t[j]; }
    }
    assert t == attrs + (">" + u);
  }

  lemma ElementTextHasShape(u: string, name: string) returns (closer: string, rest: string)
    requires ElementText(u, name).Some?
    ensures u == ElementText(u, name).value + (closer + rest)
    ensures SameIgnoringCase(closer, "</" + name + ">")
  {
    var m := IndexOfChar(u, '<').value;
    var len := |name| + 3;
    closer, rest := u[m..][..len], u[m..][len..];
    assert u == u[..m] + (closer + rest);
  }

  /** `FirstElement` finds the leftmost position where an element matches, and none only when none does. */
  lemma {:induction false} FirstElementIsLeftmost(s: string, name: string) returns (i: nat)
    ensures FirstElement(s, name).Some? ==>
      i < |s| && ElementAt(s[i..], name) == FirstElement(s, name)
      && forall j :: 0 <= j < i ==> ElementAt(s[j..], name).None?
    ensures FirstElement(s, name).None? <==> forall j :: 0 <= j < |s| ==> ElementAt(s[j..], name).None?
    decreases |s|
  {
    if s == [] {
      return 0;
    }
    assert s[0..] == s;
    if ElementAt(s, name).Some? {
      return 0;
    }
    var k := FirstElementIsLeftmost(s[1..], name);
    i := k + 1;
    forall j | 1 <= j < |s| ensures ElementAt(s[j..], name) == ElementAt(s[1..][j - 1..], name) {
      assert s[j..] == s[1..][j - 1..];
    }
  }

  /** Conversely, the leftmost position where an element matches is the one `FirstElement` reports. */
  lemma FirstElementAtLeftmost(s: string, name: string, i: nat)
    requires i < |s| && ElementAt(s[i..], name).Some?
    requires forall j :: 0 <= j < i ==> ElementAt(s[j..], name).None?
    ensures FirstElement(s, name) == ElementAt(s[i..], name)
  {
    var k := FirstElementIsLeftmost(s, name);
  }

  /** Wherever the leftmost title element of a page sits, the title is its text trimmed. */
  lemma TitleOfLeftmostElement(html: string, i: nat)
    requires i < |html| && ElementAt(html[i..], "title").Some?
    requires forall j :: 0 <= j < i ==> ElementAt(html[j..], "title").None?
    ensures ExtractTitle(html) == Trim(ElementAt(html[i..], "title").value)
  {
    FirstElementAtLeftmost(html, "title", i);
  }

  /** A page without `<` has neither a `<title>` nor an `<h1>`. */
  lemma {:induction false} NoElementWithoutMarkup(s: string, name: string)
    requires '<' !in s
    ensures FirstElement(s, name).None?
    decreases |s|
  {
    if s != [] {
      assert s[0] != '<';
      assert LowerAscii(s[0]) != LowerAscii(("<" + name)[0]);
      NoElementWithoutMarkup(s[1..], name);
    }
  }

  /** ... so its title is "Untitled". */
  lemma PlainPageIsUntitled(html: string)
    requires '<' !in html
    ensures ExtractTitle(html) == "Untitled"
  {
    NoElementWithoutMarkup(html, "title");
    NoElementWithoutMarkup(html, "h1");
  }

  /** A title element at the front gives its text trimmed, with entities left as written. */
  lemma TitleTextIsOnlyTrimmed(c: string, rest: string)
    requires c != [] && '<' !in c
    ensures ExtractTitle("<title>" + (c + ("</title>" + rest))) == Trim(c)
  {
    var s := "<title>" + (c + ("</title>" + rest));
    assert s == "<title" + ("" + (">" + (c + ("</title>" + rest))));
    ElementAtFindsElement("<title", "", c, "</title>", rest, "title");
  }

  /** A title of white space only is the empty title, not "Untitled". */
  lemma BlankTitleIsEmpty(c: string, rest: string)
    requires c != [] && AllSpace(c)
    ensures ExtractTitle("<title>" + (c + ("</title>" + rest))) == ""
  {
    assert '<' !in c by {
      assert !IsSpace('<');
      assert forall i :: 0 <= i < |c| ==> IsSpace(c[i]);
    }
    TitleTextIsOnlyTrimmed(c, rest);
    TrimAllSpace(c);
  }

  /** Without any title element, an `<h1>` at the front gives its text run through the full text extraction. */
  lemma HeadingTitleIsExtracted(c: string, rest: string)
    requires c != [] && '<' !in c && FirstElement("<h1>" + (c + ("</h1>" + rest)), "title").None?
    ensures ExtractTitle("<h1>" + (c + ("</h1>" + rest))) == ExtractedText(c)
  {
    var s := "<h1>" + (c + ("</h1>" + rest));
    assert s == "<h1" + ("" + (">" + (c + ("</h1>" + rest))));
    ElementAtFindsElement("<h1", "", c, "</h1>", rest, "h1");
  }

  /** Text that is already trimmed and single-spaced is not changed by the white-space passes. */
  lemma NormalizeFixesClean(s: string)
    requires IsTrimmed(s) && SingleSpaced(s)
    ensures Normalize(s) == s
  {
    CollapseFixesSingleSpaced(s);
    TrimmedIsFixed(s);
  }
}
