/**
 * The stock-image lookup (lib/unsplash.ts): one random-photo request per query, where every
 * failure (no access key, a non-2xx status, a thrown error) becomes no image, and a batch that
 * looks each query up in order. The HTTP call and the JSON body reader are one oracle.
 */
module ImageLookup {
  import opened Wrappers
  import opened Js
  import opened Text

  // ---------------------------------------------------------------------------
  // encodeURIComponent

  /** The characters `encodeURIComponent` leaves as they are. */
  predicate Unreserved(c: char) {
    ('A' <= c <= 'Z') || ('a' <= c <= 'z') || ('0' <= c <= '9')
    || c == '-' || c == '_' || c == '.' || c == '!' || c == '~' || c == '*' || c == '\'' || c == '(' || c == ')'
  }

  function HexDigit(d: nat): (c: char)
    requires d < 16
    ensures Unreserved(c)
  {
    if d < 10 then ('0' as int + d) as char else ('A' as int + d - 10) as char
  }

  /** `%XX`, the escape of one byte, in upper-case hexadecimal. */
  function Escape(b: nat): (r: string)
    requires b < 256
    ensures |r| == 3 && r[0] == '%' && Unreserved(r[1]) && Unreserved(r[2])
  {
    ['%', HexDigit(b / 16), HexDigit(b % 16)]
  }

  /** The UTF-8 bytes of a character. */
  function Utf8(c: char): (bytes: seq<nat>)
    ensures 1 <= |bytes| <= 4
    ensures forall i :: 0 <= i < |bytes| ==> bytes[i] < 256
    ensures (c as int < 0x80) <==> |bytes| == 1
    ensures |bytes| == 1 ==> bytes[0] == c as int
  {
    var n := c as int;
    if n < 0x80 then [n]
    else if n < 0x800 then [0xC0 + n / 0x40, 0x80 + n % 0x40]
    else if n < 0x1_0000 then [0xE0 + n / 0x1000, 0x80 + (n / 0x40) % 0x40, 0x80 + n % 0x40]
    else [0xF0 + n / 0x4_0000, 0x80 + (n / 0x1000) % 0x40, 0x80 + (n / 0x40) % 0x40, 0x80 + n % 0x40]
  }

  /** The escapes of a byte sequence, one after the other. */
  function EscapeBytes(bytes: seq<nat>): (r: string)
    requires forall i :: 0 <= i < |bytes| ==> bytes[i] < 256
    ensures |r| == 3 * |bytes|
    ensures forall i :: 0 <= i < |r| ==> Unreserved(r[i]) || r[i] == '%'
  {
    if bytes == [] then [] else Escape(bytes[0]) + EscapeBytes(bytes[1..])
  }

  /** One character encoded: unreserved characters stay, every other one becomes the escapes of its UTF-8 bytes. */
  function EncodeChar(c: char): (r: string)
    ensures Unreserved(c) ==> r == [c]
    ensures !Unreserved(c) ==> r != [] && r[0] == '%' && |r| % 3 == 0
    ensures forall i :: 0 <= i < |r| ==> Unreserved(r[i]) || r[i] == '%'
  {
    if Unreserved(c) then [c] else EscapeBytes(Utf8(c))
  }

  /** `encodeURIComponent(s)`. Characters are Unicode scalar values, so the lone-surrogate error cannot arise. */
  function EncodeURIComponent(s: string): (r: string)
    ensures |s| <= |r| <= 12 * |s|
    ensures forall i :: 0 <= i < |r| ==> Unreserved(r[i]) || r[i] == '%'
  {
    if s == [] then [] else EncodeChar(s[0]) + EncodeURIComponent(s[1..])
  }

  /** The separators of a query string are escaped: a space, `&`, `=` and `#` become `%20`, `%26`, `%3D` and `%23`. */
  lemma SeparatorsAreEscaped()
    ensures EncodeChar(' ') == "%20" && EncodeChar('&') == "%26"
    ensures EncodeChar('=') == "%3D" && EncodeChar('#') == "%23"
  {
    assert Utf8(' ') == [32] && Utf8('&') == [38] && Utf8('=') == [61] && Utf8('#') == [35];
  }

  /** Text made of unreserved characters is passed through unchanged. */
  lemma {:induction false} EncodeKeepsUnreserved(s: string)
    requires forall i :: 0 <= i < |s| ==> Unreserved(s[i])
    ensures EncodeURIComponent(s) == s
    decreases |s|
  {
    if s != [] {
      EncodeKeepsUnreserved(s[1..]);
      assert [s[0]] + s[1..] == s;
    }
  }

  /** Encoding works character by character, so it distributes over concatenation. */
  lemma {:induction false} EncodeConcat(a: string, b: string)
    ensures EncodeURIComponent(a + b) == EncodeURIComponent(a) + EncodeURIComponent(b)
    decreases |a|
  {
    if a != [] {
      assert (a + b)[1..] == a[1..] + b;
      EncodeConcat(a[1..], b);
    } else {
      assert a + b == b;
    }
  }

  // ---------------------------------------------------------------------------
  // The request

  const SearchEndpoint := "https://api.unsplash.com/photos/random?query="
  const Orientation := "orientation=landscape"

  /** The one request made: the URL with the encoded query, and the `Authorization` header. */
  datatype ImageRequest = ImageRequest(url: string, authorization: string)

  function SearchRequest(query: string, accessKey: string): (req: ImageRequest)
    ensures StartsWith(req.url, SearchEndpoint)
    ensures req.authorization == "Client-ID " + accessKey
  {
    var url := SearchEndpoint + EncodeURIComponent(query) + "&" + Orientation;
    assert url[..|SearchEndpoint|] == SearchEndpoint;
    ImageRequest(url, "Client-ID " + accessKey)
  }

  /** The query parameter of the request URL runs to the first `&` and is exactly the encoded query, whatever the query holds. */
  lemma QueryParameterIsEncodedQuery(query: string, accessKey: string)
    ensures var url := SearchRequest(query, accessKey).url;
      var tail := url[|SearchEndpoint|..];
      var enc := EncodeURIComponent(query);
      IndexOfChar(tail, '&') == Some(|enc|) && tail == enc + "&" + Orientation
  {
    var enc := EncodeURIComponent(query);
    assert '&' !in enc by {
      forall i | 0 <= i < |enc| ensures enc[i] != '&' {
        assert Unreserved(enc[i]) || enc[i] == '%';
      }
    }
    TailAfterEndpoint(enc);
    IndexOfCharAfter(enc, '&', Orientation);
  }

  lemma TailAfterEndpoint(enc: string)
    ensures (SearchEndpoint + enc + "&" + Orientation)[|SearchEndpoint|..] == enc + "&" + Orientation
  {
    assert SearchEndpoint + enc + "&" + Orientation == SearchEndpoint + (enc + "&" + Orientation);
  }

  // ---------------------------------------------------------------------------
  // The lookup

  /** The parts of a random-photo body the lookup reads: `urls`, and `regular` inside it. */
  datatype PhotoUrls = PhotoUrls(regular: Option<string>)
  datatype PhotoBody = PhotoBody(urls: Option<PhotoUrls>)

  /** What a request yields: a status and the result of reading the body as JSON, or a thrown value. */
  datatype HttpOutcome = Responded(status: nat, body: Result<PhotoBody, Exception>) | Rejected(reason: Exception)

  /** `fetchUnsplashImage(query)` under the configured access key, with the request as an oracle. */
  function FetchImage(query: string, accessKey: string, http: ImageRequest -> HttpOutcome): (r: Option<string>)
    ensures accessKey == "" ==> r.None?
    ensures r.Some? <==>
      accessKey != "" && var reply := http(SearchRequest(query, accessKey));
      reply.Responded? && IsOkStatus(reply.status) && reply.body.Success?
      && reply.body.value.urls.Some? && reply.body.value.urls.value.regular.Some?
    ensures r.Some? ==> r == http(SearchRequest(query, accessKey)).body.value.urls.value.regular
  {
    if accessKey == "" then None
    else
      match http(SearchRequest(query, accessKey))
      case Rejected(_) => None
      case Responded(status, body) =>
        if !IsOkStatus(status) then None
        else
          match body
          case Failure(_) => None
          case Success(data) =>
            match data.urls
            case None => None
            case Some(urls) => urls.regular
  }

  /** Without an access key no request is made: the result does not depend on the network at all. */
  lemma NoKeyMakesNoRequest(query: string, http1: ImageRequest -> HttpOutcome, http2: ImageRequest -> HttpOutcome)
    ensures FetchImage(query, "", http1) == FetchImage(query, "", http2) == None
  {
  }

  /** With a key, the result depends only on the reply to this query's request. */
  lemma LookupReadsOnlyItsReply(query: string, accessKey: string, http1: ImageRequest -> HttpOutcome, http2: ImageRequest -> HttpOutcome)
    requires http1(SearchRequest(query, accessKey)) == http2(SearchRequest(query, accessKey))
    ensures FetchImage(query, accessKey, http1) == FetchImage(query, accessKey, http2)
  {
  }

  /** `fetchMultipleUnsplashImages`: the lookups of all queries, in order. */
  function FetchImages(queries: seq<string>, accessKey: string, http: ImageRequest -> HttpOutcome): (r: seq<Option<string>>)
    ensures |r| == |queries|
    ensures forall i :: 0 <= i < |queries| ==> r[i] == FetchImage(queries[i], accessKey, http)
    decreases |queries|
  {
    if queries == [] then []
    else [FetchImage(queries[0], accessKey, http)] + FetchImages(queries[1..], accessKey, http)
  }

  /** A batch of two lists is the batch of each, one after the other. */
  lemma BatchConcat(a: seq<string>, b: seq<string>, accessKey: string, http: ImageRequest -> HttpOutcome)
    ensures FetchImages(a + b, accessKey, http) == FetchImages(a, accessKey, http) + FetchImages(b, accessKey, http)
  {
    var whole := FetchImages(a + b, accessKey, http);
    var parts := FetchImages(a, accessKey, http) + FetchImages(b, accessKey, http);
    forall i | 0 <= i < |whole| ensures whole[i] == parts[i] {
      if i < |a| { assert (a + b)[i] == a[i]; } else { assert (a + b)[i] == b[i - |a|]; }
    }
  }
}
