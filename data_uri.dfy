/**
 * The banner-image route (`GET /api/image`): it asks the image-generation
 * flow for a `data:` URL (RFC 2397), checks that it names an image, cuts the
 * MIME type and the Base64 payload out of it with `indexOf`/`substring`, and
 * answers either with the decoded image or with a fixed placeholder SVG.
 */
module DataUri {
  import opened EcmaString

  /** What a generated URL must start with to be served as an image. */
  const ImagePrefix := "data:image/"

  /** The `Cache-Control` value of a successful response. */
  const NoCache := "no-cache, no-store, must-revalidate"

  /** The placeholder served when generation fails. */
  const PlaceholderSvg := "<svg xmlns=\"http://www.w3.org/2000/svg\" width=\"600\" height=\"240\" viewBox=\"0 0 600 240\"><rect width=\"600\" height=\"240\" fill=\"#e2e8f0\"/><text x=\"50%\" y=\"50%\" dominant-baseline=\"middle\" text-anchor=\"middle\" font-family=\"sans-serif\" font-size=\"20\" fill=\"#94a3b8\">Error generating image</text></svg>"

  /** What the image-generation flow hands back: a URL, or a thrown error. */
  datatype Generation = Generated(url: string) | GenerationFailed

  /**
   * A response body. `Base64Bytes(text)` stands for the bytes Node's lenient
   * Base64 decoder makes of `text`; the decoding itself is not modelled.
   */
  datatype Body = Base64Bytes(text: string) | Utf8Text(text: string)

  datatype Response = Response(status: int, headers: map<string, string>, body: Body)

  /** The MIME type: the text between the first `:` and the first `;`. */
  function MimeType(url: string): (m: string)
    ensures |m| <= |url|
    ensures 0 <= IndexOf(url, ':') < IndexOf(url, ';') ==>
      m == url[IndexOf(url, ':') + 1 .. IndexOf(url, ';')] && ';' !in m
  {
    Substring(url, IndexOf(url, ':') + 1, IndexOf(url, ';'))
  }

  /** The payload: the text after the first `,` (the whole URL when there is none). */
  function Payload(url: string): (p: string)
    ensures ',' !in url ==> p == url
    ensures ',' in url ==>
      && |p| < |url| && p == url[|url| - |p|..]
      && url[|url| - |p| - 1] == ',' && ',' !in url[..|url| - |p| - 1]
  {
    SubstringFrom(url, IndexOf(url, ',') + 1)
  }

  /** HTTP whitespace: what `Headers` strips from both ends of a value. */
  predicate HttpWhitespace(c: char)
  {
    c == ' ' || c == '\t' || c == '\r' || c == '\n'
  }

  /** How many HTTP whitespace characters `v` starts with. */
  function LeadingWhitespace(v: string): (n: nat)
    ensures n <= |v|
    ensures forall k :: 0 <= k < n ==> HttpWhitespace(v[k])
    ensures n < |v| ==> !HttpWhitespace(v[n])
  {
    if v != [] && HttpWhitespace(v[0]) then 1 + LeadingWhitespace(v[1..]) else 0
  }

  /** How many HTTP whitespace characters `v` ends with. */
  function TrailingWhitespace(v: string): (n: nat)
    ensures n <= |v|
    ensures forall k :: |v| - n <= k < |v| ==> HttpWhitespace(v[k])
    ensures n < |v| ==> !HttpWhitespace(v[|v| - n - 1])
  {
    if v != [] && HttpWhitespace(v[|v| - 1]) then 1 + TrailingWhitespace(v[..|v| - 1]) else 0
  }

  /**
   * The value `Headers` stores: `v` with the HTTP whitespace at both ends
   * stripped and nothing else changed; a value that neither starts nor ends
   * with whitespace is kept as it is.
   */
  function Normalize(v: string): (r: string)
    ensures |r| <= |v|
    ensures var s := LeadingWhitespace(v);
      && s + |r| <= |v| && r == v[s..s + |r|]
      && forall k :: 0 <= k < |v| && (k < s || s + |r| <= k) ==> HttpWhitespace(v[k])
    ensures r != [] ==> !HttpWhitespace(r[0]) && !HttpWhitespace(r[|r| - 1])
    ensures v == [] || (!HttpWhitespace(v[0]) && !HttpWhitespace(v[|v| - 1])) ==> r == v
  {
    var s := LeadingWhitespace(v);
    var e := TrailingWhitespace(v[s..]);
    StripCounts(v, s, e);
    v[s..|v| - e]
  }

  /**
   * Cutting `s` leading and then `e` trailing whitespace characters, each
   * count maximal, leaves a run of `v` with no whitespace at either end.
   */
  lemma StripCounts(v: string, s: nat, e: nat)
    requires s <= |v| && (forall k :: 0 <= k < s ==> HttpWhitespace(v[k]))
    requires s < |v| ==> !HttpWhitespace(v[s])
    requires e <= |v| - s && (forall k :: |v| - s - e <= k < |v| - s ==> HttpWhitespace(v[s..][k]))
    requires e < |v| - s ==> !HttpWhitespace(v[s..][|v| - s - e - 1])
    ensures var r := v[s..|v| - e];
      && s + |r| <= |v| && r == v[s..s + |r|]
      && (forall k :: 0 <= k < |v| && (k < s || s + |r| <= k) ==> HttpWhitespace(v[k]))
      && (r != [] ==> !HttpWhitespace(r[0]) && !HttpWhitespace(r[|r| - 1]))
      && (v == [] || (!HttpWhitespace(v[0]) && !HttpWhitespace(v[|v| - 1])) ==> r == v)
  {
    forall k | |v| - e <= k < |v|
      ensures HttpWhitespace(v[k])
    {
      assert v[k] == v[s..][k - s];
    }
    if v != [] && !HttpWhitespace(v[0]) && !HttpWhitespace(v[|v| - 1]) {
      assert s == 0;
      assert e == 0;
    }
  }

  /** A MIME type padded with spaces is stored without them, not dropped. */
  lemma PaddedValueTrimmed()
    ensures Normalize(" image/png ") == "image/png"
  {
    var v := " image/png ";
    assert v[0] == ' ' && v[1] == 'i' && v[9] == 'g' && v[10] == ' ';
    assert LeadingWhitespace(v) == 1;
    assert v[1..10] == "image/png";
  }

  /**
   * Whether `Headers` accepts `v` as a header value: every code unit fits in
   * a byte (the `ByteString` conversion) and the normalised value holds no
   * NUL, CR or LF. Otherwise constructing the response throws a `TypeError`.
   */
  predicate HeaderValue(v: string)
  {
    && (forall k :: 0 <= k < |v| ==> v[k] <= '\U{FF}')
    && var n := Normalize(v); '\0' !in n && '\r' !in n && '\n' !in n
  }

  /** The shape the generation flow promises: `data:<mime>;base64,<payload>`. */
  function Format(mime: string, payload: string): (url: string)
    ensures |url| == |mime| + |payload| + 13
  {
    "data:" + mime + ";base64," + payload
  }

  /** The response of the error path. */
  function ErrorResponse(): (r: Response)
    ensures r.status == 500
    ensures r.headers == map["Content-Type" := "image/svg+xml"]
    ensures r.body == Utf8Text(PlaceholderSvg)
  {
    Response(500, map["Content-Type" := "image/svg+xml"], Utf8Text(PlaceholderSvg))
  }

  /**
   * `GET`: serve the generated image, or the placeholder on any failure. The
   * response is built inside the `try`, so a MIME type that `Headers` refuses
   * also lands in the error path.
   */
  function Get(g: Generation): (r: Response)
    ensures r.status == 200 <==>
      g.Generated? && StartsWith(g.url, ImagePrefix) && HeaderValue(MimeType(g.url))
    ensures r.status == 200 ==>
      && r.headers == map["Content-Type" := Normalize(MimeType(g.url)), "Cache-Control" := NoCache]
      && r.body == Base64Bytes(Payload(g.url))
    ensures r.status != 200 ==> r == ErrorResponse()
  {
    match g
    case GenerationFailed => ErrorResponse()
    case Generated(url) =>
      if !StartsWith(url, ImagePrefix) || !HeaderValue(MimeType(url)) then ErrorResponse()
      else
        Response(200, map["Content-Type" := Normalize(MimeType(url)), "Cache-Control" := NoCache],
                 Base64Bytes(Payload(url)))
  }

  /**
   * Round trip: a URL built from an image MIME type without `;` or `,` and any
   * payload parses back into exactly that MIME type and payload.
   */
  lemma ParseFormat(mime: string, payload: string)
    requires StartsWith(mime, "image/")
    requires ';' !in mime && ',' !in mime
    ensures StartsWith(Format(mime, payload), ImagePrefix)
    ensures MimeType(Format(mime, payload)) == mime
    ensures Payload(Format(mime, payload)) == payload
  {
    var url := Format(mime, payload);
    assert url[..11] == "data:" + mime[..6];
    ColonAndSemicolon(mime, payload);
    CommaAfterBase64(mime, payload);
  }

  /** In `data:<mime>;base64,...` the first `:` is at 4 and the first `;` at 5 + |mime|. */
  lemma ColonAndSemicolon(mime: string, payload: string)
    requires ';' !in mime
    ensures IndexOf(Format(mime, payload), ':') == 4
    ensures IndexOf(Format(mime, payload), ';') == 5 + |mime|
    ensures Format(mime, payload)[5..5 + |mime|] == mime
  {
    var url := Format(mime, payload);
    var n := |mime|;
    assert url[..4] == "data";
    IndexOfFirst(url, ':', 4);
    assert url[..5 + n] == "data:" + mime;
    IndexOfFirst(url, ';', 5 + n);
  }

  /** In `data:<mime>;base64,<payload>` the first `,` is at 12 + |mime|. */
  lemma CommaAfterBase64(mime: string, payload: string)
    requires ',' !in mime
    ensures IndexOf(Format(mime, payload), ',') == 12 + |mime|
    ensures Format(mime, payload)[13 + |mime|..] == payload
  {
    var url := Format(mime, payload);
    var n := |mime|;
    assert url[..12 + n] == "data:" + mime + ";base64";
    IndexOfFirst(url, ',', 12 + n);
  }

  /**
   * Serving a well-formed generated URL answers 200 with its MIME type and
   * payload exactly when `Headers` accepts the MIME type.
   */
  lemma GetWellFormed(mime: string, payload: string)
    requires StartsWith(mime, "image/")
    requires ';' !in mime && ',' !in mime
    ensures Get(Generated(Format(mime, payload))).status == 200 <==> HeaderValue(mime)
    ensures HeaderValue(mime) ==>
      (Get(Generated(Format(mime, payload))) ==
       Response(200, map["Content-Type" := Normalize(mime), "Cache-Control" := NoCache], Base64Bytes(payload)))
    ensures !HeaderValue(mime) ==> Get(Generated(Format(mime, payload))) == ErrorResponse()
  {
    ParseFormat(mime, payload);
  }

  /**
   * A line feed inside the MIME type (not at its end, where it would be
   * stripped) makes `Headers` throw, and the placeholder is served.
   */
  lemma LineFeedInMimeTypeRejected(mime: string, payload: string)
    requires StartsWith(mime, "image/")
    requires ';' !in mime && ',' !in mime
    requires !HttpWhitespace(mime[|mime| - 1]) && '\n' in mime
    ensures Get(Generated(Format(mime, payload))) == ErrorResponse()
  {
    assert !HttpWhitespace(mime[0]) by { assert mime[..6] == "image/"; }
    assert Normalize(mime) == mime;
    assert !HeaderValue(mime);
    GetWellFormed(mime, payload);
  }

  /** The instance `data:image/a<LF>b;base64,AA` gets the placeholder, not a 200. */
  lemma SplitMimeTypeRejected()
    ensures Get(Generated("data:image/a\nb;base64,AA")).status == 500
  {
    var mime := "image/a\nb";
    assert mime[..6] == "image/" && mime[7] == '\n';
    assert Format(mime, "AA") == "data:image/a\nb;base64,AA";
    LineFeedInMimeTypeRejected(mime, "AA");
  }

  /** A character outside Latin-1 in the MIME type fails the `ByteString` conversion. */
  lemma WideCharacterInMimeTypeRejected(mime: string, payload: string, k: nat)
    requires StartsWith(mime, "image/")
    requires ';' !in mime && ',' !in mime
    requires k < |mime| && mime[k] > '\U{FF}'
    ensures Get(Generated(Format(mime, payload))) == ErrorResponse()
  {
    GetWellFormed(mime, payload);
  }

  /**
   * Without any `;`, `indexOf` gives -1, `substring(5, -1)` clamps and swaps
   * its arguments, and the "MIME type" is the five characters `data:`.
   */
  lemma MimeTypeWithoutSemicolon(url: string)
    requires StartsWith(url, "data:")
    requires ';' !in url
    ensures MimeType(url) == "data:"
  {
    assert url[..4] == "data";
    IndexOfFirst(url, ':', 4);
  }

  /** Without any `,`, `indexOf` gives -1, and the payload is the whole URL. */
  lemma PayloadWithoutComma(url: string)
    requires ',' !in url
    ensures Payload(url) == url
  {
  }

  /** A URL that does not start with `data:image/` takes the error path. */
  lemma NonImageRejected(url: string)
    requires !StartsWith(url, ImagePrefix)
    ensures Get(Generated(url)).status == 500
  {
  }
}
