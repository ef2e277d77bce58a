/**
  The inline image check of the `message:send` handler (server.js, lines 253-276) and the
  fields derived from an accepted image (lines 281-290). The image travels as a data URL
  in the restricted shape `data:<type>;base64,<payload>` (the syntax of section 3 of
  RFC 2397, without media-type parameters and with the base64 marker mandatory).
*/
module ImageCodec {
  import opened Options
  import opened Strings

  /** The 5 MiB limit on the caller-supplied `imageSize`. */
  const MaxImageSize: int := 5 * 1024 * 1024

  const AllowedTypes: seq<string> := ["image/jpeg", "image/jpg", "image/png", "image/gif", "image/webp"]

  /** The character class `[A-Za-z-+\/]` of the media type. */
  predicate IsMimeChar(c: char) {
    ('A' <= c <= 'Z') || ('a' <= c <= 'z') || c == '-' || c == '+' || c == '/'
  }

  /** The characters JavaScript's `.` does not match. */
  predicate IsLineTerminator(c: char) {
    c == '\n' || c == '\r' || c == '\U{2028}' || c == '\U{2029}'
  }

  predicate NoLineTerminators(s: string) {
    forall i :: 0 <= i < |s| ==> !IsLineTerminator(s[i])
  }

  /** The two captures of `/^data:([A-Za-z-+\/]+);base64,(.+)$/`. */
  datatype DataUrl = DataUrl(mimeType: string, payload: string)

  predicate WellFormed(d: DataUrl) {
    && |d.mimeType| > 0 && (forall i :: 0 <= i < |d.mimeType| ==> IsMimeChar(d.mimeType[i]))
    && |d.payload| > 0 && NoLineTerminators(d.payload)
  }

  const Scheme: string := "data:"
  const Marker: string := ";base64,"

  function Format(d: DataUrl): string {
    Scheme + d.mimeType + Marker + d.payload
  }

  /** The length of the longest prefix of `s` made of media-type characters. */
  function MimeLength(s: string): (n: nat)
    ensures n <= |s|
    ensures forall k :: 0 <= k < n ==> IsMimeChar(s[k])
    ensures n == |s| || !IsMimeChar(s[n])
    decreases |s|
  {
    if |s| > 0 && IsMimeChar(s[0]) then 1 + MimeLength(s[1..]) else 0
  }

  /** `image.match(...)`: the media type is the maximal run of class characters after
      `data:` (the class holds no `;`, so the regular expression cannot backtrack into a
      shorter one), and it must be followed by `;base64,` and a non-empty payload free of
      line terminators. Whatever it accepts is well formed and is rebuilt exactly by
      `Format`. */
  function Parse(s: string): (r: Option<DataUrl>)
    ensures r.Some? ==> WellFormed(r.value) && Format(r.value) == s
  {
    if |s| < |Scheme| || s[..|Scheme|] != Scheme then None
    else
      var rest := s[|Scheme|..];
      var n := MimeLength(rest);
      var after := rest[n..];
      if n == 0 || |after| < |Marker| || after[..|Marker|] != Marker then None
      else
        var payload := after[|Marker|..];
        if |payload| == 0 || !NoLineTerminators(payload) then None
        else
          assert after == Marker + payload;
          assert rest == rest[..n] + after;
          assert s == Scheme + rest;
          Some(DataUrl(rest[..n], payload))
  }

  /** The maximal run stops at the first character outside the class. */
  lemma {:induction false} MimeLengthOf(m: string, tail: string)
    requires forall i :: 0 <= i < |m| ==> IsMimeChar(m[i])
    requires |tail| > 0 && !IsMimeChar(tail[0])
    ensures MimeLength(m + tail) == |m|
    decreases |m|
  {
    if |m| > 0 {
      assert (m + tail)[1..] == m[1..] + tail;
      MimeLengthOf(m[1..], tail);
    } else {
      assert m + tail == tail;
    }
  }

  /** `Parse` and `Format` are inverse: a string parses to `d` exactly when `d` is well
      formed and the string is `Format(d)`. */
  lemma ParseFormat(s: string, d: DataUrl)
    ensures Parse(s) == Some(d) <==> WellFormed(d) && s == Format(d)
  {
    if WellFormed(d) && s == Format(d) {
      var rest := d.mimeType + Marker + d.payload;
      assert s[..|Scheme|] == Scheme && s[|Scheme|..] == rest;
      MimeLengthOf(d.mimeType, Marker + d.payload);
      assert d.mimeType + (Marker + d.payload) == rest;
      assert rest[|d.mimeType|..] == Marker + d.payload;
      assert rest[..|d.mimeType|] == d.mimeType;
      assert (Marker + d.payload)[|Marker|..] == d.payload;
    }
  }

  datatype ImageError = InvalidFormat | TooLarge | InvalidType

  /** The `error` event message of each failure: never empty, and `ErrorMessageDistinct`
      shows the sender can tell the three failures apart. */
  function ErrorMessage(e: ImageError): (r: string)
    ensures r != ""
  {
    match e
    case InvalidFormat => "Invalid image data format"
    case TooLarge => "Image too large (max 5MB)"
    case InvalidType => "Invalid image type"
  }

  /** Different failures are reported with different messages. */
  lemma ErrorMessageDistinct(a: ImageError, b: ImageError)
    ensures ErrorMessage(a) == ErrorMessage(b) <==> a == b
  {
  }

  /** `imageSize && imageSize > 5 * 1024 * 1024`: only a supplied, non-zero size is checked. */
  predicate Oversized(imageSize: Option<int>) {
    imageSize.Some? && imageSize.value != 0 && imageSize.value > MaxImageSize
  }

  /** The three checks in source order: format, then the supplied size, then the media
      type against the allow-list. */
  function CheckImage(image: string, imageSize: Option<int>): (r: Result<DataUrl, ImageError>)
    ensures r == Err(InvalidFormat) <==> Parse(image).None?
    ensures r == Err(TooLarge) <==> Parse(image).Some? && Oversized(imageSize)
    ensures r == Err(InvalidType) <==>
              Parse(image).Some? && !Oversized(imageSize) && Parse(image).value.mimeType !in AllowedTypes
    ensures r.Ok? ==> Parse(image) == Some(r.value) && r.value.mimeType in AllowedTypes
  {
    match Parse(image)
    case None => Err(InvalidFormat)
    case Some(d) =>
      if Oversized(imageSize) then Err(TooLarge)
      else if d.mimeType !in AllowedTypes then Err(InvalidType)
      else Ok(d)
  }

  /** A well-formed data URL is accepted exactly when its type is allowed and no oversized
      size accompanies it; its payload length plays no part, so without a supplied size
      any payload passes. */
  lemma CheckImageAccepts(d: DataUrl, imageSize: Option<int>)
    requires WellFormed(d)
    ensures CheckImage(Format(d), imageSize) == Ok(d) <==> d.mimeType in AllowedTypes && !Oversized(imageSize)
    ensures d.mimeType in AllowedTypes ==> CheckImage(Format(d), None) == Ok(d)
  {
    ParseFormat(Format(d), d);
  }

  /** `mimeType.split('/')[1]`, or `"undefined"` when there is no second field: the
      subtype never holds a slash, and a type without a slash has none. `SubtypeOf` gives
      the subtype of `type/sub`. */
  function Subtype(mime: string): (r: string)
    ensures '/' !in r
    ensures '/' !in mime ==> r == "undefined"
  {
    var parts := Split(mime, '/');
    if |parts| > 1 then
      assert '/' !in parts[1];
      parts[1]
    else
      assert '/' in mime ==> |parts| > 1 by {
        if |parts| == 1 { assert Join(parts, '/') == parts[0]; }
      }
      "undefined"
  }

  /** `imageFileName || \`image.${subtype}\``: the name is `image.` followed by a
      slash-free extension, and `image.undefined` for a type without a slash. */
  function DefaultFileName(mime: string): (r: string)
    ensures |r| >= 6 && r[..6] == "image." && '/' !in r[6..]
    ensures '/' !in mime ==> r == "image.undefined"
  {
    var sub := Subtype(mime);
    assert ("image." + sub)[6..] == sub;
    "image." + sub
  }

  /** The default name of an `image/<sub>` type is `image.<sub>`, e.g. `image.jpeg`. */
  lemma DefaultFileNameOf(sub: string)
    requires '/' !in sub
    ensures DefaultFileName("image/" + sub) == "image." + sub
  {
    SubtypeOf("image", sub);
    assert "image" + "/" + sub == "image/" + sub;
  }

  /** For `type/sub` with no further slash the subtype is `sub`. */
  lemma SubtypeOf(ty: string, sub: string)
    requires '/' !in ty && '/' !in sub
    ensures Subtype(ty + "/" + sub) == sub
  {
    var parts := [ty, sub];
    assert FreeOf(parts, '/');
    assert Join(parts, '/') == ty + "/" + sub by {
      assert Join(parts[1..], '/') == sub;
    }
    SplitJoin(parts, '/');
  }
}
