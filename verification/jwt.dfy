/**
 `parseJwt`: picks the second dot-separated segment of the token and turns
 its base64url alphabet into standard base64. The decoding that follows
 (`atob`, `decodeURIComponent`, `JSON.parse`) is a parameter, and any error
 along the way is caught and gives `null`.
 */
module Jwt {
  import opened Wrappers
  import opened Text
  import opened Storage

  /** The decoded claims object; only its `nonce` member is consulted. */
  datatype Claims = Claims(nonce: Option<Value>)

  /** `token.split(".")[1]`, which is `undefined` when the token has no dot. */
  function PayloadSegment(token: string): (seg: Option<string>)
    ensures seg.None? <==> '.' !in token
    ensures seg.Some? ==> '.' !in seg.value
  {
    var parts := Split(token, '.');
    if |parts| >= 2 then Some(parts[1]) else None
  }

  /** For any dot-free segments, two or more of them, joined with dots, the selected segment is
      the second one. */
  lemma PayloadOfSegments(parts: seq<string>)
    requires |parts| >= 2
    requires forall i :: 0 <= i < |parts| ==> '.' !in parts[i]
    ensures PayloadSegment(Join(parts, '.')) == Some(parts[1])
  {
    SplitJoin(parts, '.');
  }

  /** The segment of `header + "." + payload + "." + signature` is `payload`. */
  lemma PayloadOfCompactToken(header: string, payload: string, signature: string)
    requires '.' !in header && '.' !in payload && '.' !in signature
    ensures PayloadSegment(header + "." + payload + "." + signature) == Some(payload)
  {
    var parts := [header, payload, signature];
    SplitJoin(parts, '.');
    assert parts[1..][1..] == [signature];
    assert Join(parts[1..], '.') == payload + "." + signature;
    assert Join(parts, '.') == header + "." + payload + "." + signature;
  }

  function ToStandardChar(c: char): char {
    if c == '-' then '+' else if c == '_' then '/' else c
  }

  /** `.replace(/-/g, "+").replace(/_/g, "/")`. */
  function ToStandardBase64(seg: string): (b: string)
    ensures |b| == |seg|
    ensures forall i :: 0 <= i < |seg| ==> b[i] == ToStandardChar(seg[i])
  {
    seq(|seg|, i requires 0 <= i < |seg| => ToStandardChar(seg[i]))
  }

  function ToUrlChar(c: char): char {
    if c == '+' then '-' else if c == '/' then '_' else c
  }

  /** base64url encoding of standard base64 text, the inverse translation. */
  function ToUrlBase64(b: string): (seg: string)
    ensures |seg| == |b|
    ensures forall i :: 0 <= i < |b| ==> seg[i] == ToUrlChar(b[i])
  {
    seq(|b|, i requires 0 <= i < |b| => ToUrlChar(b[i]))
  }

  /** Translating back and forth gives the original, for base64url text (no `+`, no `/`)
      and for standard base64 text (no `-`, no `_`). */
  lemma Base64TranslationRoundTrip(seg: string, b: string)
    ensures '+' !in seg && '/' !in seg ==> ToUrlBase64(ToStandardBase64(seg)) == seg
    ensures '-' !in b && '_' !in b ==> ToStandardBase64(ToUrlBase64(b)) == b
    ensures '-' !in ToStandardBase64(seg) && '_' !in ToStandardBase64(seg)
  {
  }

  /** `parseJwt(token)`: `None` is `null`. It never throws. */
  function ParseJwt(token: string, decode: string -> Option<Claims>): (claims: Option<Claims>)
    ensures '.' !in token ==> claims.None?
    ensures '.' in token ==> claims == decode(ToStandardBase64(PayloadSegment(token).value))
  {
    match PayloadSegment(token)
    case None => None
    case Some(seg) => decode(ToStandardBase64(seg))
  }
}
