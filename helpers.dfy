/**
  Small helpers used by the controllers: the one-time-code generator, the MIME-type classifier
  for attachments, and the builders of an uploaded file's local path and public URL.

  The generator draws each digit from `Math.random`; here the draws are a parameter, one index
  into the digit alphabet per character.
*/
module Helpers {
  import opened Wrappers
  import MessageModel

  const DIGITS: string := "0123456789"

  /** What `Math.floor(Math.random() * 10)` can yield. */
  type DigitIndex = i: int | 0 <= i < 10

  predicate IsDigit(c: char)
  {
    '0' <= c <= '9'
  }

  /** The numeric value of each character of a digit string: the inverse of drawing a code. */
  function DigitValues(s: string): (values: seq<int>)
    requires forall i :: 0 <= i < |s| ==> IsDigit(s[i])
    ensures |values| == |s|
  {
    seq(|s|, i requires 0 <= i < |s| => s[i] as int - '0' as int)
  }

  /**
    `generateOtpNumber(length)`: one digit per iteration while the counter is below `length`,
    the i-th digit being the i-th draw. A length of zero or less gives the empty string.
  */
  method GenerateOtpNumber(draws: seq<DigitIndex>, length: int := 6) returns (otp: string)
    requires length <= |draws|
    ensures |otp| == if length < 0 then 0 else length
    ensures forall i :: 0 <= i < |otp| ==> IsDigit(otp[i])
    ensures DigitValues(otp) == draws[..|otp|]
  {
    otp := "";
    var i := 0;
    while i < length
      invariant 0 <= i <= (if length < 0 then 0 else length) && |otp| == i
      invariant forall k :: 0 <= k < i ==> otp[k] == DIGITS[draws[k]]
    {
      otp := otp + [DIGITS[draws[i]]];
      i := i + 1;
    }
  }

  predicate StartsWith(s: string, prefix: string)
  {
    |prefix| <= |s| && s[..|prefix|] == prefix
  }

  /**
    `getAttachmentType`: the first of the prefixes "image/", "video/", "audio/" that the MIME
    type starts with names its kind; otherwise exactly "application/pdf" is "pdf" and
    everything else is "other". The result is always a value of the attachment type enumeration.
  */
  function GetAttachmentType(mimeType: string): (kind: string)
    ensures kind == "image" <==> StartsWith(mimeType, "image/")
    ensures kind == "video" <==> !StartsWith(mimeType, "image/") && StartsWith(mimeType, "video/")
    ensures kind == "audio" <==>
      !StartsWith(mimeType, "image/") && !StartsWith(mimeType, "video/") && StartsWith(mimeType, "audio/")
    ensures kind == "pdf" <==> mimeType == "application/pdf"
    ensures kind == "other" <==>
      && !StartsWith(mimeType, "image/") && !StartsWith(mimeType, "video/") && !StartsWith(mimeType, "audio/")
      && mimeType != "application/pdf"
    ensures MessageModel.ParseAttachmentType(kind).Some?
  {
    assert !StartsWith("application/pdf", "audio/") by { assert "application/pdf"[1] != "audio/"[1]; }
    if StartsWith(mimeType, "image/") then "image"
    else if StartsWith(mimeType, "video/") then "video"
    else if StartsWith(mimeType, "audio/") then "audio"
    else if mimeType == "application/pdf" then "pdf"
    else "other"
  }

  const LOCAL_IMAGES_DIR: string := "public/images/"

  /** `getLocalPath`: where an uploaded file is stored on disk. */
  function GetLocalPath(fileName: string): (path: string)
    ensures StartsWith(path, LOCAL_IMAGES_DIR)
    ensures |path| == |LOCAL_IMAGES_DIR| + |fileName| && path[|LOCAL_IMAGES_DIR|..] == fileName
  {
    LOCAL_IMAGES_DIR + fileName
  }

  /** The file name of a path under the local images directory, if it is one. */
  function LocalFileName(path: string): (fileName: Option<string>)
    ensures fileName.Some? <==> StartsWith(path, LOCAL_IMAGES_DIR)
  {
    if StartsWith(path, LOCAL_IMAGES_DIR) then Some(path[|LOCAL_IMAGES_DIR|..]) else None
  }

  /** The local path of a file names that file, and every path under the directory is the local path of its name. */
  lemma LocalPathRoundTrip(fileName: string, path: string)
    ensures LocalFileName(GetLocalPath(fileName)) == Some(fileName)
    ensures LocalFileName(path) == Some(fileName) ==> GetLocalPath(fileName) == path
  {
    if LocalFileName(path) == Some(fileName) {
      assert path == path[..|LOCAL_IMAGES_DIR|] + path[|LOCAL_IMAGES_DIR|..];
    }
  }

  /** How a template literal prints `req.get("host")`, which is undefined when the request has no Host header. */
  function HostText(host: Option<string>): string
  {
    if host.Some? then host.value else "undefined"
  }

  /**
    `getStaticFilePath`: the public URL of an uploaded file — the request's protocol, "://",
    its host, then "/images/" and the file name.
  */
  function GetStaticFilePath(protocol: string, host: Option<string>, fileName: string): (url: string)
    ensures StartsWith(url, protocol + "://" + HostText(host))
    ensures |url| == |protocol| + 3 + |HostText(host)| + 8 + |fileName|
    ensures url[|url| - |fileName| - 8..] == "/images/" + fileName
  {
    protocol + "://" + HostText(host) + "/images/" + fileName
  }

  /** The public URL and the local path of a file end in the same file name. */
  lemma ServedAndStoredNameAgree(protocol: string, host: Option<string>, fileName: string)
    ensures
      var url := GetStaticFilePath(protocol, host, fileName);
      url[|url| - |fileName|..] == LocalFileName(GetLocalPath(fileName)).value
  {
    var url := GetStaticFilePath(protocol, host, fileName);
    assert url[|url| - |fileName|..] == (url[|url| - |fileName| - 8..])[8..];
  }
}
