/**
 * The static mimetype-to-extension table and its case-insensitive lookup.
 * The table is the one the uploader ships (a subset of Apache's
 * mime.types); a type outside it has no extension.
 */
module Mimetypes {
  import opened Wrappers
  import opened Php

  /** The static table, keyed by lower-case media type. */
  function Extensions(mimetype: string): Option<string> {
    match mimetype
    case "application/x-7z-compressed" => Some("7z")
    case "audio/x-aac" => Some("aac")
    case "application/postscript" => Some("ps")
    case "audio/x-aiff" => Some("aif")
    case "text/plain" => Some("txt")
    case "video/x-ms-asf" => Some("asf")
    case "application/atom+xml" => Some("atom")
    case "video/x-msvideo" => Some("avi")
    case "image/bmp" => Some("bmp")
    case "application/x-bzip2" => Some("bz2")
    case "application/pkix-cert" => Some("cer")
    case "application/pkix-crl" => Some("crl")
    case "application/x-x509-ca-cert" => Some("crt")
    case "text/css" => Some("css")
    case "text/csv" => Some("csv")
    case "application/cu-seeme" => Some("cu")
    case "application/x-debian-package" => Some("deb")
    case "application/msword" => Some("doc")
    case "application/vnd.openxmlformats-officedocument.wordprocessingml.document" => Some("docx")
    case "application/x-dvi" => Some("dvi")
    case "application/vnd.ms-fontobject" => Some("eot")
    case "application/epub+zip" => Some("epub")
    case "text/x-setext" => Some("etx")
    case "audio/flac" => Some("flac")
    case "video/x-flv" => Some("flv")
    case "image/gif" => Some("gif")
    case "application/gzip" => Some("gz")
    case "text/html" => Some("html")
    case "image/x-icon" => Some("ico")
    case "text/calendar" => Some("ics")
    case "application/x-iso9660-image" => Some("iso")
    case "application/java-archive" => Some("jar")
    case "image/jpeg" => Some("jpg")
    case "text/javascript" => Some("js")
    case "application/json" => Some("json")
    case "application/x-latex" => Some("latex")
    case "audio/mp4" => Some("mp4a")
    case "video/mp4" => Some("mpg4")
    case "audio/midi" => Some("midi")
    case "video/quicktime" => Some("qt")
    case "audio/mpeg" => Some("mp3")
    case "video/mpeg" => Some("mpg")
    case "audio/ogg" => Some("ogg")
    case "video/ogg" => Some("ogv")
    case "application/ogg" => Some("ogx")
    case "image/x-portable-bitmap" => Some("pbm")
    case "application/pdf" => Some("pdf")
    case "image/x-portable-graymap" => Some("pgm")
    case "image/png" => Some("png")
    case "image/x-portable-anymap" => Some("pnm")
    case "image/x-portable-pixmap" => Some("ppm")
    case "application/vnd.ms-powerpoint" => Some("ppt")
    case "application/vnd.openxmlformats-officedocument.presentationml.presentation" => Some("pptx")
    case "application/x-rar-compressed" => Some("rar")
    case "image/x-cmu-raster" => Some("ras")
    case "application/rss+xml" => Some("rss")
    case "application/rtf" => Some("rtf")
    case "text/sgml" => Some("sgml")
    case "image/svg+xml" => Some("svg")
    case "application/x-shockwave-flash" => Some("swf")
    case "application/x-tar" => Some("tar")
    case "image/tiff" => Some("tiff")
    case "application/x-bittorrent" => Some("torrent")
    case "application/x-font-ttf" => Some("ttf")
    case "audio/x-wav" => Some("wav")
    case "video/webm" => Some("webm")
    case "audio/x-ms-wma" => Some("wma")
    case "video/x-ms-wmv" => Some("wmv")
    case "application/x-font-woff" => Some("woff")
    case "application/wsdl+xml" => Some("wsdl")
    case "image/x-xbitmap" => Some("xbm")
    case "application/vnd.ms-excel" => Some("xls")
    case "application/vnd.openxmlformats-officedocument.spreadsheetml.sheet" => Some("xlsx")
    case "application/xml" => Some("xml")
    case "image/x-xpixmap" => Some("xpm")
    case "image/x-xwindowdump" => Some("xwd")
    case "text/yaml" => Some("yml")
    case "application/zip" => Some("zip")
    case _ => None
  }

  /** `strtolower` on one character: ASCII letters only. */
  function LowerChar(c: char): char {
    if 'A' <= c <= 'Z' then (c as int + 32) as char else c
  }

  /** `strtolower`. */
  function Lower(s: string): (r: string)
    ensures |r| == |s|
    ensures forall i :: 0 <= i < |s| ==> r[i] == LowerChar(s[i])
  {
    seq(|s|, i requires 0 <= i < |s| => LowerChar(s[i]))
  }

  /** The two strings differ at most in the case of ASCII letters. */
  predicate EqualIgnoringCase(s: string, t: string) {
    |s| == |t| && forall i :: 0 <= i < |s| ==> LowerChar(s[i]) == LowerChar(t[i])
  }

  /** The extension for a media type, or null when the lowercased type is
      not in the table. A value that is not a string converts to a string
      outside the table. */
  function ExtensionByMimetype(mimetype: Value): Option<string> {
    Extensions(Lower(ToStr(mimetype)))
  }

  /** The lookup ignores the case of its argument. */
  lemma CaseInsensitive(s: string, t: string)
    requires EqualIgnoringCase(s, t)
    ensures ExtensionByMimetype(Str(s)) == ExtensionByMimetype(Str(t))
  {
    assert Lower(s) == Lower(t);
  }

  lemma PngType()
    ensures ExtensionByMimetype(Str("image/png")) == Some("png")
    ensures ExtensionByMimetype(Str("Image/PNG")) == Some("png")
  {
    assert Lower("image/png") == "image/png";
    assert Lower("Image/PNG") == "image/png";
  }

  lemma PdfType()
    ensures ExtensionByMimetype(Str("application/pdf")) == Some("pdf")
  {
    assert Lower("application/pdf") == "application/pdf";
  }

  lemma ZipType()
    ensures ExtensionByMimetype(Str("application/zip")) == Some("zip")
  {
    assert Lower("application/zip") == "application/zip";
  }

  /** A type outside the table has no extension. */
  lemma UnknownType()
    ensures ExtensionByMimetype(Str("image/webp")) == None
  {
    assert Extensions("image/webp") == None;
    assert Lower("image/webp") == "image/webp";
  }

  /** A missing (null) type has no extension. */
  lemma MissingType()
    ensures ExtensionByMimetype(Null) == None
  {
    assert Extensions("") == None;
    assert Lower("") == "";
  }
}
