/** Content-type classification of a leading byte sample. */
module Content {

  /** The classifications a content inspector can give a byte sample. */
  datatype ContentType =
    | Binary
    | Utf8
    | Utf8Bom
    | Utf16Le
    | Utf16Be
    | Utf32Le
    | Utf32Be

  /** A file is emitted only when its sample is classified as one of the four
      accepted text encodings; binary and UTF-32 content is skipped. */
  predicate IsText(t: ContentType)
    ensures IsText(t) <==> !(t == Binary || t == Utf32Le || t == Utf32Be)
  {
    match t
    case Utf8 | Utf8Bom | Utf16Le | Utf16Be => true
    case _ => false
  }
}
