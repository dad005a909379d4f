/**
 * The language context both pages read: the current language code and the
 * translation function `t`. The context itself is not part of this model;
 * `t` is a parameter whose answer for a key is a Reply.
 */
module I18n {

  /** What one call `t(key)` does: return a string, return nothing
      (`undefined`/`null`), or throw. */
  datatype Reply = Text(text: string) | Missing | Threw

  /** A reply that safeTranslate accepts: a truthy string (JavaScript's empty
      string is falsy) that is not the key echoed back. */
  predicate Usable(reply: Reply, key: string)
  {
    reply.Text? && reply.text != "" && reply.text != key
  }

  /** getFontClass: the CSS class for the current language code. */
  function FontClass(lang: string): (c: string)
    ensures c == "tamil-font" <==> lang == "ta"
    ensures c == "hindi-font" <==> lang == "hi"
    ensures c == "english-font" <==> lang != "ta" && lang != "hi"
  {
    match lang
    case "ta" => "tamil-font"
    case "hi" => "hindi-font"
    case _ => "english-font"
  }
}
