/** Turning any thrown value into the text shown in an error notice (src/utils/error.ts). */
module Errors {
  import opened Wrappers

  /** The value of a `message` property: a string, or anything else together with what String() makes of it. */
  datatype MessageValue = TextMessage(text: string) | OtherMessage(rendered: string)

  /** The values a `throw` or a rejected promise can carry. */
  datatype Thrown =
    | ErrorObject(message: string)                // an instance of Error
    | ThrownString(text: string)                  // a thrown string
    | PlainObject(property: Option<MessageValue>) // any other object; None when it has no `message` property
    | OtherThrown                                 // null, undefined, a number, a boolean, a function

  const FallbackText := "Unexpected error while processing images."

  /** The `message` property an object carries, if any: an Error always has a string one. */
  function MessageOf(err: Thrown): Option<MessageValue> {
    match err
    case ErrorObject(m) => Some(TextMessage(m))
    case PlainObject(p) => p
    case _ => None
  }

  /**
   * describeError: a non-empty Error message first, then a thrown string, then
   * a string `message` property of any object (an Error whose message is empty
   * lands here), and the fixed fallback text otherwise.
   */
  function DescribeError(err: Thrown): (r: string)
    ensures err.ErrorObject? && err.message != "" ==> r == err.message
    ensures err.ThrownString? ==> r == err.text
    ensures err.ErrorObject? && err.message == "" ==> r == ""
    ensures MessageOf(err).Some? && MessageOf(err).value.TextMessage? ==> r == MessageOf(err).value.text
    ensures MessageOf(err).None? && !err.ThrownString? ==> r == FallbackText
    ensures MessageOf(err).Some? && MessageOf(err).value.OtherMessage? ==> r == FallbackText
  {
    if err.ErrorObject? && err.message != "" then err.message
    else if err.ThrownString? then err.text
    else if (err.ErrorObject? || err.PlainObject?) && MessageOf(err).Some? then
      match MessageOf(err).value
      case TextMessage(t) => t
      case OtherMessage(_) => FallbackText
    else FallbackText
  }

  /** The text is empty only when the thrown value itself carried an empty string. */
  lemma DescribeErrorEmpty(err: Thrown)
    requires DescribeError(err) == ""
    ensures err == ErrorObject("") || err == ThrownString("") || err == PlainObject(Some(TextMessage("")))
  {
  }
}
