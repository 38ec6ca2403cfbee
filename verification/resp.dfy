/** The values a RESP2 decoder produces and the callbacks it fires. */
module Resp {
  import opened Decimal

  datatype Option<T> = None | Some(value: T)

  /** Type-tag bytes of the five reply kinds, and the terminator byte. */
  const BULK_TAG: byte := 36     // '$'
  const SIMPLE_TAG: byte := 43   // '+'
  const ARRAY_TAG: byte := 42    // '*'
  const INTEGER_TAG: byte := 58  // ':'
  const ERROR_TAG: byte := 45    // '-'
  const MINUS: byte := 45
  const CR: byte := 13
  const LF: byte := 10

  /** A reply. `Nil` is the JavaScript `null` that both a negative bulk length
      and a negative array count decode to; `NilArray` is the null array
      `*-1` on the wire, which the parser also turns into `Nil`, so it only
      ever appears as an input of the encoder. Strings are kept as the bytes
      they were read from in both output modes. */
  datatype Reply =
    | Simple(bytes: seq<byte>)
    | Error(message: seq<byte>)
    | Integer(n: int)
    | IntegerText(text: string)
    | Bulk(bytes: seq<byte>)
    | Nil
    | NilArray
    | Array(elements: seq<Reply>)

  /** What the error callbacks receive: a reply-level error (`-` reply), or the
      fatal protocol error carrying the offending type byte, a snapshot of the
      buffer and the offset just past that byte. */
  datatype Failure =
    | ReplyError(message: seq<byte>)
    | ParserError(typeByte: byte, buffer: seq<byte>, offset: int)

  /** One invocation of `returnReply`, `returnError` or `returnFatalError`. */
  datatype Event =
    | OnReply(reply: Reply)
    | OnError(failure: Failure)
    | OnFatal(failure: Failure)
}
