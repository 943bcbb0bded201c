/** Reply trees, as the reader builds them and the cluster layer takes them apart
    (`hiredis/read.h`, `hiredis/hiredis.c`). */
module Replies {
  import opened Bytes

  datatype Kind = ArrayKind | MapKind | SetKind | PushKind

  datatype Reply =
    | Status(text: Text)
    | Error(text: Text)
    | Integer(value: int)
    | Nil
    | Bool(truth: bool)
    | Double(text: Text)
    | BigNumber(text: Text)
    | Str(text: Text)
    | Verbatim(vtype: Text, text: Text)
    | Aggregate(kind: Kind, elements: seq<Reply>)
}
