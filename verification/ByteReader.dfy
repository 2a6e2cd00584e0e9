/** The answers an operating-system reader gives, one per `read` call. */
module ByteReader {
  import opened Utf8

  /** An empty `Data` is the end of the file; so is the end of the script. */
  datatype Read = Data(data: bytes) | Failed

  /** What a reader delivers: its bytes up to the end, or up to the failure that cut them off. */
  datatype Delivery = Delivery(data: bytes, failed: bool)

  function Delivered(answers: seq<Read>): Delivery {
    if answers == [] || answers[0] == Data([]) then Delivery([], false)
    else if answers[0].Failed? then Delivery([], true)
    else
      var later := Delivered(answers[1..]);
      Delivery(answers[0].data + later.data, later.failed)
  }

  /** The calls it takes to see the end or the failure. */
  function ReadsToEnd(answers: seq<Read>): nat {
    if answers == [] then 0
    else if answers[0].Failed? || answers[0] == Data([]) then 1
    else 1 + ReadsToEnd(answers[1..])
  }
}
