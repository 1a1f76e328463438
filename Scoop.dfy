/** A scoop read from a plot file: 64 bytes of plot data tagged with the
    block height it was read for, its nonce and its account. All fields are
    fixed at construction, so the scoop is a value. */
module Scoop {
  import opened Bytes
  import Plot

  datatype Scoop = Scoop(blockHeight: u64, nonce: u64, accountId: u64, data: seq<byte>)

  /** The Scoop constructor: a fresh copy of data[bufferOffset .. bufferOffset + 64).
      The offset is cast to int first, so an offset of 2^31 or more becomes
      negative and Array.Copy throws ArgumentOutOfRangeException; a slice that
      runs past the end of the buffer throws ArgumentException. The copy is
      a value, so later writes to the buffer never reach the scoop. */
  function NewScoop(blockHeight: u64, nonce: u64, accountId: u64, data: seq<byte>, bufferOffset: u32): (r: Result<Scoop>)
    ensures r.Success? <==> bufferOffset < TWO_31 && bufferOffset + Plot.SCOOP_SIZE <= |data|
    ensures bufferOffset >= TWO_31 ==> r == Failure("ArgumentOutOfRangeException")
    ensures r.Success? ==>
      r.value.blockHeight == blockHeight && r.value.nonce == nonce && r.value.accountId == accountId &&
      r.value.data == data[bufferOffset .. bufferOffset + Plot.SCOOP_SIZE]
  {
    var offset := ToInt32(bufferOffset);
    if offset < 0 then Failure("ArgumentOutOfRangeException")
    else if offset + Plot.SCOOP_SIZE > |data| then Failure("ArgumentException")
    else Success(Scoop(blockHeight, nonce, accountId, data[offset .. offset + Plot.SCOOP_SIZE]))
  }
}
