/** Bounded output capture of src/command.rs: whatever chunks a reader hands over, exactly
    the first bytes up to a limit are kept. */
module BoundedCapture {
  import opened Bits

  const BUFFER_SIZE := 8192

  /** A reader as the loop meets it: each read fills at most one buffer, and the end of the
      stream or an error ends the list. */
  type Chunks = c: seq<seq<byte>> | forall i :: 0 <= i < |c| ==> 0 < |c[i]| <= BUFFER_SIZE
    witness []

  function Stream(chunks: seq<seq<byte>>): seq<byte> {
    if chunks == [] then [] else Stream(chunks[..|chunks| - 1]) + chunks[|chunks| - 1]
  }

  function Minimum(a: nat, b: nat): nat {
    if a < b then a else b
  }

  /** `read_bounded`: what is kept depends on the stream alone, not on how it was cut. */
  method ReadBounded(chunks: Chunks, limit: nat) returns (retained: seq<byte>, truncated: bool)
    ensures retained == Stream(chunks)[..Minimum(limit, |Stream(chunks)|)]
    ensures truncated <==> |Stream(chunks)| > limit
    ensures !truncated <==> retained == Stream(chunks)
  {
    retained, truncated := [], false;
    for i := 0 to |chunks|
      invariant retained == Stream(chunks[..i])[..Minimum(limit, |Stream(chunks[..i])|)]
      invariant truncated <==> |Stream(chunks[..i])| > limit
    {
      var buffer := chunks[i];
      var remaining := if limit > |retained| then limit - |retained| else 0;
      var keep := Minimum(remaining, |buffer|);
      assert chunks[..i + 1][..i] == chunks[..i];
      assert Stream(chunks[..i + 1]) == Stream(chunks[..i]) + buffer;
      retained := retained + buffer[..keep];
      truncated := truncated || keep < |buffer|;
    }
    assert chunks[..|chunks|] == chunks;
  }
}
