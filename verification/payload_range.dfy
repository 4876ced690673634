/**
 Where the pipeline looks for a TCP payload (`tcp_payload_range` of rust/src/pipeline.rs): as if it
 ended where the frame does.
 */
module PayloadRange {
  import opened Integers
  import opened Wrappers

  /** The last `payloadLen` octets of the frame, saturated to 16 bits. */
  function TcpPayloadRange(payloadLen: Option<U32>, frameLen: nat): Option<(U16, U16)> {
    if payloadLen.None? || payloadLen.value == 0 || payloadLen.value > frameLen then None
    else Some((Min(frameLen - payloadLen.value, 0xffff), Min(payloadLen.value, 0xffff)))
  }
}
