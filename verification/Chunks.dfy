/** A byte stream that arrives in pieces. */
module Chunks {
  import opened MachineTypes

  type Bytes = seq<byte>

  function Flat(chunks: seq<Bytes>): Bytes {
    if chunks == [] then [] else chunks[0] + Flat(chunks[1..])
  }
}
