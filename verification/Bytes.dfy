// The byte strings of the client, and the chunks they arrive in.

/** Buffers and object bodies. */
module Buffers {
  type Bytes = seq<bv8>
}

/** Strings whose characters are bytes. */
module Octets {
  type Byte = c: char | c < 256 as char
  type Bytes = seq<Byte>
}

module Chunks {
  /** The stream that some chunks make up. */
  function Flat<T>(chunks: seq<seq<T>>): seq<T> {
    if chunks == [] then [] else chunks[0] + Flat(chunks[1..])
  }

  lemma FlatOne<T>(stream: seq<T>)
    ensures Flat([stream]) == stream
  {
    var one := [stream];
    assert Flat(one[1..]) == [];
  }
}
