/** Vocabulary shared by all modules: bytes, byte strings and optional values. */
module Basics {

  type Byte = b: int | 0 <= b < 256

  /** A `std::string`: the source uses it for text and for binary data alike. */
  type Text = seq<Byte>

  datatype Option<+T> = None | Some(value: T)

  /** A (clientID, serverID) pair: what one session key belongs to. */
  datatype Pair = Pair(client: Text, server: Text)

  const MAX_INT := 0x7fff_ffff
  const MIN_INT := -0x8000_0000
  const TWO_31 := 0x8000_0000
  const TWO_32 := 0x1_0000_0000
  const TWO_64 := 0x1_0000_0000_0000_0000

  /** The bytes of an ASCII literal. */
  function Bytes(s: string): (t: Text)
    ensures |t| == |s|
  {
    seq(|s|, i requires 0 <= i < |s| => (s[i] as int) % 256)
  }

  lemma SomeMember<T>(s: set<T>) returns (y: T)
    requires s != {}
    ensures y in s
  {
    y :| y in s;
  }
}
