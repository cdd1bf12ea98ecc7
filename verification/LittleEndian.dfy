/** Little-endian numbers in on-disk records. */
module LittleEndian {
  import opened Common

  function Le16(b: seq<Byte>, at: nat): (r: nat)
    requires at + 2 <= |b|
    ensures r < 0x1_0000
  {
    (b[at] as int) + 0x100 * (b[at + 1] as int)
  }

  function Le32(b: seq<Byte>, at: nat): (r: nat)
    requires at + 4 <= |b|
    ensures r < 0x1_0000_0000
  {
    Le16(b, at) + 0x1_0000 * Le16(b, at + 2)
  }

  function Le64(b: seq<Byte>, at: nat): (r: nat)
    requires at + 8 <= |b|
    ensures r <= 0xFFFF_FFFF_FFFF_FFFF
  {
    Le32(b, at) + 0x1_0000_0000 * Le32(b, at + 4)
  }
}
