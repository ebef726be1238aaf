/** Big-endian fields (include/elpis/common.h). */
module Bytes {
  import opened Words

  function Be16(v: nat): seq<byte> {
    [v / 256 % 256, v % 256]
  }

  function Be32(v: nat): seq<byte> {
    [v / 0x100_0000 % 256, v / 0x1_0000 % 256, v / 256 % 256, v % 256]
  }

  function Get16(m: seq<byte>, i: nat): nat
    requires i + 2 <= |m|
  {
    256 * (m[i] as int) + m[i + 1]
  }

  function Get32(m: seq<byte>, i: nat): nat
    requires i + 4 <= |m|
  {
    0x100_0000 * (m[i] as int) + 0x1_0000 * (m[i + 1] as int) + 256 * (m[i + 2] as int) + m[i + 3]
  }
}
