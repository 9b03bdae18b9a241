/** How a UTF-8 symbol turns into three Latin characters when its bytes are read back as
    Mac OS Roman, the way the approval labels of the reports table are stored. */
module Encoding {
  import opened Types

  /** The UTF-8 encoding of a character in the three-byte range U+0800..U+FFFF. */
  function Utf8ThreeBytes(c: char): (bs: seq<int>)
    requires 0x800 <= c as int <= 0xFFFF
    ensures |bs| == 3
    ensures 0xE0 <= bs[0] < 0xF0 && 0x80 <= bs[1] < 0xC0 && 0x80 <= bs[2] < 0xC0
    ensures (bs[0] - 0xE0) * 0x1000 + (bs[1] - 0x80) * 0x40 + (bs[2] - 0x80) == c as int
  {
    var n := c as int;
    [0xE0 + n / 0x1000, 0x80 + (n / 0x40) % 0x40, 0x80 + n % 0x40]
  }

  /** The Mac OS Roman character of a byte; only the bytes of the five approval glyphs are
      tabulated, every other byte is absent. */
  function MacRomanChar(b: int): Option<char> {
    if b == 0x80 then Some('\U{00C4}')
    else if b == 0x8F then Some('\U{00E8}')
    else if b == 0x93 then Some('\U{00EC}')
    else if b == 0x94 then Some('\U{00EE}')
    else if b == 0x97 then Some('\U{00F3}')
    else if b == 0x9A then Some('\U{00F6}')
    else if b == 0x9C then Some('\U{00FA}')
    else if b == 0xA0 then Some('\U{2020}')
    else if b == 0xB3 then Some('\U{2265}')
    else if b == 0xE2 then Some('\U{201A}')
    else None
  }

  /** The three characters a three-byte UTF-8 symbol shows as when read as Mac OS Roman. */
  function MisDecode(c: char): (r: Option<string>)
    requires 0x800 <= c as int <= 0xFFFF
    ensures r.Some? ==> |r.value| == 3
    ensures r.Some? <==> forall i :: 0 <= i < 3 ==> MacRomanChar(Utf8ThreeBytes(c)[i]).Some?
    ensures r.Some? ==> forall i :: 0 <= i < 3 ==> r.value[i] == MacRomanChar(Utf8ThreeBytes(c)[i]).value
  {
    var bs := Utf8ThreeBytes(c);
    var a, b, d := MacRomanChar(bs[0]), MacRomanChar(bs[1]), MacRomanChar(bs[2]);
    if a.Some? && b.Some? && d.Some? then Some([a.value, b.value, d.value]) else None
  }
}
