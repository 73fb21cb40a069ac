/** The UTF-8 decoder automaton of src/vt/vt_utf8.c (section 4 of RFC 3629), its table written as cases. */
module Utf8 {
  import opened Bytes

  const ACCEPT: nat := 0
  const REJECT: nat := 12

  /** Byte classes: the first 256 entries of the table. */
  function Class(b: byte): nat {
    if b < 0x80 then 0
    else if b < 0x90 then 1
    else if b < 0xA0 then 9
    else if b < 0xC0 then 7
    else if b < 0xC2 then 8
    else if b < 0xE0 then 2
    else if b == 0xE0 then 10
    else if b == 0xED then 4
    else if b < 0xF0 then 3
    else if b == 0xF0 then 11
    else if b < 0xF4 then 6
    else if b == 0xF4 then 5
    else 8
  }

  /** Transitions: the rest of the table, 12 entries per state. */
  function Next(state: nat, kind: nat): nat {
    if state == 0 then
      if kind == 0 then 0 else if kind == 2 then 24 else if kind == 3 then 36 else if kind == 4 then 60
      else if kind == 5 then 96 else if kind == 6 then 84 else if kind == 10 then 48 else if kind == 11 then 72 else 12
    else if state == 24 then if kind == 1 || kind == 7 || kind == 9 then 0 else 12
    else if state == 36 then if kind == 1 || kind == 7 || kind == 9 then 24 else 12
    else if state == 48 then if kind == 7 then 24 else 12
    else if state == 60 then if kind == 1 || kind == 9 then 24 else 12
    else if state == 72 then if kind == 7 || kind == 9 then 36 else 12
    else if state == 84 then if kind == 1 || kind == 7 || kind == 9 then 36 else 12
    else if state == 96 then if kind == 1 then 36 else 12
    else 12
  }

  /** The bits of a lead byte that belong to the code point: (0xff >> kind) & b. */
  function LeadBits(b: byte): nat {
    var kind := Class(b);
    (b as int) % (if kind == 0 then 256 else if kind == 1 then 128 else if kind == 2 then 64 else if kind == 3 then 32
         else if kind == 4 then 16 else if kind == 5 then 8 else if kind == 6 then 4 else if kind == 7 then 2 else 1)
  }

  /** vt_utf8_step on the code point, in 32 bits. */
  function StepCp(state: nat, cp: nat, b: byte): nat {
    if state != ACCEPT then (cp * 64) % 0x1_0000_0000 + (b as int) % 64 else LeadBits(b)
  }

  function StepState(state: nat, b: byte): nat {
    Next(state, Class(b))
  }
}
