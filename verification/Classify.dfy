/** The two nibble tables that classify a byte with one lookup each. */
module Classify {
  import opened Common
  import opened Scanner

  const STRUCTURAL: bv8 := 0x5F
  const WHITESPACE: bv8 := 0x20
  const NEWLINES: bv8 := 0x40
  const HASHES: bv8 := 0x80

  function LowNibbles(n: nat): bv8 {
    if n == 0 then 32 else if n == 3 then 128 else if n == 9 then 16 else if n == 10 then 65
    else if n == 11 then 2 else if n == 12 then 4 else if n == 13 then 8 else 0
  }

  function HighNibbles(n: nat): bv8 {
    if n == 0 then 88 else if n == 2 then 172 else if n == 3 then 1 else if n == 5 then 10
    else if n == 7 then 14 else 0
  }

  /** A byte shuffle: the index looks up its low four bits, and nothing if its top bit is set. */
  function Shuffle(table: nat -> bv8, index: Byte): bv8 {
    if index >= 0x80 then 0 else table(index % 16)
  }

  /** `v >> 4 & 0x7F` of a byte in a 32-bit lane, into which the shift moves the low bits of the byte behind it. */
  function HighIndex(b: Byte, next: Byte): Byte {
    (b / 16 + 16 * (next % 16)) % 128
  }

  function Class(b: Byte, next: Byte): bv8 {
    Shuffle(LowNibbles, b) & Shuffle(HighNibbles, HighIndex(b, next))
  }

  predicate Has(b: Byte, next: Byte, mask: bv8) { Class(b, next) & mask != 0 }

  lemma {:induction false} ClassIsTables(b: Byte, next: Byte)
    ensures Class(b, next) == if b >= 0x80 then 0 else LowNibbles(b % 16) & HighNibbles(b / 16)
  {
    assert HighIndex(b, next) % 16 == b / 16;
  }

  /** The classes are the bytes they are named for, whatever byte comes next. */
  lemma {:induction false} ClassesAreBytes(b: Byte, next: Byte)
    ensures Has(b, next, STRUCTURAL) <==> IsStructural(b)
    ensures Has(b, next, WHITESPACE) <==> b == SPACE
    ensures Has(b, next, NEWLINES) <==> b == NEWLINE
    ensures Has(b, next, HASHES) <==> b == HASH
  {
    ClassIsTables(b, next);
    if b < 0x80 {
      assert b == 16 * (b / 16) + b % 16;
    }
  }
}
