/** Numbers as fixed-width bytes, the lowest byte first. */
module LittleEndian {
  import opened Bpe
  import Machine

  function ToBytes(n: nat, width: nat): (b: seq<Byte>)
    ensures |b| == width
  {
    if width == 0 then [] else [n % 0x100] + ToBytes(n / 0x100, width - 1)
  }

  function FromLittleEndian(b: seq<Byte>): nat {
    if b == [] then 0 else b[0] + 0x100 * FromLittleEndian(b[1..])
  }

  /** How many numbers a width can say. */
  function Values(width: nat): nat { Machine.Power(0x100, width) }

  lemma {:induction false} Divided(n: nat, p: nat)
    requires n < 0x100 * p
    ensures n / 0x100 < p
  {
  }

  lemma {:induction false} Combined(low: nat, high: nat, p: nat)
    requires low < 0x100 && high < p
    ensures (low + 0x100 * high) % 0x100 == low && (low + 0x100 * high) / 0x100 == high
    ensures low + 0x100 * high < 0x100 * p
  {
  }

  /** Bytes read back as the number they were made from. */
  lemma {:induction false} ReadsBack(n: nat, width: nat)
    requires n < Values(width)
    ensures FromLittleEndian(ToBytes(n, width)) == n
    decreases width
  {
    if width > 0 {
      Divided(n, Values(width - 1));
      ReadsBack(n / 0x100, width - 1);
      assert ToBytes(n, width)[1..] == ToBytes(n / 0x100, width - 1);
    }
  }

  /** A number read from bytes makes the same bytes. */
  lemma {:induction false} WritesBack(b: seq<Byte>)
    ensures ToBytes(FromLittleEndian(b), |b|) == b
    ensures FromLittleEndian(b) < Values(|b|)
  {
    if b != [] {
      WritesBack(b[1..]);
      var rest := FromLittleEndian(b[1..]);
      Combined(b[0], rest, Values(|b| - 1));
      assert b == [b[0]] + b[1..];
    }
  }

  lemma {:induction false} EightBytes()
    ensures Values(8) == 0x1_0000_0000_0000_0000
  {
    assert Values(2) == 0x1_0000;
    assert Values(4) == 0x1_0000 * Values(2);
    assert Values(6) == 0x1_0000 * Values(4);
    assert Values(8) == 0x1_0000 * Values(6);
  }
}
