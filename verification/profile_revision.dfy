/** The revision of a profile text: 64-bit FNV-1a over its bytes. */
module ProfileRevision {
  import opened Sequences

  type Byte = b: int | 0 <= b < 256

  type Text = seq<Byte>

  const OFFSET_BASIS: u64 := 0xcbf2_9ce4_8422_2325
  const PRIME := 0x100_0000_01b3
  /** PRIME * INVERSE == 1 + TURNS * 2^64. */
  const INVERSE := 0xce965057aff6957b
  const TURNS := 0xce9650590f

  function PowerOfTwo(bits: nat): nat {
    if bits == 0 then 1 else 2 * PowerOfTwo(bits - 1)
  }

  /** Exclusive or of the low `bits` bits. */
  function Xor(a: nat, b: nat, bits: nat): (c: nat)
    ensures c < PowerOfTwo(bits)
  {
    if bits == 0 then 0
    else (if a % 2 == b % 2 then 0 else 1) + 2 * Xor(a / 2, b / 2, bits - 1)
  }

  /** Bit `k` of a number. */
  function Bit(n: nat, k: nat): nat {
    if k == 0 then n % 2 else Bit(n / 2, k - 1)
  }

  /** A bit of the result is set just where the two numbers differ. */
  lemma {:induction false} XorIsBitwise(a: nat, b: nat, bits: nat, k: nat)
    requires k < bits
    ensures Bit(Xor(a, b, bits), k) == if Bit(a, k) == Bit(b, k) then 0 else 1
  {
    var rest := Xor(a / 2, b / 2, bits - 1);
    assert Xor(a, b, bits) % 2 == (if a % 2 == b % 2 then 0 else 1) && Xor(a, b, bits) / 2 == rest;
    if k > 0 {
      XorIsBitwise(a / 2, b / 2, bits - 1, k - 1);
    }
  }

  lemma {:induction false} XorIsInjective(a: nat, b: nat, c: nat, bits: nat)
    requires a < PowerOfTwo(bits) && b < PowerOfTwo(bits)
    ensures Xor(a, c, bits) == Xor(b, c, bits) ==> a == b
    ensures Xor(c, a, bits) == Xor(c, b, bits) ==> a == b
  {
    if bits > 0 {
      XorIsInjective(a / 2, b / 2, c / 2, bits - 1);
    }
  }

  /** A byte meets only the low eight bits of the hash. */
  function XorByte(hash: u64, byte: Byte): u64 {
    assert PowerOfTwo(8) == 256;
    hash / 256 * 256 + Xor(hash % 256, byte, 8)
  }

  lemma {:induction false} BitOfParts(high: nat, low: nat, bits: nat, k: nat)
    requires low < PowerOfTwo(bits)
    ensures Bit(high * PowerOfTwo(bits) + low, k) == if k < bits then Bit(low, k) else Bit(high, k - bits)
    decreases bits
  {
    if bits > 0 {
      var n := high * PowerOfTwo(bits) + low;
      assert n == 2 * (high * PowerOfTwo(bits - 1) + low / 2) + low % 2;
      assert n % 2 == low % 2 && n / 2 == high * PowerOfTwo(bits - 1) + low / 2;
      if k > 0 {
        BitOfParts(high, low / 2, bits - 1, k - 1);
      }
    }
  }

  lemma {:induction false} NoBits(k: nat)
    ensures Bit(0, k) == 0
  {
    if k > 0 {
      NoBits(k - 1);
    }
  }

  /** So every bit of the new hash is that of the old one, changed where the byte has one. */
  lemma XorByteIsBitwise(hash: u64, byte: Byte, k: nat)
    ensures Bit(XorByte(hash, byte), k) == if Bit(hash, k) == Bit(byte, k) then 0 else 1
  {
    assert PowerOfTwo(8) == 256;
    var high, low := hash / 256, hash % 256;
    hide Xor, PowerOfTwo;
    BitOfParts(high, low, 8, k);
    BitOfParts(high, Xor(low, byte, 8), 8, k);
    BitOfParts(0, byte, 8, k);
    if k < 8 {
      XorIsBitwise(low, byte, 8, k);
    } else {
      NoBits(k - 8);
      BitIsBinary(high, k - 8);
    }
  }

  lemma {:induction false} BitIsBinary(n: nat, k: nat)
    ensures Bit(n, k) == 0 || Bit(n, k) == 1
  {
    if k > 0 {
      BitIsBinary(n / 2, k - 1);
    }
  }

  function Mix(hash: u64, byte: Byte): u64 {
    XorByte(hash, byte) * PRIME % RANGE
  }

  function Continue(hash: u64, text: Text): u64
    decreases |text|
  {
    if text == [] then hash else Continue(Mix(hash, text[0]), text[1..])
  }

  /** The loop that computes it. */
  method Revision(text: Text) returns (hash: u64)
    ensures hash == Continue(OFFSET_BASIS, text)
  {
    hash := OFFSET_BASIS;
    for i := 0 to |text|
      invariant Continue(hash, text[i..]) == Continue(OFFSET_BASIS, text)
    {
      assert text[i..][1..] == text[i + 1..];
      hash := XorByte(hash, text[i]);
      hash := hash * PRIME % RANGE;
    }
  }

  /** The published FNV-1a hashes of the empty text and of "a". */
  lemma KnownAnswers()
    ensures Continue(OFFSET_BASIS, []) == 0xcbf2_9ce4_8422_2325
    ensures Continue(OFFSET_BASIS, [0x61]) == 0xaf63_dc4c_8601_ec8c
  {
    XorOfLetter();
    hide Xor;
    assert XorByte(OFFSET_BASIS, 0x61) == 0xcbf2_9ce4_8422_2344;
    assert Mix(OFFSET_BASIS, 0x61) == 0xaf63_dc4c_8601_ec8c;
    assert [0x61][1..] == [];
  }

  lemma XorOfLetter()
    ensures Xor(0x25, 0x61, 8) == 0x44
  {
    assert Xor(1, 3, 3) == 2;
    assert Xor(4, 12, 5) == 8;
    assert Xor(18, 48, 7) == 34;
  }

  lemma MultiplicationIsInjective(a: u64, b: u64)
    ensures a * PRIME % RANGE == b * PRIME % RANGE ==> a == b
  {
    Inverted(a);
    Inverted(b);
  }

  lemma Inverted(a: u64)
    ensures a * PRIME % RANGE * INVERSE % RANGE == a
  {
    var turns := a * PRIME / RANGE;
    var hash := a * PRIME % RANGE;
    Unwound(a, turns, hash);
    WholeTurns(a, a * TURNS - turns * INVERSE);
  }

  lemma Unwound(a: u64, turns: int, hash: int)
    requires a * PRIME == turns * RANGE + hash
    ensures hash * INVERSE == a + (a * TURNS - turns * INVERSE) * RANGE
  {
  }

  lemma WholeTurns(a: u64, turns: int)
    ensures (a + turns * RANGE) % RANGE == a
  {
  }

  lemma HighAndLow(a: nat, b: nat, x: nat, y: nat)
    requires x < 256 && y < 256
    ensures a * 256 + x == b * 256 + y ==> a == b && x == y
  {
  }

  lemma XorByteIsInjective(a: u64, b: u64, x: Byte, y: Byte)
    ensures XorByte(a, x) == XorByte(b, x) ==> a == b
    ensures XorByte(a, x) == XorByte(a, y) ==> x == y
  {
    assert PowerOfTwo(8) == 256;
    hide Xor, PowerOfTwo;
    XorIsInjective(a % 256, b % 256, x, 8);
    XorIsInjective(x, y, a % 256, 8);
    HighAndLow(a / 256, b / 256, Xor(a % 256, x, 8), Xor(b % 256, x, 8));
    HighAndLow(a / 256, a / 256, Xor(a % 256, x, 8), Xor(a % 256, y, 8));
  }

  /** Neither a changed hash nor a changed byte is lost in one step. */
  lemma MixIsInjective(a: u64, b: u64, x: Byte, y: Byte)
    ensures Mix(a, x) == Mix(b, x) ==> a == b
    ensures Mix(a, x) == Mix(a, y) ==> x == y
  {
    MultiplicationIsInjective(XorByte(a, x), XorByte(b, x));
    MultiplicationIsInjective(XorByte(a, x), XorByte(a, y));
    XorByteIsInjective(a, b, x, y);
  }

  lemma {:induction false} ContinueIsInjective(a: u64, b: u64, text: Text)
    ensures Continue(a, text) == Continue(b, text) ==> a == b
    decreases |text|
  {
    if text != [] {
      ContinueIsInjective(Mix(a, text[0]), Mix(b, text[0]), text[1..]);
      MixIsInjective(a, b, text[0], text[0]);
    }
  }

  lemma {:induction false} ContinueAfter(hash: u64, before: Text, after: Text)
    ensures Continue(hash, before + after) == Continue(Continue(hash, before), after)
    decreases |before|
  {
    if before == [] {
      assert before + after == after;
    } else {
      ContinueAfter(Mix(hash, before[0]), before[1..], after);
      assert (before + after)[1..] == before[1..] + after;
    }
  }

  /** Changing any one byte of a text always changes its revision. */
  lemma OneByteEditChangesRevision(before: Text, x: Byte, y: Byte, after: Text)
    requires x != y
    ensures Continue(OFFSET_BASIS, before + [x] + after) != Continue(OFFSET_BASIS, before + [y] + after)
  {
    var hash := Continue(OFFSET_BASIS, before);
    ContinueAfter(OFFSET_BASIS, before + [x], after);
    ContinueAfter(OFFSET_BASIS, before + [y], after);
    ContinueAfter(OFFSET_BASIS, before, [x]);
    ContinueAfter(OFFSET_BASIS, before, [y]);
    assert Continue(hash, [x]) == Mix(hash, x) && Continue(hash, [y]) == Mix(hash, y);
    MixIsInjective(hash, hash, x, y);
    ContinueIsInjective(Mix(hash, x), Mix(hash, y), after);
  }
}
