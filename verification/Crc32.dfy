/** The log's CRC-32: the table-driven loop, the bit-by-bit polynomial it stands for, and what it detects. */
module Crc32 {

  const POLYNOMIAL: bv32 := 0xEDB88320

  // ---- Words ----

  function Xor(x: bv32, y: bv32): bv32 { x ^ y }
  function Widen(b: bv8): bv32 { b as bv32 }
  function Low(x: bv32): bv32 { x & 0xFF }
  function High(x: bv32): bv32 { x & 0xFFFFFF00 }
  function DropByte(x: bv32): bv32 { x >> 8 }
  function Half(x: bv32): bv32 { x >> 1 }
  predicate Odd(x: bv32) { x & 1 == 1 }

  // ---- Bit by bit (section 8 of RFC 1952) ----

  function BitStep(x: bv32): bv32 {
    if x & 1 == 1 then (x >> 1) ^ POLYNOMIAL else x >> 1
  }

  function BitSteps(n: nat, x: bv32): bv32 {
    if n == 0 then x else BitSteps(n - 1, BitStep(x))
  }

  // Absorb one byte: mix it into the low end, then run eight bit steps.
  function Absorb(crc: bv32, b: bv8): bv32 {
    BitSteps(8, Xor(crc, Widen(b)))
  }

  function Feed(crc: bv32, data: seq<bv8>): bv32
    decreases |data|
  {
    if data == [] then crc else Feed(Absorb(crc, data[0]), data[1..])
  }

  function Checksum(data: seq<bv8>): bv32 {
    Xor(Feed(0xFFFFFFFF, data), 0xFFFFFFFF)
  }

  // ---- Bit steps are linear and invertible ----

  lemma BitStepLinear(x: bv32, y: bv32)
    ensures BitStep(x ^ y) == BitStep(x) ^ BitStep(y)
  {
    ShiftXor(x, y);
    LowBitXor(x, y);
    if x & 1 == 1 && y & 1 == 1 {
      XorCancel(x >> 1, y >> 1, POLYNOMIAL);
    } else if x & 1 == 1 || y & 1 == 1 {
      XorMove(x >> 1, y >> 1, POLYNOMIAL);
    }
  }

  lemma ShiftXor(x: bv32, y: bv32)
    ensures (x ^ y) >> 1 == (x >> 1) ^ (y >> 1)
  {
  }

  lemma LowBitXor(x: bv32, y: bv32)
    ensures (x ^ y) & 1 == 1 <==> (x & 1 == 1) != (y & 1 == 1)
  {
  }

  lemma XorCancel(a: bv32, b: bv32, p: bv32)
    ensures (a ^ p) ^ (b ^ p) == a ^ b
  {
  }

  lemma XorMove(a: bv32, b: bv32, p: bv32)
    ensures (a ^ b) ^ p == (a ^ p) ^ b && (a ^ b) ^ p == a ^ (b ^ p)
  {
  }

  lemma XorStep(x: bv32, y: bv32)
    ensures BitStep(Xor(x, y)) == Xor(BitStep(x), BitStep(y))
  {
    hide BitStep;
    BitStepLinear(x, y);
  }

  // The polynomial has its top bit set, so the top bit of the result tells which branch was taken.
  lemma BitStepInjective(x: bv32, y: bv32)
    requires BitStep(x) == BitStep(y)
    ensures x == y
  {
  }

  lemma {:induction false} BitStepsLinear(n: nat, x: bv32, y: bv32)
    ensures BitSteps(n, Xor(x, y)) == Xor(BitSteps(n, x), BitSteps(n, y))
  {
    hide BitStep, Xor;
    if n > 0 {
      XorStep(x, y);
      BitStepsLinear(n - 1, BitStep(x), BitStep(y));
    }
  }

  lemma {:induction false} BitStepsInjective(n: nat, x: bv32, y: bv32)
    requires BitSteps(n, x) == BitSteps(n, y)
    ensures x == y
  {
    hide BitStep;
    if n > 0 {
      BitStepsInjective(n - 1, BitStep(x), BitStep(y));
      BitStepInjective(x, y);
    }
  }

  lemma {:induction false} BitStepsAdd(m: nat, n: nat, x: bv32)
    ensures BitSteps(m + n, x) == BitSteps(n, BitSteps(m, x))
  {
    hide BitStep;
    if m > 0 { BitStepsAdd(m - 1, n, BitStep(x)); }
  }

  // ---- Eight steps on a word whose low byte is clear are a shift ----

  // The low n bits of the word are clear, counted by halving.
  predicate Clear(n: nat, x: bv32) {
    n > 0 ==> !Odd(x) && Clear(n - 1, Half(x))
  }

  function Halve(n: nat, x: bv32): bv32 {
    if n == 0 then x else Halve(n - 1, Half(x))
  }

  lemma EvenStep(x: bv32)
    requires !Odd(x)
    ensures BitStep(x) == Half(x)
  {
  }

  lemma {:induction false} ClearSteps(n: nat, x: bv32)
    requires Clear(n, x)
    ensures BitSteps(n, x) == Halve(n, x)
  {
    hide BitStep, Half, Odd;
    if n > 0 {
      EvenStep(x);
      ClearSteps(n - 1, Half(x));
    }
  }

  lemma HalveFour(x: bv32)
    ensures Halve(4, x) == x >> 4
  {
    hide Half, Halve;
    HalveUnrolled(x);
    HalfFour(x);
  }

  lemma HalveUnrolled(x: bv32)
    ensures Halve(4, x) == Half(Half(Half(Half(x))))
    ensures Clear(4, x) <==> !Odd(x) && !Odd(Half(x)) && !Odd(Half(Half(x))) && !Odd(Half(Half(Half(x))))
  {
    hide Half, Odd;
    var a := Half(x); var b := Half(a); var c := Half(b); var d := Half(c);
    assert Halve(1, c) == d && Halve(2, b) == d && Halve(3, a) == d;
    assert Clear(1, c) <==> !Odd(c);
    assert Clear(2, b) <==> !Odd(b) && !Odd(c);
    assert Clear(3, a) <==> !Odd(a) && !Odd(b) && !Odd(c);
  }

  lemma HalfFour(x: bv32)
    ensures Half(Half(Half(Half(x)))) == x >> 4
  {
  }

  lemma NibbleBits(x: bv32)
    requires x & 0xF == 0
    ensures x & 1 != 1 && (x >> 1) & 1 != 1 && ((x >> 1) >> 1) & 1 != 1 && (((x >> 1) >> 1) >> 1) & 1 != 1
  {
  }

  lemma ClearNibble(x: bv32)
    requires x & 0xF == 0
    ensures Clear(4, x)
  {
    hide Clear;
    NibbleBits(x);
    HalveUnrolled(x);
  }

  lemma LowIsTwoNibbles(x: bv32)
    requires x & 0xFF == 0
    ensures x & 0xF == 0 && (x >> 4) & 0xF == 0 && (x >> 4) >> 4 == x >> 8
  {
  }

  lemma HighBytesShift(x: bv32)
    requires Low(x) == 0
    ensures BitSteps(8, x) == DropByte(x)
  {
    hide BitStep, BitSteps, Clear, Halve;
    LowIsTwoNibbles(x);
    var y := x >> 4;
    ClearNibble(x);
    ClearNibble(y);
    BitStepsAdd(4, 4, x);
    ClearSteps(4, x);
    ClearSteps(4, y);
    HalveFour(x);
    HalveFour(y);
  }

  // ---- The table-driven form ----

  // Looking the low byte up and shifting the rest is eight bit steps on the whole word.
  lemma TableStepIsAbsorb(crc: bv32, b: bv8)
    ensures Xor(DropByte(crc), BitSteps(8, Low(Xor(crc, Widen(b))))) == Absorb(crc, b)
  {
    hide BitSteps, BitStep, Xor, Widen, Low, High, DropByte;
    var x := Xor(crc, Widen(b));
    SplitLow(x);
    BitStepsLinear(8, High(x), Low(x));
    HighBytesShift(High(x));
    HighUntouched(crc, b);
  }

  lemma SplitLow(x: bv32)
    ensures Xor(High(x), Low(x)) == x && Low(High(x)) == 0
  {
  }

  lemma HighUntouched(crc: bv32, b: bv8)
    ensures DropByte(High(Xor(crc, Widen(b)))) == DropByte(crc)
  {
    HighUntouchedRaw(crc, b);
  }

  lemma HighUntouchedRaw(crc: bv32, b: bv8)
    ensures ((crc ^ (b as bv32)) & 0xFFFFFF00) >> 8 == crc >> 8
  {
  }

  lemma LowIndex(x: bv32)
    ensures 0 <= Low(x) as int < 256 && (Low(x) as int) as bv32 == Low(x)
  {
    assert Low(x) <= 255;
  }

  // wal.cpp init_crc32_table, the inner loop
  method TableEntry(start: bv32) returns (crc: bv32)
    ensures crc == BitSteps(8, start)
  {
    hide BitSteps;
    crc := start;
    var j := 0;
    while j < 8
      invariant 0 <= j <= 8
      invariant BitSteps(8 - j, crc) == BitSteps(8, start)
    {
      OneStep(8 - j, crc);
      if crc & 1 == 1 {
        crc := (crc >> 1) ^ POLYNOMIAL;
      } else {
        crc := crc >> 1;
      }
      j := j + 1;
    }
    OneStep(0, crc);
  }

  // wal.cpp init_crc32_table
  method InitTable() returns (table: array<bv32>)
    ensures fresh(table) && table.Length == 256
    ensures forall i :: 0 <= i < 256 ==> table[i] == BitSteps(8, i as bv32)
  {
    hide BitSteps;
    table := new bv32[256];
    var i := 0;
    while i < 256
      invariant 0 <= i <= 256
      invariant forall k :: 0 <= k < i ==> table[k] == BitSteps(8, k as bv32)
    {
      var crc := TableEntry(i as bv32);
      table[i] := crc;
      i := i + 1;
    }
  }

  lemma OneStep(n: nat, x: bv32)
    ensures BitSteps(n, x) == if n == 0 then x else BitSteps(n - 1, BitStep(x))
  {
  }

  lemma FeedStep(crc: bv32, data: seq<bv8>)
    requires data != []
    ensures Feed(crc, data) == Feed(Absorb(crc, data[0]), data[1..])
  {
  }

  // wal.cpp crc32_compute: the table-driven loop computes the bit-by-bit checksum.
  method Compute(table: array<bv32>, data: seq<bv8>) returns (crc: bv32)
    requires table.Length == 256 && forall i :: 0 <= i < 256 ==> table[i] == BitSteps(8, i as bv32)
    ensures crc == Checksum(data)
  {
    hide BitSteps, Xor, Widen, Low, DropByte, Absorb, Feed;
    crc := 0xFFFFFFFF;
    var i := 0;
    while i < |data|
      invariant 0 <= i <= |data|
      invariant Feed(crc, data[i..]) == Feed(0xFFFFFFFF, data)
    {
      var index := Low(Xor(crc, Widen(data[i])));
      LowIndex(Xor(crc, Widen(data[i])));
      TableStepIsAbsorb(crc, data[i]);
      FeedStep(crc, data[i..]);
      crc := Xor(DropByte(crc), table[index as int]);
      assert data[i..][1..] == data[i + 1..];
      i := i + 1;
    }
    FeedNothing(crc);
    crc := Xor(crc, 0xFFFFFFFF);
  }

  lemma FeedNothing(crc: bv32)
    ensures Feed(crc, []) == crc
  {
  }

  // ---- What the checksum detects ----

  lemma {:induction false} FeedConcat(crc: bv32, a: seq<bv8>, b: seq<bv8>)
    ensures Feed(crc, a + b) == Feed(Feed(crc, a), b)
    decreases |a|
  {
    hide Absorb;
    if a == [] {
      assert a + b == b;
    } else {
      FeedConcat(Absorb(crc, a[0]), a[1..], b);
      assert (a + b)[1..] == a[1..] + b;
    }
  }

  lemma XorInjective(x: bv32, y: bv32, z: bv32)
    requires Xor(x, z) == Xor(y, z) || Xor(z, x) == Xor(z, y)
    ensures x == y
  {
    XorInjectiveRaw(x, y, z);
  }

  lemma XorInjectiveRaw(x: bv32, y: bv32, z: bv32)
    ensures (x ^ z) ^ z == x && (y ^ z) ^ z == y && x ^ z == z ^ x && y ^ z == z ^ y
  {
  }

  // Equal input after different states leaves the states different.
  lemma {:induction false} FeedInjective(x: bv32, y: bv32, data: seq<bv8>)
    requires Feed(x, data) == Feed(y, data)
    ensures x == y
    decreases |data|
  {
    hide BitSteps, Xor, Widen;
    if data != [] {
      FeedInjective(Absorb(x, data[0]), Absorb(y, data[0]), data[1..]);
      BitStepsInjective(8, Xor(x, Widen(data[0])), Xor(y, Widen(data[0])));
      XorInjective(x, y, Widen(data[0]));
    }
  }

  // Up to four bytes read as one little-endian word.
  function Word(data: seq<bv8>): bv32 {
    if data == [] then 0 else Xor(Widen(data[0]), Raise(Word(data[1..])))
  }

  function Raise(x: bv32): bv32 { x << 8 }

  // The word fits below the given number of bytes.
  predicate Fits(x: bv32, bytes: nat) {
    if bytes == 0 then x == 0 else if bytes == 1 then x <= 0xFF else if bytes == 2 then x <= 0xFFFF
    else if bytes == 3 then x <= 0xFFFFFF else true
  }

  lemma FitsRaise(b: bv8, x: bv32, n: nat)
    requires n <= 3 && Fits(x, n)
    ensures Fits(Xor(Widen(b), Raise(x)), n + 1)
  {
  }

  lemma {:induction false} WordFits(data: seq<bv8>)
    requires |data| <= 4
    ensures Fits(Word(data), |data|)
  {
    hide Xor, Widen, Raise;
    if data != [] {
      WordFits(data[1..]);
      FitsRaise(data[0], Word(data[1..]), |data| - 1);
    }
  }

  lemma RaiseDrops(x: bv32)
    requires Fits(x, 3)
    ensures DropByte(Raise(x)) == x && Low(Raise(x)) == 0
  {
  }

  lemma WordParts(b: bv8, x: bv32)
    requires Fits(x, 3)
    ensures Low(Xor(Widen(b), Raise(x))) == Widen(b) && DropByte(Xor(Widen(b), Raise(x))) == x
  {
  }

  lemma FitsMore(x: bv32, n: nat)
    requires n <= 3 && Fits(x, n)
    ensures Fits(x, 3)
  {
  }

  lemma {:induction false} WordInjective(a: seq<bv8>, b: seq<bv8>)
    requires |a| == |b| <= 4 && Word(a) == Word(b)
    ensures a == b
  {
    hide Xor, Widen, Raise, Low, DropByte, Fits;
    if a != [] {
      var x, y := Word(a[1..]), Word(b[1..]);
      WordFits(a[1..]); FitsMore(x, |a| - 1);
      WordFits(b[1..]); FitsMore(y, |b| - 1);
      WordParts(a[0], x);
      WordParts(b[0], y);
      WordInjective(a[1..], b[1..]);
      WidenInjective(a[0], b[0]);
      assert a == [a[0]] + a[1..] && b == [b[0]] + b[1..];
    }
  }

  lemma WidenInjective(a: bv8, b: bv8)
    requires Widen(a) == Widen(b)
    ensures a == b
  {
  }

  // Absorbing up to four bytes is mixing in their word and running all the steps at once.
  lemma {:induction false} FeedWord(crc: bv32, data: seq<bv8>)
    requires |data| <= 4
    ensures Feed(crc, data) == BitSteps(8 * |data|, Xor(crc, Word(data)))
    decreases |data|
  {
    hide BitSteps, Xor, Widen, Raise, Low, DropByte, Fits;
    if data == [] {
      OneStep(0, Xor(crc, 0));
      XorZero(crc);
    } else {
      var rest := data[1..];
      var w, x := Word(rest), Xor(crc, Widen(data[0]));
      FeedWord(Absorb(crc, data[0]), rest);
      WordFits(rest); FitsMore(w, |rest|);
      RaiseDrops(w);
      HighBytesShift(Raise(w));
      BitStepsLinear(8, x, Raise(w));
      BitStepsAdd(8, 8 * |rest|, Xor(x, Raise(w)));
      XorAssoc(crc, Widen(data[0]), Raise(w));
    }
  }

  lemma XorZero(x: bv32)
    ensures Xor(x, 0) == x
  {
  }

  lemma XorAssoc(x: bv32, y: bv32, z: bv32)
    ensures Xor(Xor(x, y), z) == Xor(x, Xor(y, z))
  {
    XorMove(x, y, z);
  }

  // Any change confined to four consecutive bytes changes the checksum.
  lemma BurstDetected(before: seq<bv8>, a: seq<bv8>, b: seq<bv8>, after: seq<bv8>)
    requires |a| == |b| <= 4 && a != b
    ensures Checksum(before + a + after) != Checksum(before + b + after)
  {
    hide BitSteps, Xor, Word, Feed;
    var start := Feed(0xFFFFFFFF, before);
    FeedConcat(0xFFFFFFFF, before + a, after);
    FeedConcat(0xFFFFFFFF, before + b, after);
    FeedConcat(0xFFFFFFFF, before, a);
    FeedConcat(0xFFFFFFFF, before, b);
    FeedWord(start, a);
    FeedWord(start, b);
    if Checksum(before + a + after) == Checksum(before + b + after) {
      XorInjective(Feed(Feed(start, a), after), Feed(Feed(start, b), after), 0xFFFFFFFF);
      FeedInjective(Feed(start, a), Feed(start, b), after);
      BitStepsInjective(8 * |a|, Xor(start, Word(a)), Xor(start, Word(b)));
      XorInjective(Word(a), Word(b), start);
      WordInjective(a, b);
      assert false;
    }
  }

  // ---- The check value ----

  // The ASCII digits 1 to 9 have the checksum that catalogues of checksums list for this one.
  lemma CheckValue()
    ensures Checksum([0x31, 0x32, 0x33, 0x34, 0x35, 0x36, 0x37, 0x38, 0x39]) == 0xCBF43926
  {
    hide Absorb, Feed;
    var data: seq<bv8> := [0x31, 0x32, 0x33, 0x34, 0x35, 0x36, 0x37, 0x38, 0x39];
    FirstDigits();
    MiddleDigits();
    LastDigits();
    assert data == [0x31, 0x32, 0x33] + [0x34, 0x35, 0x36] + [0x37, 0x38, 0x39];
    FeedConcat(0xFFFFFFFF, [0x31, 0x32, 0x33] + [0x34, 0x35, 0x36], [0x37, 0x38, 0x39]);
    FeedConcat(0xFFFFFFFF, [0x31, 0x32, 0x33], [0x34, 0x35, 0x36]);
  }

  lemma ThreeBytes(crc: bv32, a: bv8, b: bv8, c: bv8)
    ensures Feed(crc, [a, b, c]) == Absorb(Absorb(Absorb(crc, a), b), c)
  {
    hide Absorb;
    assert [a, b, c][1..] == [b, c] && [b, c][1..] == [c] && [c][1..] == [];
    FeedStep(crc, [a, b, c]);
    FeedStep(Absorb(crc, a), [b, c]);
  }

  lemma FirstDigits()
    ensures Feed(0xFFFFFFFF, [0x31, 0x32, 0x33]) == 0x77B79C2D
  {
    ThreeBytes(0xFFFFFFFF, 0x31, 0x32, 0x33);
  }

  lemma MiddleDigits()
    ensures Feed(0x77B79C2D, [0x34, 0x35, 0x36]) == 0xF68D2C9E
  {
    ThreeBytes(0x77B79C2D, 0x34, 0x35, 0x36);
  }

  lemma LastDigits()
    ensures Feed(0xF68D2C9E, [0x37, 0x38, 0x39]) == 0x340BC6D9
  {
    ThreeBytes(0xF68D2C9E, 0x37, 0x38, 0x39);
  }
}
