/** CRC-32: tables of 256 remainders, a byte at a time, against division bit by bit
    (section 8.1.1.6.2 of ITU-T V.42). */
module Crc {
  /** Eight consecutive entries of a table. */
  datatype Row<T> = Row(e0: T, e1: T, e2: T, e3: T, e4: T, e5: T, e6: T, e7: T)

  function Pick<T>(r: Row<T>, k: bv8): T {
    if k == 0 then r.e0 else if k == 1 then r.e1 else if k == 2 then r.e2 else if k == 3 then r.e3
    else if k == 4 then r.e4 else if k == 5 then r.e5 else if k == 6 then r.e6 else r.e7
  }

  /** The row that a function tabulates. */
  function RowOf<T>(f: bv8 -> T, row: bv8): Row<T> {
    Row(f(row << 3), f((row << 3) | 1), f((row << 3) | 2), f((row << 3) | 3),
        f((row << 3) | 4), f((row << 3) | 5), f((row << 3) | 6), f((row << 3) | 7))
  }

  lemma LowThree(i: bv8)
    ensures i & 7 == 0 || i & 7 == 1 || i & 7 == 2 || i & 7 == 3 || i & 7 == 4 || i & 7 == 5 || i & 7 == 6 || i & 7 == 7
    ensures ((i >> 3) << 3) | (i & 7) == i
  {
  }

  lemma NoLow(x: bv8)
    ensures x | 0 == x
  {
  }

  lemma {:induction false} PickIs<T>(f: bv8 -> T, i: bv8)
    ensures Pick(RowOf(f, i >> 3), i & 7) == f(i)
  {
    LowThree(i);
    NoLow((i >> 3) << 3);
  }

  /** Eight bits. */
  datatype Octet = Octet(bits: bv8)

  function Xor(a: Octet, b: Octet): Octet {
    Octet(a.bits ^ b.bits)
  }

  lemma XorCancel(x: Octet, a: Octet, b: Octet)
    ensures Xor(x, a) == Xor(x, b) ==> a == b
    ensures Xor(a, x) == Xor(b, x) ==> a == b
  {
  }

  const Zero := Octet(0)

  /** 32 bits, the top byte first. */
  datatype Word = Word(b3: Octet, b2: Octet, b1: Octet, b0: Octet)

  lemma SameWord(w: Word, v: Word)
    ensures w.b3.bits == v.b3.bits && w.b2.bits == v.b2.bits && w.b1.bits == v.b1.bits && w.b0.bits == v.b0.bits ==> w == v
  {
  }

  function Split(x: bv32): Word {
    Word(Octet((x >> 24) as bv8), Octet(((x >> 16) & 0xff) as bv8), Octet(((x >> 8) & 0xff) as bv8), Octet((x & 0xff) as bv8))
  }

  function Reverse(w: Word): Word {
    Word(w.b0, w.b1, w.b2, w.b3)
  }

  type Table = Octet -> Word

  // ----- the table loop

  /** An entry combined with the state shifted right by a byte. */
  function Fold(entry: Word, crc: Word): Word {
    Word(Xor(entry.b3, Zero), Xor(entry.b2, crc.b3), Xor(entry.b1, crc.b2), Xor(entry.b0, crc.b1))
  }

  function Step(t: Table, crc: Word, b: Octet): Word {
    Fold(t(Xor(crc.b0, b)), crc)
  }

  function Run(t: Table, crc: Word, data: seq<Octet>): Word
    decreases |data|
  {
    if data == [] then crc else Run(t, Step(t, crc, data[0]), data[1..])
  }

  method GetCrc32(t: Table, initial: Word, data: seq<Octet>) returns (crc: Word)
    ensures crc == Run(t, initial, data)
  {
    crc := initial;
    var p := data;
    while p != []
      invariant Run(t, initial, data) == Run(t, crc, p)
      decreases |p|
    {
      crc, p := Step(t, crc, p[0]), p[1..];
    }
  }

  /** The checksum of a concatenation continues from the first part. */
  lemma {:induction false} Incremental(t: Table, crc: Word, a: seq<Octet>, b: seq<Octet>)
    ensures Run(t, crc, a + b) == Run(t, Run(t, crc, a), b)
    decreases |a|
  {
    if a == [] {
      assert a + b == b;
    } else {
      assert (a + b)[1..] == a[1..] + b;
      Incremental(t, Step(t, crc, a[0]), a[1..], b);
    }
  }

  // ----- bursts are detected

  /** The top `m` bytes are equal. */
  predicate Agree(r: Word, r': Word, m: nat) {
    && (m >= 1 ==> r.b3 == r'.b3) && (m >= 2 ==> r.b2 == r'.b2)
    && (m >= 3 ==> r.b1 == r'.b1) && (m >= 4 ==> r.b0 == r'.b0)
  }

  /** No two entries share their top byte. */
  ghost predicate TopDistinct(t: Table) {
    forall i, j :: t(i).b3 == t(j).b3 ==> i == j
  }

  /** When results of a step agree in some top bytes, they come from one entry, and the
      states agree in one top byte less. */
  lemma {:induction false} StepBack(t: Table, c: Word, b: Octet, c': Word, b': Octet, m: nat)
    requires TopDistinct(t) && 1 <= m <= 4 && Agree(Step(t, c, b), Step(t, c', b'), m)
    ensures Xor(c.b0, b) == Xor(c'.b0, b') && Agree(c, c', m - 1)
  {
    var x, y := t(Xor(c.b0, b)), t(Xor(c'.b0, b'));
    XorCancel(Zero, x.b3, y.b3);
    XorCancel(x.b2, c.b3, c'.b3);
    XorCancel(x.b1, c.b2, c'.b2);
    XorCancel(x.b0, c.b1, c'.b1);
  }

  /** Equal top bytes after some bytes are traced back to the state before them, each byte
      costing one; from one state, up to four bytes are determined by the result. */
  lemma {:induction false} RunBack(t: Table, c: Word, c': Word, xs: seq<Octet>, ys: seq<Octet>, m: nat)
    requires TopDistinct(t) && |xs| == |ys| <= m <= 4 && Agree(Run(t, c, xs), Run(t, c', ys), m)
    ensures Agree(c, c', m - |xs|)
    ensures c == c' ==> xs == ys
    decreases |xs|
  {
    if xs != [] {
      RunBack(t, Step(t, c, xs[0]), Step(t, c', ys[0]), xs[1..], ys[1..], m);
      StepBack(t, c, xs[0], c', ys[0], m - |xs| + 1);
      XorCancel(c.b0, xs[0], ys[0]);
      assert xs == [xs[0]] + xs[1..] && ys == [ys[0]] + ys[1..];
    }
  }

  /** Different states stay different under the same bytes. */
  lemma {:induction false} RunInjective(t: Table, c: Word, c': Word, data: seq<Octet>)
    requires TopDistinct(t) && Run(t, c, data) == Run(t, c', data)
    ensures c == c'
    decreases |data|
  {
    if data != [] {
      RunInjective(t, Step(t, c, data[0]), Step(t, c', data[0]), data[1..]);
      StepBack(t, c, data[0], c', data[0], 4);
      XorCancel(data[0], c.b0, c'.b0);
    }
  }

  /** Messages that differ only inside some four consecutive bytes have different
      checksums. */
  lemma {:induction false} BurstDetected(t: Table, crc: Word, before: seq<Octet>, xs: seq<Octet>,
                                         ys: seq<Octet>, after: seq<Octet>)
    requires TopDistinct(t) && |xs| == |ys| <= 4 && xs != ys
    ensures Run(t, crc, before + xs + after) != Run(t, crc, before + ys + after)
  {
    var c := Run(t, crc, before);
    Incremental(t, crc, before + xs, after);
    Incremental(t, crc, before, xs);
    Incremental(t, crc, before + ys, after);
    Incremental(t, crc, before, ys);
    if Run(t, crc, before + xs + after) == Run(t, crc, before + ys + after) {
      RunInjective(t, Run(t, c, xs), Run(t, c, ys), after);
      RunBack(t, c, c, xs, ys, 4);
    }
  }
}


/** Shift registers with linear feedback, over any group. */
module LinearRegister {
  function Iterate<T>(f: T -> T, c: T, n: nat): T {
    if n == 0 then c else Iterate(f, f(c), n - 1)
  }

  /** Feeds `n` bits of `y`, the leading one first. */
  function Feed<T>(step: (T, bool) -> T, lead: T -> bool, rest: T -> T, c: T, y: T, n: nat): T
    decreases n
  {
    if n == 0 then c else Feed(step, lead, rest, step(c, lead(y)), rest(y), n - 1)
  }

  lemma {:induction false} IteratePlus<T>(f: T -> T, plus: (T, T) -> T, a: T, b: T, n: nat)
    requires forall x, y :: f(plus(x, y)) == plus(f(x), f(y))
    ensures Iterate(f, plus(a, b), n) == plus(Iterate(f, a, n), Iterate(f, b, n))
    decreases n
  {
    if n > 0 {
      IteratePlus(f, plus, f(a), f(b), n - 1);
    }
  }

  /** Feeding bits one by one is adding them all to the register first. */
  lemma {:induction false} FeedPlus<T>(step: (T, bool) -> T, lead: T -> bool, rest: T -> T, f: T -> T,
                                        plus: (T, T) -> T, c: T, y: T, n: nat)
    requires forall x, z :: plus(step(x, lead(z)), rest(z)) == f(plus(x, z))
    ensures plus(Feed(step, lead, rest, c, y, n), Iterate(rest, y, n)) == Iterate(f, plus(c, y), n)
    decreases n
  {
    if n > 0 {
      FeedPlus(step, lead, rest, f, plus, step(c, lead(y)), rest(y), n - 1);
    }
  }

  lemma {:induction false} Eight<T>(f: T -> T, c: T)
    ensures Iterate(f, c, 8) == f(f(f(f(f(f(f(f(c))))))))
  {
    assert Iterate(f, c, 8) == Iterate(f, f(f(f(f(c)))), 4);
  }
}

/** The table of byte_crypto.cpp, which is also CRC_32_IEEE_LE. */
module CrcReflectedTable {
  import opened Crc

  /** The generator polynomial, lowest bit first. */
  const POLY: bv32 := 0xedb88320

  /** One bit of the message. */
  function BitStep(c: bv32, bit: bool): bv32 {
    (c >> 1) ^ if (c & 1 == 1) != bit then POLY else 0
  }

  function Shift1(c: bv32): bv32 {
    BitStep(c, false)
  }

  function Shift8(c: bv32): bv32 {
    Shift1(Shift1(Shift1(Shift1(Shift1(Shift1(Shift1(Shift1(c))))))))
  }

  function Serial8(i: bv8): bv32 {
    Shift8(i as bv32)
  }

  /** The table, eight entries a row. */
  function Rows(row: bv8): Row<bv32> {
    match row
    case 0 => Row(0x00000000, 0x77073096, 0xee0e612c, 0x990951ba, 0x076dc419, 0x706af48f, 0xe963a535, 0x9e6495a3)
    case 1 => Row(0x0edb8832, 0x79dcb8a4, 0xe0d5e91e, 0x97d2d988, 0x09b64c2b, 0x7eb17cbd, 0xe7b82d07, 0x90bf1d91)
    case 2 => Row(0x1db71064, 0x6ab020f2, 0xf3b97148, 0x84be41de, 0x1adad47d, 0x6ddde4eb, 0xf4d4b551, 0x83d385c7)
    case 3 => Row(0x136c9856, 0x646ba8c0, 0xfd62f97a, 0x8a65c9ec, 0x14015c4f, 0x63066cd9, 0xfa0f3d63, 0x8d080df5)
    case 4 => Row(0x3b6e20c8, 0x4c69105e, 0xd56041e4, 0xa2677172, 0x3c03e4d1, 0x4b04d447, 0xd20d85fd, 0xa50ab56b)
    case 5 => Row(0x35b5a8fa, 0x42b2986c, 0xdbbbc9d6, 0xacbcf940, 0x32d86ce3, 0x45df5c75, 0xdcd60dcf, 0xabd13d59)
    case 6 => Row(0x26d930ac, 0x51de003a, 0xc8d75180, 0xbfd06116, 0x21b4f4b5, 0x56b3c423, 0xcfba9599, 0xb8bda50f)
    case 7 => Row(0x2802b89e, 0x5f058808, 0xc60cd9b2, 0xb10be924, 0x2f6f7c87, 0x58684c11, 0xc1611dab, 0xb6662d3d)
    case 8 => Row(0x76dc4190, 0x01db7106, 0x98d220bc, 0xefd5102a, 0x71b18589, 0x06b6b51f, 0x9fbfe4a5, 0xe8b8d433)
    case 9 => Row(0x7807c9a2, 0x0f00f934, 0x9609a88e, 0xe10e9818, 0x7f6a0dbb, 0x086d3d2d, 0x91646c97, 0xe6635c01)
    case 10 => Row(0x6b6b51f4, 0x1c6c6162, 0x856530d8, 0xf262004e, 0x6c0695ed, 0x1b01a57b, 0x8208f4c1, 0xf50fc457)
    case 11 => Row(0x65b0d9c6, 0x12b7e950, 0x8bbeb8ea, 0xfcb9887c, 0x62dd1ddf, 0x15da2d49, 0x8cd37cf3, 0xfbd44c65)
    case 12 => Row(0x4db26158, 0x3ab551ce, 0xa3bc0074, 0xd4bb30e2, 0x4adfa541, 0x3dd895d7, 0xa4d1c46d, 0xd3d6f4fb)
    case 13 => Row(0x4369e96a, 0x346ed9fc, 0xad678846, 0xda60b8d0, 0x44042d73, 0x33031de5, 0xaa0a4c5f, 0xdd0d7cc9)
    case 14 => Row(0x5005713c, 0x270241aa, 0xbe0b1010, 0xc90c2086, 0x5768b525, 0x206f85b3, 0xb966d409, 0xce61e49f)
    case 15 => Row(0x5edef90e, 0x29d9c998, 0xb0d09822, 0xc7d7a8b4, 0x59b33d17, 0x2eb40d81, 0xb7bd5c3b, 0xc0ba6cad)
    case 16 => Row(0xedb88320, 0x9abfb3b6, 0x03b6e20c, 0x74b1d29a, 0xead54739, 0x9dd277af, 0x04db2615, 0x73dc1683)
    case 17 => Row(0xe3630b12, 0x94643b84, 0x0d6d6a3e, 0x7a6a5aa8, 0xe40ecf0b, 0x9309ff9d, 0x0a00ae27, 0x7d079eb1)
    case 18 => Row(0xf00f9344, 0x8708a3d2, 0x1e01f268, 0x6906c2fe, 0xf762575d, 0x806567cb, 0x196c3671, 0x6e6b06e7)
    case 19 => Row(0xfed41b76, 0x89d32be0, 0x10da7a5a, 0x67dd4acc, 0xf9b9df6f, 0x8ebeeff9, 0x17b7be43, 0x60b08ed5)
    case 20 => Row(0xd6d6a3e8, 0xa1d1937e, 0x38d8c2c4, 0x4fdff252, 0xd1bb67f1, 0xa6bc5767, 0x3fb506dd, 0x48b2364b)
    case 21 => Row(0xd80d2bda, 0xaf0a1b4c, 0x36034af6, 0x41047a60, 0xdf60efc3, 0xa867df55, 0x316e8eef, 0x4669be79)
    case 22 => Row(0xcb61b38c, 0xbc66831a, 0x256fd2a0, 0x5268e236, 0xcc0c7795, 0xbb0b4703, 0x220216b9, 0x5505262f)
    case 23 => Row(0xc5ba3bbe, 0xb2bd0b28, 0x2bb45a92, 0x5cb36a04, 0xc2d7ffa7, 0xb5d0cf31, 0x2cd99e8b, 0x5bdeae1d)
    case 24 => Row(0x9b64c2b0, 0xec63f226, 0x756aa39c, 0x026d930a, 0x9c0906a9, 0xeb0e363f, 0x72076785, 0x05005713)
    case 25 => Row(0x95bf4a82, 0xe2b87a14, 0x7bb12bae, 0x0cb61b38, 0x92d28e9b, 0xe5d5be0d, 0x7cdcefb7, 0x0bdbdf21)
    case 26 => Row(0x86d3d2d4, 0xf1d4e242, 0x68ddb3f8, 0x1fda836e, 0x81be16cd, 0xf6b9265b, 0x6fb077e1, 0x18b74777)
    case 27 => Row(0x88085ae6, 0xff0f6a70, 0x66063bca, 0x11010b5c, 0x8f659eff, 0xf862ae69, 0x616bffd3, 0x166ccf45)
    case 28 => Row(0xa00ae278, 0xd70dd2ee, 0x4e048354, 0x3903b3c2, 0xa7672661, 0xd06016f7, 0x4969474d, 0x3e6e77db)
    case 29 => Row(0xaed16a4a, 0xd9d65adc, 0x40df0b66, 0x37d83bf0, 0xa9bcae53, 0xdebb9ec5, 0x47b2cf7f, 0x30b5ffe9)
    case 30 => Row(0xbdbdf21c, 0xcabac28a, 0x53b39330, 0x24b4a3a6, 0xbad03605, 0xcdd70693, 0x54de5729, 0x23d967bf)
    case _ => Row(0xb3667a2e, 0xc4614ab8, 0x5d681b02, 0x2a6f2b94, 0xb40bbe37, 0xc30c8ea1, 0x5a05df1b, 0x2d02ef8d)
  }

  function Entry(i: bv8): bv32 {
    Pick(Rows(i >> 3), i & 7)
  }

  lemma Block0(row: bv8)
    requires 0 <= row < 4
    ensures Rows(row) == RowOf(Serial8, row)
  {
    match row
    case 0 =>
    case 1 =>
    case 2 =>
    case _ =>
  }

  lemma Block1(row: bv8)
    requires 4 <= row < 8
    ensures Rows(row) == RowOf(Serial8, row)
  {
    match row
    case 4 =>
    case 5 =>
    case 6 =>
    case _ =>
  }

  lemma Block2(row: bv8)
    requires 8 <= row < 12
    ensures Rows(row) == RowOf(Serial8, row)
  {
    match row
    case 8 =>
    case 9 =>
    case 10 =>
    case _ =>
  }

  lemma Block3(row: bv8)
    requires 12 <= row < 16
    ensures Rows(row) == RowOf(Serial8, row)
  {
    match row
    case 12 =>
    case 13 =>
    case 14 =>
    case _ =>
  }

  lemma Block4(row: bv8)
    requires 16 <= row < 20
    ensures Rows(row) == RowOf(Serial8, row)
  {
    match row
    case 16 =>
    case 17 =>
    case 18 =>
    case _ =>
  }

  lemma Block5(row: bv8)
    requires 20 <= row < 24
    ensures Rows(row) == RowOf(Serial8, row)
  {
    match row
    case 20 =>
    case 21 =>
    case 22 =>
    case _ =>
  }

  lemma Block6(row: bv8)
    requires 24 <= row < 28
    ensures Rows(row) == RowOf(Serial8, row)
  {
    match row
    case 24 =>
    case 25 =>
    case 26 =>
    case _ =>
  }

  lemma Block7(row: bv8)
    requires 28 <= row < 32
    ensures Rows(row) == RowOf(Serial8, row)
  {
    match row
    case 28 =>
    case 29 =>
    case 30 =>
    case _ =>
  }

  /** Every entry is the remainder of its index. */
  lemma EntryIs(i: bv8)
    ensures Entry(i) == Serial8(i)
  {
    var row := i >> 3;
    assert row < 32;
    if row < 4 {
      Block0(row);
    } else if row < 8 {
      Block1(row);
    } else if row < 12 {
      Block2(row);
    } else if row < 16 {
      Block3(row);
    } else if row < 20 {
      Block4(row);
    } else if row < 24 {
      Block5(row);
    } else if row < 28 {
      Block6(row);
    } else {
      Block7(row);
    }
    PickIs(Serial8, i);
  }
}

/** The CRC with the lowest bit of each byte first. */
module CrcReflected {
  import opened Crc
  import opened LinearRegister
  import opened CrcReflectedTable

  function Lead(y: bv32): bool {
    y & 1 == 1
  }

  function Rest(y: bv32): bv32 {
    y >> 1
  }

  function Plus(a: bv32, b: bv32): bv32 {
    a ^ b
  }

  function Bits(c: bv32, y: bv32): bv32 {
    Feed(BitStep, Lead, Rest, c, y, 8)
  }

  /** The message bit by bit, each byte from its lowest bit on. */
  function Serial(c: bv32, data: seq<Octet>): bv32
    decreases |data|
  {
    if data == [] then c else Serial(Bits(c, data[0].bits as bv32), data[1..])
  }

  lemma Halves(a: bv32, b: bv32)
    ensures (a & 1 == 0 || a & 1 == 1) && (b & 1 == 0 || b & 1 == 1)
    ensures (a ^ b) & 1 == (a & 1) ^ (b & 1)
    ensures (a ^ b) >> 1 == (a >> 1) ^ (b >> 1)
  {
  }

  lemma Rearrange(a: bv32, b: bv32, p: bv32)
    ensures (a ^ b) ^ p == (a ^ p) ^ b
    ensures (a ^ b) ^ p == a ^ (b ^ p)
    ensures (a ^ p) ^ (b ^ p) == a ^ b
  {
  }

  lemma ShiftPlus(a: bv32, b: bv32)
    ensures Shift1(a ^ b) == Shift1(a) ^ Shift1(b)
  {
    Halves(a, b);
    Rearrange(a >> 1, b >> 1, POLY);
    Rearrange(a >> 1, b >> 1, 0);
  }

  lemma StepPlus(c: bv32, y: bv32)
    ensures BitStep(c, Lead(y)) ^ Rest(y) == Shift1(c ^ y)
  {
    Halves(c, y);
    Rearrange(c >> 1, y >> 1, POLY);
    Rearrange(c >> 1, y >> 1, 0);
  }

  lemma LinearShift(a: bv32, b: bv32)
    ensures Iterate(Shift1, Plus(a, b), 8) == Plus(Iterate(Shift1, a, 8), Iterate(Shift1, b, 8))
  {
    forall x, y
      ensures Shift1(Plus(x, y)) == Plus(Shift1(x), Shift1(y))
    {
      ShiftPlus(x, y);
    }
    IteratePlus(Shift1, Plus, a, b, 8);
  }

  lemma BitsPlus(c: bv32, y: bv32)
    ensures Plus(Bits(c, y), Iterate(Rest, y, 8)) == Iterate(Shift1, Plus(c, y), 8)
  {
    forall x, z
      ensures Plus(BitStep(x, Lead(z)), Rest(z)) == Shift1(Plus(x, z))
    {
      StepPlus(x, z);
    }
    FeedPlus(BitStep, Lead, Rest, Shift1, Plus, c, y, 8);
  }

  /** A byte has eight bits. */
  lemma NothingLeft(b: bv8)
    ensures Iterate(Rest, b as bv32, 8) == 0
  {
    Eight(Rest, b as bv32);
  }

  /** Without ones in the leading byte there is no feedback. */
  lemma NoFeedback(c: bv32)
    ensures Iterate(Shift1, (c >> 8) << 8, 8) == c >> 8
  {
    Eight(Shift1, (c >> 8) << 8);
  }

  lemma Parts(c: bv32, b: bv8)
    ensures Plus(c, b as bv32) == Plus(((c & 0xff) as bv8 ^ b) as bv32, (c >> 8) << 8)
  {
  }

  lemma NoPlus(x: bv32)
    ensures Plus(x, 0) == x
  {
  }

  lemma BitsShift(c: bv32, b: bv8)
    ensures Bits(c, b as bv32) == Iterate(Shift1, Plus(c, b as bv32), 8)
  {
    BitsPlus(c, b as bv32);
    NothingLeft(b);
    NoPlus(Bits(c, b as bv32));
  }

  /** The leading byte of the register, combined with one of the message. */
  function Index(c: bv32, b: bv8): bv8 {
    (c & 0xff) as bv8 ^ b
  }

  /** The remainder of one byte. */
  function Remainder(i: bv8): bv32 {
    Iterate(Shift1, i as bv32, 8)
  }

  lemma PartsShift(c: bv32, b: bv8)
    ensures Iterate(Shift1, Plus(c, b as bv32), 8)
         == Plus(Iterate(Shift1, ((c & 0xff) as bv8 ^ b) as bv32, 8), Iterate(Shift1, (c >> 8) << 8, 8))
  {
    Parts(c, b);
    LinearShift(((c & 0xff) as bv8 ^ b) as bv32, (c >> 8) << 8);
  }

  /** Eight bits in series are one look into the table of remainders. */
  lemma ByteStep(c: bv32, b: bv8)
    ensures Bits(c, b as bv32) == Plus(Remainder(Index(c, b)), c >> 8)
  {
    NoFeedback(c);
    BitsShift(c, b);
    PartsShift(c, b);
  }

  /** The table as the loop uses it. */
  function Reflected(i: Octet): Word {
    Split(Entry(i.bits))
  }

  lemma ReflectedIs(i: Octet)
    ensures Reflected(i) == Split(Remainder(i.bits))
  {
    EntryIs(i.bits);
    Eight(Shift1, i.bits as bv32);
  }

  lemma SplitXor(e: bv32, c: bv32)
    ensures ((e ^ (c >> 8)) >> 24) as bv8 == (e >> 24) as bv8 ^ 0
    ensures (((e ^ (c >> 8)) >> 16) & 0xff) as bv8 == ((e >> 16) & 0xff) as bv8 ^ (c >> 24) as bv8
    ensures (((e ^ (c >> 8)) >> 8) & 0xff) as bv8 == ((e >> 8) & 0xff) as bv8 ^ ((c >> 16) & 0xff) as bv8
    ensures ((e ^ (c >> 8)) & 0xff) as bv8 == (e & 0xff) as bv8 ^ ((c >> 8) & 0xff) as bv8
  {
  }

  lemma SplitFold(e: bv32, c: bv32)
    ensures Split(Plus(e, c >> 8)) == Fold(Split(e), Split(c))
  {
    SplitXor(e, c);
    SameWord(Split(e ^ (c >> 8)), Fold(Split(e), Split(c)));
  }

  lemma StepAt(c: bv32, b: Octet)
    ensures Step(Reflected, Split(c), b) == Fold(Split(Remainder(Index(c, b.bits))), Split(c))
  {
    var i := Octet(Index(c, b.bits));
    assert Xor(Split(c).b0, b) == i;
    ReflectedIs(i);
  }

  /** One turn of the loop divides by eight more bits. */
  lemma StepIsSerial(c: bv32, b: Octet)
    ensures Step(Reflected, Split(c), b) == Split(Bits(c, b.bits as bv32))
  {
    StepAt(c, b);
    SplitFold(Remainder(Index(c, b.bits)), c);
    ByteStep(c, b.bits);
  }

  /** The table loop is the bit-serial CRC, for every message. */
  lemma {:induction false} RunIsSerial(c: bv32, data: seq<Octet>)
    ensures Run(Reflected, Split(c), data) == Split(Serial(c, data))
    decreases |data|
  {
    if data != [] {
      StepIsSerial(c, data[0]);
      RunIsSerial(Bits(c, data[0].bits as bv32), data[1..]);
    }
  }

  lemma TopZero(d: bv32)
    requires d < 256 && Iterate(Shift1, d, 8) >> 24 == 0
    ensures d == 0
  {
    Eight(Shift1, d);
  }

  lemma XorTop(x: bv32, y: bv32)
    requires (x >> 24) as bv8 == (y >> 24) as bv8
    ensures Plus(x, y) >> 24 == 0
  {
  }

  lemma XorZero(i: bv8, j: bv8)
    ensures Plus(i as bv32, j as bv32) == 0 ==> i == j
    ensures Plus(i as bv32, j as bv32) < 256
  {
  }

  lemma DistinctTop(i: bv8, j: bv8)
    requires (Remainder(i) >> 24) as bv8 == (Remainder(j) >> 24) as bv8
    ensures i == j
  {
    LinearShift(i as bv32, j as bv32);
    XorTop(Remainder(i), Remainder(j));
    XorZero(i, j);
    TopZero(Plus(i as bv32, j as bv32));
  }

  lemma DistinctEntries(i: Octet, j: Octet)
    requires Reflected(i).b3 == Reflected(j).b3
    ensures i == j
  {
    ReflectedIs(i);
    ReflectedIs(j);
    DistinctTop(i.bits, j.bits);
    assert i == Octet(i.bits) && j == Octet(j.bits);
  }

  /** No two entries of the table share their top byte, so bursts are detected. */
  lemma {:induction false} ReflectedBurst(crc: Word, before: seq<Octet>, xs: seq<Octet>, ys: seq<Octet>,
                                          after: seq<Octet>)
    requires |xs| == |ys| <= 4 && xs != ys
    ensures Run(Reflected, crc, before + xs + after) != Run(Reflected, crc, before + ys + after)
  {
    forall i: Octet, j: Octet | Reflected(i).b3 == Reflected(j).b3
      ensures i == j
    {
      DistinctEntries(i, j);
    }
    BurstDetected(Reflected, crc, before, xs, ys, after);
  }

  const Ones: bv32 := 0xffffffff

  function Flip(w: Word): Word {
    Word(Xor(w.b3, Octet(0xff)), Xor(w.b2, Octet(0xff)), Xor(w.b1, Octet(0xff)), Xor(w.b0, Octet(0xff)))
  }

  lemma FlipBytes(x: bv32)
    ensures ((x ^ 0xffffffff) >> 24) as bv8 == (x >> 24) as bv8 ^ 0xff
    ensures (((x ^ 0xffffffff) >> 16) & 0xff) as bv8 == ((x >> 16) & 0xff) as bv8 ^ 0xff
    ensures (((x ^ 0xffffffff) >> 8) & 0xff) as bv8 == ((x >> 8) & 0xff) as bv8 ^ 0xff
    ensures ((x ^ 0xffffffff) & 0xff) as bv8 == (x & 0xff) as bv8 ^ 0xff
  {
  }

  lemma FlipIs(x: bv32)
    ensures Flip(Split(x)) == Split(Plus(x, Ones))
  {
    FlipBytes(x);
    SameWord(Flip(Split(x)), Split(Plus(x, Ones)));
  }

  /** Over a whole message, from all ones, complemented at the end. */
  method GetMessageCrc32(data: seq<Octet>) returns (crc: Word)
    ensures crc == Split(Plus(Serial(0xffffffff, data), 0xffffffff))
  {
    var sum := GetCrc32(Reflected, Split(Ones), data);
    RunIsSerial(Ones, data);
    FlipIs(Serial(Ones, data));
    crc := Flip(sum);
  }
}

/** The table CRC_32_IEEE of crc.cpp. */
module CrcSwappedTable {
  import opened Crc

  /** The generator polynomial, highest bit first. */
  const POLY: bv32 := 0x04c11db7

  /** One bit of the message. */
  function BitStep(c: bv32, bit: bool): bv32 {
    (c << 1) ^ if (c >> 31 == 1) != bit then POLY else 0
  }

  function Shift1(c: bv32): bv32 {
    BitStep(c, false)
  }

  function Shift8(c: bv32): bv32 {
    Shift1(Shift1(Shift1(Shift1(Shift1(Shift1(Shift1(Shift1(c))))))))
  }

  function Swap(x: bv32): bv32 {
    ((x & 0xff) << 24) | ((x & 0xff00) << 8) | ((x >> 8) & 0xff00) | (x >> 24)
  }

  function Serial8(i: bv8): bv32 {
    Swap(Shift8(i as bv32 << 24))
  }

  /** The table, eight entries a row. */
  function Rows(row: bv8): Row<bv32> {
    match row
    case 0 => Row(0x00000000, 0xb71dc104, 0x6e3b8209, 0xd926430d, 0xdc760413, 0x6b6bc517, 0xb24d861a, 0x0550471e)
    case 1 => Row(0xb8ed0826, 0x0ff0c922, 0xd6d68a2f, 0x61cb4b2b, 0x649b0c35, 0xd386cd31, 0x0aa08e3c, 0xbdbd4f38)
    case 2 => Row(0x70db114c, 0xc7c6d048, 0x1ee09345, 0xa9fd5241, 0xacad155f, 0x1bb0d45b, 0xc2969756, 0x758b5652)
    case 3 => Row(0xc836196a, 0x7f2bd86e, 0xa60d9b63, 0x11105a67, 0x14401d79, 0xa35ddc7d, 0x7a7b9f70, 0xcd665e74)
    case 4 => Row(0xe0b62398, 0x57abe29c, 0x8e8da191, 0x39906095, 0x3cc0278b, 0x8bdde68f, 0x52fba582, 0xe5e66486)
    case 5 => Row(0x585b2bbe, 0xef46eaba, 0x3660a9b7, 0x817d68b3, 0x842d2fad, 0x3330eea9, 0xea16ada4, 0x5d0b6ca0)
    case 6 => Row(0x906d32d4, 0x2770f3d0, 0xfe56b0dd, 0x494b71d9, 0x4c1b36c7, 0xfb06f7c3, 0x2220b4ce, 0x953d75ca)
    case 7 => Row(0x28803af2, 0x9f9dfbf6, 0x46bbb8fb, 0xf1a679ff, 0xf4f63ee1, 0x43ebffe5, 0x9acdbce8, 0x2dd07dec)
    case 8 => Row(0x77708634, 0xc06d4730, 0x194b043d, 0xae56c539, 0xab068227, 0x1c1b4323, 0xc53d002e, 0x7220c12a)
    case 9 => Row(0xcf9d8e12, 0x78804f16, 0xa1a60c1b, 0x16bbcd1f, 0x13eb8a01, 0xa4f64b05, 0x7dd00808, 0xcacdc90c)
    case 10 => Row(0x07ab9778, 0xb0b6567c, 0x69901571, 0xde8dd475, 0xdbdd936b, 0x6cc0526f, 0xb5e61162, 0x02fbd066)
    case 11 => Row(0xbf469f5e, 0x085b5e5a, 0xd17d1d57, 0x6660dc53, 0x63309b4d, 0xd42d5a49, 0x0d0b1944, 0xba16d840)
    case 12 => Row(0x97c6a5ac, 0x20db64a8, 0xf9fd27a5, 0x4ee0e6a1, 0x4bb0a1bf, 0xfcad60bb, 0x258b23b6, 0x9296e2b2)
    case 13 => Row(0x2f2bad8a, 0x98366c8e, 0x41102f83, 0xf60dee87, 0xf35da999, 0x4440689d, 0x9d662b90, 0x2a7bea94)
    case 14 => Row(0xe71db4e0, 0x500075e4, 0x892636e9, 0x3e3bf7ed, 0x3b6bb0f3, 0x8c7671f7, 0x555032fa, 0xe24df3fe)
    case 15 => Row(0x5ff0bcc6, 0xe8ed7dc2, 0x31cb3ecf, 0x86d6ffcb, 0x8386b8d5, 0x349b79d1, 0xedbd3adc, 0x5aa0fbd8)
    case 16 => Row(0xeee00c69, 0x59fdcd6d, 0x80db8e60, 0x37c64f64, 0x3296087a, 0x858bc97e, 0x5cad8a73, 0xebb04b77)
    case 17 => Row(0x560d044f, 0xe110c54b, 0x38368646, 0x8f2b4742, 0x8a7b005c, 0x3d66c158, 0xe4408255, 0x535d4351)
    case 18 => Row(0x9e3b1d25, 0x2926dc21, 0xf0009f2c, 0x471d5e28, 0x424d1936, 0xf550d832, 0x2c769b3f, 0x9b6b5a3b)
    case 19 => Row(0x26d61503, 0x91cbd407, 0x48ed970a, 0xfff0560e, 0xfaa01110, 0x4dbdd014, 0x949b9319, 0x2386521d)
    case 20 => Row(0x0e562ff1, 0xb94beef5, 0x606dadf8, 0xd7706cfc, 0xd2202be2, 0x653deae6, 0xbc1ba9eb, 0x0b0668ef)
    case 21 => Row(0xb6bb27d7, 0x01a6e6d3, 0xd880a5de, 0x6f9d64da, 0x6acd23c4, 0xddd0e2c0, 0x04f6a1cd, 0xb3eb60c9)
    case 22 => Row(0x7e8d3ebd, 0xc990ffb9, 0x10b6bcb4, 0xa7ab7db0, 0xa2fb3aae, 0x15e6fbaa, 0xccc0b8a7, 0x7bdd79a3)
    case 23 => Row(0xc660369b, 0x717df79f, 0xa85bb492, 0x1f467596, 0x1a163288, 0xad0bf38c, 0x742db081, 0xc3307185)
    case 24 => Row(0x99908a5d, 0x2e8d4b59, 0xf7ab0854, 0x40b6c950, 0x45e68e4e, 0xf2fb4f4a, 0x2bdd0c47, 0x9cc0cd43)
    case 25 => Row(0x217d827b, 0x9660437f, 0x4f460072, 0xf85bc176, 0xfd0b8668, 0x4a16476c, 0x93300461, 0x242dc565)
    case 26 => Row(0xe94b9b11, 0x5e565a15, 0x87701918, 0x306dd81c, 0x353d9f02, 0x82205e06, 0x5b061d0b, 0xec1bdc0f)
    case 27 => Row(0x51a69337, 0xe6bb5233, 0x3f9d113e, 0x8880d03a, 0x8dd09724, 0x3acd5620, 0xe3eb152d, 0x54f6d429)
    case 28 => Row(0x7926a9c5, 0xce3b68c1, 0x171d2bcc, 0xa000eac8, 0xa550add6, 0x124d6cd2, 0xcb6b2fdf, 0x7c76eedb)
    case 29 => Row(0xc1cba1e3, 0x76d660e7, 0xaff023ea, 0x18ede2ee, 0x1dbda5f0, 0xaaa064f4, 0x738627f9, 0xc49be6fd)
    case 30 => Row(0x09fdb889, 0xbee0798d, 0x67c63a80, 0xd0dbfb84, 0xd58bbc9a, 0x62967d9e, 0xbbb03e93, 0x0cadff97)
    case _ => Row(0xb110b0af, 0x060d71ab, 0xdf2b32a6, 0x6836f3a2, 0x6d66b4bc, 0xda7b75b8, 0x035d36b5, 0xb440f7b1)
  }

  function Entry(i: bv8): bv32 {
    Pick(Rows(i >> 3), i & 7)
  }

  lemma Block0(row: bv8)
    requires 0 <= row < 4
    ensures Rows(row) == RowOf(Serial8, row)
  {
    match row
    case 0 =>
    case 1 =>
    case 2 =>
    case _ =>
  }

  lemma Block1(row: bv8)
    requires 4 <= row < 8
    ensures Rows(row) == RowOf(Serial8, row)
  {
    match row
    case 4 =>
    case 5 =>
    case 6 =>
    case _ =>
  }

  lemma Block2(row: bv8)
    requires 8 <= row < 12
    ensures Rows(row) == RowOf(Serial8, row)
  {
    match row
    case 8 =>
    case 9 =>
    case 10 =>
    case _ =>
  }

  lemma Block3(row: bv8)
    requires 12 <= row < 16
    ensures Rows(row) == RowOf(Serial8, row)
  {
    match row
    case 12 =>
    case 13 =>
    case 14 =>
    case _ =>
  }

  lemma Block4(row: bv8)
    requires 16 <= row < 20
    ensures Rows(row) == RowOf(Serial8, row)
  {
    match row
    case 16 =>
    case 17 =>
    case 18 =>
    case _ =>
  }

  lemma Block5(row: bv8)
    requires 20 <= row < 24
    ensures Rows(row) == RowOf(Serial8, row)
  {
    match row
    case 20 =>
    case 21 =>
    case 22 =>
    case _ =>
  }

  lemma Block6(row: bv8)
    requires 24 <= row < 28
    ensures Rows(row) == RowOf(Serial8, row)
  {
    match row
    case 24 =>
    case 25 =>
    case 26 =>
    case _ =>
  }

  lemma Block7(row: bv8)
    requires 28 <= row < 32
    ensures Rows(row) == RowOf(Serial8, row)
  {
    match row
    case 28 =>
    case 29 =>
    case 30 =>
    case _ =>
  }

  /** Every entry is the remainder of its index. */
  lemma EntryIs(i: bv8)
    ensures Entry(i) == Serial8(i)
  {
    var row := i >> 3;
    assert row < 32;
    if row < 4 {
      Block0(row);
    } else if row < 8 {
      Block1(row);
    } else if row < 12 {
      Block2(row);
    } else if row < 16 {
      Block3(row);
    } else if row < 20 {
      Block4(row);
    } else if row < 24 {
      Block5(row);
    } else if row < 28 {
      Block6(row);
    } else {
      Block7(row);
    }
    PickIs(Serial8, i);
  }
}

/** The CRC with the highest bit of each byte first, kept with its bytes reversed. */
module CrcSwapped {
  import opened Crc
  import opened LinearRegister
  import opened CrcSwappedTable

  function Lead(y: bv32): bool {
    y >> 31 == 1
  }

  function Rest(y: bv32): bv32 {
    y << 1
  }

  function Plus(a: bv32, b: bv32): bv32 {
    a ^ b
  }

  function Bits(c: bv32, y: bv32): bv32 {
    Feed(BitStep, Lead, Rest, c, y, 8)
  }

  /** The message bit by bit, each byte from its highest bit on. */
  function Serial(c: bv32, data: seq<Octet>): bv32
    decreases |data|
  {
    if data == [] then c else Serial(Bits(c, data[0].bits as bv32 << 24), data[1..])
  }

  lemma Halves(a: bv32, b: bv32)
    ensures (a >> 31 == 0 || a >> 31 == 1) && (b >> 31 == 0 || b >> 31 == 1)
    ensures (a ^ b) >> 31 == (a >> 31) ^ (b >> 31)
    ensures (a ^ b) << 1 == (a << 1) ^ (b << 1)
  {
  }

  lemma Rearrange(a: bv32, b: bv32, p: bv32)
    ensures (a ^ b) ^ p == (a ^ p) ^ b
    ensures (a ^ b) ^ p == a ^ (b ^ p)
    ensures (a ^ p) ^ (b ^ p) == a ^ b
  {
  }

  lemma ShiftPlus(a: bv32, b: bv32)
    ensures Shift1(a ^ b) == Shift1(a) ^ Shift1(b)
  {
    Halves(a, b);
    Rearrange(a << 1, b << 1, POLY);
    Rearrange(a << 1, b << 1, 0);
  }

  lemma StepPlus(c: bv32, y: bv32)
    ensures BitStep(c, Lead(y)) ^ Rest(y) == Shift1(c ^ y)
  {
    Halves(c, y);
    Rearrange(c << 1, y << 1, POLY);
    Rearrange(c << 1, y << 1, 0);
  }

  lemma LinearShift(a: bv32, b: bv32)
    ensures Iterate(Shift1, Plus(a, b), 8) == Plus(Iterate(Shift1, a, 8), Iterate(Shift1, b, 8))
  {
    forall x, y
      ensures Shift1(Plus(x, y)) == Plus(Shift1(x), Shift1(y))
    {
      ShiftPlus(x, y);
    }
    IteratePlus(Shift1, Plus, a, b, 8);
  }

  lemma BitsPlus(c: bv32, y: bv32)
    ensures Plus(Bits(c, y), Iterate(Rest, y, 8)) == Iterate(Shift1, Plus(c, y), 8)
  {
    forall x, z
      ensures Plus(BitStep(x, Lead(z)), Rest(z)) == Shift1(Plus(x, z))
    {
      StepPlus(x, z);
    }
    FeedPlus(BitStep, Lead, Rest, Shift1, Plus, c, y, 8);
  }

  /** A byte has eight bits. */
  lemma NothingLeft(b: bv8)
    ensures Iterate(Rest, b as bv32 << 24, 8) == 0
  {
    Eight(Rest, b as bv32 << 24);
  }

  /** Without ones in the leading byte there is no feedback. */
  lemma NoFeedback(c: bv32)
    ensures Iterate(Shift1, (c << 8) >> 8, 8) == c << 8
  {
    Eight(Shift1, (c << 8) >> 8);
  }

  lemma Parts(c: bv32, b: bv8)
    ensures Plus(c, b as bv32 << 24) == Plus(((c >> 24) as bv8 ^ b) as bv32 << 24, (c << 8) >> 8)
  {
  }

  lemma NoPlus(x: bv32)
    ensures Plus(x, 0) == x
  {
  }

  lemma BitsShift(c: bv32, b: bv8)
    ensures Bits(c, b as bv32 << 24) == Iterate(Shift1, Plus(c, b as bv32 << 24), 8)
  {
    BitsPlus(c, b as bv32 << 24);
    NothingLeft(b);
    NoPlus(Bits(c, b as bv32 << 24));
  }

  /** The leading byte of the register, combined with one of the message. */
  function Index(c: bv32, b: bv8): bv8 {
    (c >> 24) as bv8 ^ b
  }

  /** The remainder of one byte. */
  function Remainder(i: bv8): bv32 {
    Iterate(Shift1, i as bv32 << 24, 8)
  }

  lemma PartsShift(c: bv32, b: bv8)
    ensures Iterate(Shift1, Plus(c, b as bv32 << 24), 8)
         == Plus(Iterate(Shift1, ((c >> 24) as bv8 ^ b) as bv32 << 24, 8), Iterate(Shift1, (c << 8) >> 8, 8))
  {
    Parts(c, b);
    LinearShift(((c >> 24) as bv8 ^ b) as bv32 << 24, (c << 8) >> 8);
  }

  /** Eight bits in series are one look into the table of remainders. */
  lemma ByteStep(c: bv32, b: bv8)
    ensures Bits(c, b as bv32 << 24) == Plus(Remainder(Index(c, b)), c << 8)
  {
    NoFeedback(c);
    BitsShift(c, b);
    PartsShift(c, b);
  }

  /** The table as the loop uses it. */
  function Ieee(i: Octet): Word {
    Split(Entry(i.bits))
  }

  /** The register, bytes reversed. */
  function Swapped(c: bv32): Word {
    Reverse(Split(c))
  }

  lemma SwapSplit(x: bv32)
    ensures Split(Swap(x)) == Swapped(x)
  {
  }

  lemma IeeeIs(i: Octet)
    ensures Ieee(i) == Swapped(Remainder(i.bits))
  {
    EntryIs(i.bits);
    Eight(Shift1, i.bits as bv32 << 24);
    SwapSplit(Remainder(i.bits));
  }

  lemma SplitXor(e: bv32, c: bv32)
    ensures ((e ^ (c << 8)) & 0xff) as bv8 == (e & 0xff) as bv8 ^ 0
    ensures (((e ^ (c << 8)) >> 8) & 0xff) as bv8 == ((e >> 8) & 0xff) as bv8 ^ (c & 0xff) as bv8
    ensures (((e ^ (c << 8)) >> 16) & 0xff) as bv8 == ((e >> 16) & 0xff) as bv8 ^ ((c >> 8) & 0xff) as bv8
    ensures ((e ^ (c << 8)) >> 24) as bv8 == (e >> 24) as bv8 ^ ((c >> 16) & 0xff) as bv8
  {
  }

  lemma SplitFold(e: bv32, c: bv32)
    ensures Swapped(Plus(e, c << 8)) == Fold(Swapped(e), Swapped(c))
  {
    SplitXor(e, c);
    SameWord(Swapped(e ^ (c << 8)), Fold(Swapped(e), Swapped(c)));
  }

  lemma StepAt(c: bv32, b: Octet)
    ensures Step(Ieee, Swapped(c), b) == Fold(Swapped(Remainder(Index(c, b.bits))), Swapped(c))
  {
    var i := Octet(Index(c, b.bits));
    assert Xor(Swapped(c).b0, b) == i;
    IeeeIs(i);
  }

  /** One turn of the loop divides by eight more bits. */
  lemma StepIsSerial(c: bv32, b: Octet)
    ensures Step(Ieee, Swapped(c), b) == Swapped(Bits(c, b.bits as bv32 << 24))
  {
    StepAt(c, b);
    SplitFold(Remainder(Index(c, b.bits)), c);
    ByteStep(c, b.bits);
  }

  /** The table loop is the bit-serial CRC with its bytes reversed, for every message. */
  lemma {:induction false} RunIsSerial(c: bv32, data: seq<Octet>)
    ensures Run(Ieee, Swapped(c), data) == Swapped(Serial(c, data))
    decreases |data|
  {
    if data != [] {
      StepIsSerial(c, data[0]);
      RunIsSerial(Bits(c, data[0].bits as bv32 << 24), data[1..]);
    }
  }

  lemma LowZero(d: bv32)
    requires d << 8 == 0 && Iterate(Shift1, d, 8) & 0xff == 0
    ensures d == 0
  {
    Eight(Shift1, d);
  }

  lemma XorLow(x: bv32, y: bv32)
    requires (x & 0xff) as bv8 == (y & 0xff) as bv8
    ensures Plus(x, y) & 0xff == 0
  {
  }

  lemma XorZero(i: bv8, j: bv8)
    ensures Plus(i as bv32 << 24, j as bv32 << 24) == 0 ==> i == j
    ensures Plus(i as bv32 << 24, j as bv32 << 24) << 8 == 0
  {
  }

  lemma DistinctLow(i: bv8, j: bv8)
    requires (Remainder(i) & 0xff) as bv8 == (Remainder(j) & 0xff) as bv8
    ensures i == j
  {
    LinearShift(i as bv32 << 24, j as bv32 << 24);
    XorLow(Remainder(i), Remainder(j));
    XorZero(i, j);
    LowZero(Plus(i as bv32 << 24, j as bv32 << 24));
  }

  lemma DistinctEntries(i: Octet, j: Octet)
    requires Ieee(i).b3 == Ieee(j).b3
    ensures i == j
  {
    IeeeIs(i);
    IeeeIs(j);
    DistinctLow(i.bits, j.bits);
    assert i == Octet(i.bits) && j == Octet(j.bits);
  }

  /** No two entries of the table share their top byte, so bursts are detected. */
  lemma {:induction false} IeeeBurst(crc: Word, before: seq<Octet>, xs: seq<Octet>, ys: seq<Octet>, after: seq<Octet>)
    requires |xs| == |ys| <= 4 && xs != ys
    ensures Run(Ieee, crc, before + xs + after) != Run(Ieee, crc, before + ys + after)
  {
    forall i: Octet, j: Octet | Ieee(i).b3 == Ieee(j).b3
      ensures i == j
    {
      DistinctEntries(i, j);
    }
    BurstDetected(Ieee, crc, before, xs, ys, after);
  }
}
