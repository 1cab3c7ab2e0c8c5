/** The RTCP packet that carries requests for lost packets: blocks of one sequence
    number and a 16-bit map of the sixteen numbers after it (section 6.2.1 of RFC 4585). */
module NackPacket {
  import opened RtpSession
  import ModArith
  import opened NackGenerator

  /** A 16-bit map, bit 0 (the least significant) first. */
  datatype Block = Block(id: Seq, lost: seq<bool>)

  const NoBits := [false, false, false, false, false, false, false, false,
                   false, false, false, false, false, false, false, false]

  /** The map of a block has a bit for each of these numbers. */
  ghost predicate InReach(id: Seq, rest: seq<Seq>) {
    forall i :: 0 <= i < |rest| ==> 0 < rest[i] as int - id as int <= 16
  }

  // ----- writing

  /** The map of a block for numbers after `id`: the number `d` places on sets bit 16 - d. */
  function MapFor(id: Seq, rest: seq<Seq>, bits: seq<bool>): (map16: seq<bool>)
    requires |bits| == 16 && InReach(id, rest)
    ensures |map16| == 16
  {
    if rest == [] then bits
    else MapFor(id, rest[1..], bits[16 - (rest[0] as int - id as int) := true])
  }

  function EncodeBlocks(list: seq<Seq>): seq<Block>
    requires list != [] && Ascending(list) && list[|list| - 1] - list[0] <= 16
  {
    [Block(list[0], MapFor(list[0], list[1..], NoBits))]
  }

  lemma {:induction false} NextReported(id: Seq, report: seq<Seq>, r: nat, bits: seq<bool>)
    requires r < |report| && |bits| == 16
    ensures InReach(id, report[r..]) ==>
              && InReach(id, report[r + 1..]) && 0 < report[r] as int - id as int <= 16
              && MapFor(id, report[r..], bits)
                 == MapFor(id, report[r + 1..], bits[16 - (report[r] as int - id as int) := true])
  {
    var rest, tail := report[r..], report[r + 1..];
    assert rest[0] == report[r] && rest[1..] == tail;
    if InReach(id, rest) {
      forall i | 0 <= i < |tail|
        ensures 0 < tail[i] as int - id as int <= 16
      {
        assert tail[i] == rest[i + 1];
      }
    }
  }

  class Writer {
    var blocks: seq<Block>

    constructor ()
      ensures blocks == []
    {
      blocks := [];
    }

    /** Appends one block. A number more than 16 past the first has no bit. */
    method InsertBlock(report: seq<Seq>) returns (ok: bool)
      requires report != [] && Ascending(report)
      modifies this
      ensures ok <==> report[|report| - 1] - report[0] <= 16
      ensures ok ==> InReach(report[0], report[1..])
                     && blocks == old(blocks) + [Block(report[0], MapFor(report[0], report[1..], NoBits))]
      ensures !ok ==> blocks == old(blocks)
    {
      var id: int := report[0];
      ghost var fits := report[|report| - 1] - report[0] <= 16;
      assert fits ==> InReach(report[0], report[1..]);
      var bits := NoBits;
      for r := 1 to |report|
        invariant blocks == old(blocks) && |bits| == 16
        invariant forall k :: 1 <= k < r ==> report[k] as int - id <= 16
        invariant fits ==> InReach(report[0], report[r..])
        invariant fits ==> MapFor(report[0], report[1..], NoBits) == MapFor(report[0], report[r..], bits)
      {
        var shift := 16 - (report[r] as int - id);
        if shift < 0 {
          return false;
        }
        NextReported(report[0], report, r, bits);
        bits := bits[shift := true];
      }
      assert report[|report|..] == [];
      blocks := blocks + [Block(report[0], bits)];
      ok := true;
    }

    /** Collects numbers into a block until one is more than 16 past the first. */
    method InsertSeqList(list: seq<Seq>) returns (ok: bool)
      requires Ascending(list)
      modifies this
      ensures ok <==> list == [] || list[|list| - 1] - list[0] <= 16
      ensures ok ==> blocks == old(blocks) + (if list == [] then [] else EncodeBlocks(list))
    {
      var report: seq<Seq> := [];
      for i := 0 to |list|
        invariant report == list[..i] && blocks == old(blocks)
        invariant i > 0 ==> list[i - 1] - list[0] <= 16
      {
        report := report + [list[i]];
        assert report == list[..i + 1];
        if report[|report| - 1] - report[0] > 16 {
          ok := InsertBlock(report);
          return false;
        }
      }
      assert report == list;
      if report != [] {
        ok := InsertBlock(report);
      } else {
        ok := true;
      }
    }
  }

  // ----- reading

  /** The numbers a map stands for, bit 0 for `sn` itself. */
  function Marked(bits: seq<bool>, sn: Seq): seq<Seq> {
    if bits == [] then []
    else (if bits[0] then [sn] else []) + Marked(bits[1..], Later(sn, 1))
  }

  function Decode(blocks: seq<Block>): seq<Seq> {
    if blocks == [] then []
    else [blocks[0].id] + Marked(blocks[0].lost, Later(blocks[0].id, 1)) + Decode(blocks[1..])
  }

  lemma {:induction false} NothingMarked(bits: seq<bool>, sn: Seq)
    requires forall i :: 0 <= i < |bits| ==> !bits[i]
    ensures Marked(bits, sn) == []
  {
    if bits != [] {
      NothingMarked(bits[1..], Later(sn, 1));
    }
  }

  lemma {:induction false} MarkedStep(lost: seq<Seq>, mask: seq<bool>, sn: Seq)
    requires mask != []
    ensures lost + Marked(mask, sn) == (if mask[0] then lost + [sn] else lost) + Marked(mask[1..], Later(sn, 1))
  {
    var rest := Marked(mask[1..], Later(sn, 1));
    assert lost + ([sn] + rest) == lost + [sn] + rest && [] + rest == rest;
  }

  /** Shifts the map right until it is zero. */
  method ReadMap(bits: seq<bool>, first: Seq) returns (lost: seq<Seq>)
    ensures lost == Marked(bits, first)
  {
    var mask, sn := bits, first;
    lost := [];
    while exists i :: 0 <= i < |mask| && mask[i]
      invariant Marked(bits, first) == lost + Marked(mask, sn)
      decreases |mask|
    {
      MarkedStep(lost, mask, sn);
      if mask[0] {
        lost := lost + [sn];
      }
      mask, sn := mask[1..], Later(sn, 1);
    }
    NothingMarked(mask, sn);
  }

  method GetLostSeqs(blocks: seq<Block>) returns (lost: seq<Seq>)
    ensures lost == Decode(blocks)
  {
    lost := [];
    for b := 0 to |blocks|
      invariant Decode(blocks) == lost + Decode(blocks[b..])
    {
      assert blocks[b..][0] == blocks[b] && blocks[b..][1..] == blocks[b + 1..];
      var sn: Seq := blocks[b].id;
      var marked := ReadMap(blocks[b].lost, Later(sn, 1));
      lost := lost + ([sn] + marked);
    }
    assert blocks[|blocks|..] == [];
  }

  // ----- what bits mean

  lemma {:induction false} MarkedIff(bits: seq<bool>, sn: Seq, n: Seq)
    ensures n in Marked(bits, sn) <==> exists i :: 0 <= i < |bits| && bits[i] && n == Later(sn, i)
  {
    ModArith.Small(sn, SEQ_MOD);
    if bits != [] {
      var rest, next := bits[1..], Later(sn, 1);
      MarkedIff(rest, next, n);
      forall i | 0 <= i < |rest|
        ensures Later(next, i) == Later(sn, i + 1)
      {
        ModArith.Sum(sn + 1, i, SEQ_MOD);
      }
      if i :| 0 <= i < |rest| && rest[i] && n == Later(next, i) {
        assert bits[i + 1] && n == Later(sn, i + 1);
      }
      if i :| 0 <= i < |bits| && bits[i] && n == Later(sn, i) {
        assert i > 0 ==> rest[i - 1];
      }
    }
  }

  /** The numbers a block asks for (section 6.2.1 of RFC 4585): its own, and for the least
      significant bit of its map the next one, and so on. */
  ghost predicate AsksFor(b: Block, n: Seq) {
    n == b.id || exists i :: 0 <= i < |b.lost| && b.lost[i] && n == (b.id + 1 + i) % 0x1_0000
  }

  lemma {:induction false} BlockAsks(b: Block, n: Seq)
    ensures n == b.id || n in Marked(b.lost, Later(b.id, 1)) <==> AsksFor(b, n)
  {
    MarkedIff(b.lost, Later(b.id, 1), n);
    forall i | 0 <= i < |b.lost|
      ensures Later(Later(b.id, 1), i) == (b.id + 1 + i) % 0x1_0000
    {
      ModArith.Sum(b.id + 1, i, SEQ_MOD);
    }
  }

  ghost predicate Asked(blocks: seq<Block>, n: Seq) {
    exists k :: 0 <= k < |blocks| && AsksFor(blocks[k], n)
  }

  lemma {:induction false} AskedFirst(blocks: seq<Block>, n: Seq)
    requires blocks != []
    ensures Asked(blocks, n) <==> AsksFor(blocks[0], n) || Asked(blocks[1..], n)
  {
    if k :| 0 <= k < |blocks| && AsksFor(blocks[k], n) {
      assert k > 0 ==> blocks[1..][k - 1] == blocks[k];
    }
    if k :| 0 <= k < |blocks[1..]| && AsksFor(blocks[1..][k], n) {
      assert blocks[k + 1] == blocks[1..][k];
    }
  }

  /** Reading finds just the numbers asked for. */
  lemma {:induction false} ReadsIff(blocks: seq<Block>, n: Seq)
    ensures n in Decode(blocks) <==> Asked(blocks, n)
  {
    if blocks != [] {
      BlockAsks(blocks[0], n);
      AskedFirst(blocks, n);
      ReadsIff(blocks[1..], n);
    }
  }

  // ----- what is read is not what was written

  lemma {:induction false} MarkedHas(bits: seq<bool>, sn: Seq, i: nat)
    requires i < |bits| && bits[i]
    ensures Later(sn, i) in Marked(bits, sn)
  {
    var n: int := sn;
    ModArith.Small(n, SEQ_MOD);
    if i > 0 {
      MarkedHas(bits[1..], Later(sn, 1), i - 1);
      ModArith.Sum(n + 1, i - 1, SEQ_MOD);
    }
  }

  ghost predicate InList(list: seq<Seq>, n: int) {
    exists i :: 0 <= i < |list| && list[i] as int == n
  }

  lemma {:induction false} InListSplit(list: seq<Seq>, n: int)
    requires list != []
    ensures InList(list, n) <==> list[0] as int == n || InList(list[1..], n)
  {
    if InList(list, n) {
      var i :| 0 <= i < |list| && list[i] as int == n;
      if i > 0 { assert list[1..][i - 1] as int == n; }
    }
    if InList(list[1..], n) {
      var i :| 0 <= i < |list[1..]| && list[1..][i] as int == n;
      assert list[i + 1] as int == n;
    }
  }

  lemma {:induction false} MapForIff(id: Seq, rest: seq<Seq>, bits: seq<bool>, n: nat)
    requires n < 16 && |bits| == 16 && InReach(id, rest)
    ensures MapFor(id, rest, bits)[n] <==> bits[n] || InList(rest, id as int + 16 - n)
    decreases |rest|
  {
    if rest != [] {
      var shift := 16 - (rest[0] as int - id as int);
      MapForIff(id, rest[1..], bits[shift := true], n);
      InListSplit(rest, id as int + 16 - n);
    }
  }

  /** The map that is written has its bits the other way round: the least significant one
      for the number 16 places after the block's own, and so on. */
  lemma {:induction false} WritesIff(list: seq<Seq>, i: nat)
    requires list != [] && Ascending(list) && list[|list| - 1] - list[0] <= 16 && i < 16
    ensures var b := EncodeBlocks(list)[0];
            && |EncodeBlocks(list)| == 1 && b.id == list[0] && |b.lost| == 16
            && (b.lost[i] <==> exists k :: 1 <= k < |list| && list[k] as int == list[0] as int + 16 - i)
  {
    var n := list[0] as int + 16 - i;
    MapForIff(list[0], list[1..], NoBits, i);
    if k :| 1 <= k < |list| && list[k] as int == n {
      assert list[1..][k - 1] as int == n;
    }
    if InList(list[1..], n) {
      var k :| 0 <= k < |list[1..]| && list[1..][k] as int == n;
      assert list[k + 1] as int == n;
    }
  }

  function Heads(bits: seq<bool>, lo: nat): seq<Seq>
    requires bits != []
  {
    if bits[0] then [lo % SEQ_MOD] else []
  }

  lemma {:induction false} MarkedSplit(bits: seq<bool>, lo: nat)
    requires bits != []
    ensures Marked(bits, lo % SEQ_MOD)
         == Heads(bits, lo) + Marked(bits[1..], (lo + 1) % SEQ_MOD)
  {
    ModArith.Sum(lo, 1, SEQ_MOD);
  }

  /** The map marks, from `lo` on, just the numbers of an ascending list. */
  ghost predicate Marks(bits: seq<bool>, lo: nat, list: seq<Seq>) {
    && Ascending(list)
    && (list != [] ==> lo <= list[0] as int && list[|list| - 1] as int < lo + |bits|)
    && (forall i :: 0 <= i < |bits| ==> (bits[i] <==> InList(list, lo + i)))
  }

  lemma {:induction false} MarksFirst(bits: seq<bool>, lo: nat, list: seq<Seq>)
    requires bits != [] && Marks(bits, lo, list)
    ensures bits[0] <==> list != [] && list[0] as int == lo
    ensures bits[0] ==> list[0] == lo % SEQ_MOD
  {
    ModArith.Small(lo, SEQ_MOD);
    if list != [] && list[0] as int == lo {
      assert InList(list, lo + 0);
    }
  }

  lemma {:induction false} MarksTail(bits: seq<bool>, lo: nat, list: seq<Seq>) returns (tail: seq<Seq>)
    requires bits != [] && Marks(bits, lo, list)
    ensures Marks(bits[1..], lo + 1, tail) && list == Heads(bits, lo) + tail
  {
    MarksFirst(bits, lo, list);
    tail := if bits[0] then list[1..] else list;
    forall i | 0 <= i < |bits| - 1
      ensures bits[1..][i] <==> InList(tail, lo + 1 + i)
    {
      assert bits[1..][i] == bits[i + 1];
      if bits[0] { InListSplit(list, lo + (i + 1)); }
    }
    if bits[0] {
      assert list == [list[0]] + tail;
    }
  }

  /** Such a map reads back as the list. */
  lemma {:induction false} MarksReadBack(bits: seq<bool>, lo: nat, list: seq<Seq>)
    requires Marks(bits, lo, list)
    ensures Marked(bits, lo % SEQ_MOD) == list
    decreases |bits|
  {
    if bits != [] {
      var tail := MarksTail(bits, lo, list);
      MarksReadBack(bits[1..], lo + 1, tail);
      MarkedSplit(bits, lo);
    }
  }

  /** The mirror image of a number among the sixteen after `id`. */
  function Mirror(id: Seq, x: Seq): int {
    id as int + 17 - (x as int - id as int)
  }

  /** Every number after the first has its mirror image in the list too. */
  ghost predicate Symmetric(list: seq<Seq>)
    requires list != []
  {
    forall i :: 1 <= i < |list| ==> InList(list[1..], Mirror(list[0], list[i]))
  }

  lemma MarkedNumber(id: Seq, i: nat)
    requires i < 16
    ensures var y := Later(Later(id, 1), i);
            y as int == id as int + 1 + i || y < id
  {
    var n: int := id;
    ModArith.Sum(n + 1, i, SEQ_MOD);
    ModArith.Small(n + 1 + i, SEQ_MOD);
    ModArith.Shift(n + 1 + i - SEQ_MOD, 1, SEQ_MOD);
    ModArith.Small(n + 1 + i - SEQ_MOD, SEQ_MOD);
  }

  lemma {:induction false} ReadBackIsSymmetric(list: seq<Seq>, bits: seq<bool>)
    requires list != [] && Ascending(list) && InReach(list[0], list[1..])
    requires bits == MapFor(list[0], list[1..], NoBits) && Marked(bits, Later(list[0], 1)) == list[1..]
    ensures Symmetric(list)
  {
    var id, rest := list[0], list[1..];
    forall k | 1 <= k < |list|
      ensures InList(rest, Mirror(id, list[k]))
    {
      assert rest[k - 1] == list[k];
      var i: int := 16 - (list[k] as int - id as int);
      MapForIff(id, rest, NoBits, i);
      MarkedHas(bits, Later(id, 1), i);
      var y := Later(Later(id, 1), i);
      var j :| 0 <= j < |rest| && rest[j] == y;
      assert list[j + 1] == y;
      MarkedNumber(id, i);
    }
  }

  lemma {:induction false} MirrorThere(list: seq<Seq>, n: int)
    requires list != [] && Symmetric(list)
    ensures InList(list[1..], n) ==> InList(list[1..], 2 * list[0] as int + 17 - n)
  {
    if InList(list[1..], n) {
      var k :| 0 <= k < |list[1..]| && list[1..][k] as int == n;
      assert InList(list[1..], Mirror(list[0], list[k + 1]));
    }
  }

  lemma {:induction false} SymmetricBit(list: seq<Seq>, i: nat)
    requires list != [] && InReach(list[0], list[1..]) && Symmetric(list) && i < 16
    ensures MapFor(list[0], list[1..], NoBits)[i] <==> InList(list[1..], list[0] as int + 1 + i)
  {
    MapForIff(list[0], list[1..], NoBits, i);
    MirrorThere(list, list[0] as int + 16 - i);
    MirrorThere(list, list[0] as int + 1 + i);
  }

  lemma {:induction false} SymmetricReadsBack(list: seq<Seq>, bits: seq<bool>)
    requires list != [] && Ascending(list) && InReach(list[0], list[1..])
    requires bits == MapFor(list[0], list[1..], NoBits) && Symmetric(list)
    ensures Marked(bits, Later(list[0], 1)) == list[1..]
  {
    var id, rest := list[0], list[1..];
    forall i | 0 <= i < 16
      ensures bits[i] <==> InList(rest, id as int + 1 + i)
    {
      SymmetricBit(list, i);
    }
    MarksReadBack(bits, id as int + 1, rest);
  }

  /** A written request reads back as itself exactly when it is symmetric. */
  lemma {:induction false} ReadsBackIff(list: seq<Seq>)
    requires list != [] && Ascending(list) && list[|list| - 1] - list[0] <= 16
    ensures Decode(EncodeBlocks(list)) == list <==> Symmetric(list)
  {
    var id, rest := list[0], list[1..];
    var bits := MapFor(id, rest, NoBits);
    assert EncodeBlocks(list)[1..] == [];
    assert Decode(EncodeBlocks(list)) == [id] + Marked(bits, Later(id, 1));
    assert list == [id] + rest;
    if Symmetric(list) {
      SymmetricReadsBack(list, bits);
    }
    if Marked(bits, Later(id, 1)) == rest {
      ReadBackIsSymmetric(list, bits);
    }
  }

  /** Two losses in a row are read as two losses sixteen apart. */
  lemma {:induction false} NeighboursMisread(id: Seq)
    requires id + 1 < SEQ_MOD
    ensures Decode(EncodeBlocks([id, id + 1])) != [id, id + 1]
  {
    assert InList([id, id + 1][1..], Mirror(id, id + 1)) ==> false;
    ReadsBackIff([id, id + 1]);
  }
}
