/** Relocation tables written out from what they name, and read back. */
module RelocationTable {
  import opened Bytes
  import opened Relocation

  /** A relocation of some type at an offset in the page of its block. */
  datatype Entry = Entry(typ: nat, offset: nat)

  /** A block; `pad` stands behind the entries where the block size is odd. */
  datatype TableBlock = TableBlock(page: nat, entries: seq<Entry>, pad: seq<Byte>)

  predicate BlockOk(b: TableBlock) {
    && b.page < TWO_32 && |b.pad| <= 1 && BlockSize(b) < TWO_32
    && forall i :: 0 <= i < |b.entries| ==> b.entries[i].typ < 16 && b.entries[i].offset < 4096
  }

  function BlockSize(b: TableBlock): nat {
    8 + 2 * |b.entries| + |b.pad|
  }

  // --- writing ---

  function EncodeEntries(es: seq<Entry>): (bs: seq<Byte>)
    ensures |bs| == 2 * |es|
  {
    if es == [] then [] else LittleEndian(4096 * es[0].typ + es[0].offset, 2) + EncodeEntries(es[1..])
  }

  /** Page and size, 4 bytes each, then 2 bytes for every entry. */
  function EncodeBlock(b: TableBlock): (bs: seq<Byte>)
    ensures |bs| == BlockSize(b)
  {
    LittleEndian(b.page, 4) + LittleEndian(BlockSize(b), 4) + (EncodeEntries(b.entries) + b.pad)
  }

  function EncodeTable(bs: seq<TableBlock>): seq<Byte> {
    if bs == [] then [] else EncodeBlock(bs[0]) + EncodeTable(bs[1..])
  }

  // --- what is named ---

  /** A relocation of some type at an address relative to the image. */
  datatype Fixup = Fixup(typ: nat, rva: nat)

  function Fixups(b: TableBlock): (fs: seq<Fixup>)
    ensures |fs| == |b.entries|
  {
    seq(|b.entries|, i requires 0 <= i < |b.entries| => Fixup(b.entries[i].typ, (b.page + b.entries[i].offset) % TWO_32))
  }

  function AllFixups(bs: seq<TableBlock>): seq<Fixup> {
    if bs == [] then [] else Fixups(bs[0]) + AllFixups(bs[1..])
  }

  /** DIR64 is 10, HIGHLOW 3, LOW 2; other types change nothing. */
  function Reach(f: Fixup): nat {
    if f.typ == 10 then 8 else if f.typ == 3 then 4 else if f.typ == 2 then 2 else 0
  }

  /** Padding, or a word that starts in the image and ends in what is mapped. */
  predicate Fine(f: Fixup, size: nat, mapped: nat) {
    f.typ == 0 || (f.rva < size && f.rva + Reach(f) <= mapped)
  }

  function Words(fs: seq<Fixup>): seq<Patch> {
    if fs == [] then []
    else (if Reach(fs[0]) == 0 then [] else [Patch(fs[0].rva, Reach(fs[0]))]) + Words(fs[1..])
  }

  // --- reading back ---

  lemma {:induction false} ReadTwo(s: seq<Byte>, at: nat, x: nat)
    requires x < 0x1_0000 && at + 2 <= |s| && s[at..at + 2] == LittleEndian(x, 2)
    ensures ReadU16(s, at) == x
  {
    TwoBytes(x);
    hide LittleEndian;
    assert s[at..at + 2][0] == s[at] && s[at..at + 2][1] == s[at + 1];
  }

  lemma {:induction false} TwoBytes(x: nat)
    ensures LittleEndian(x, 2) == [x % 256, x / 256 % 256]
    ensures LittleEndian(x, 4) == [x % 256, x / 256 % 256] + LittleEndian(x / 256 / 256, 2)
  {
    assert LittleEndian(x / 256 / 256, 0) == [];
    assert LittleEndian(x / 256, 1) == [x / 256 % 256];
    assert LittleEndian(x / 256, 3) == [x / 256 % 256] + LittleEndian(x / 256 / 256, 2);
  }

  lemma {:induction false} HalfDigits(x: nat)
    ensures x % 0x1_0000 % 256 == x % 256 && x % 0x1_0000 / 256 % 256 == x / 256 % 256 && x / 256 / 256 == x / 0x1_0000
  {
    var q, r := x / 0x1_0000, x % 0x1_0000;
    assert x == 0x1_0000 * q + r && x / 256 == 256 * q + r / 256;
  }

  lemma {:induction false} LittleEndianSplit(x: nat)
    ensures LittleEndian(x, 4) == LittleEndian(x % 0x1_0000, 2) + LittleEndian(x / 0x1_0000, 2)
  {
    hide LittleEndian;
    HalfDigits(x);
    TwoBytes(x);
    TwoBytes(x % 0x1_0000);
  }

  lemma {:induction false} ReadFour(s: seq<Byte>, at: nat, x: nat)
    requires x < TWO_32 && at + 4 <= |s| && s[at..at + 4] == LittleEndian(x, 4)
    ensures ReadU32(s, at) == x
  {
    hide LittleEndian, ReadU16;
    LittleEndianSplit(x);
    assert s[at..at + 2] == s[at..at + 4][..2] && s[at + 2..at + 4] == s[at..at + 4][2..];
    ReadTwo(s, at, x % 0x1_0000);
    ReadTwo(s, at + 2, x / 0x1_0000);
  }

  lemma {:induction false} EntryBytes(es: seq<Entry>, i: nat)
    requires i < |es|
    ensures EncodeEntries(es)[2 * i..2 * i + 2] == LittleEndian(4096 * es[i].typ + es[i].offset, 2)
    decreases i
  {
    hide LittleEndian;
    if i > 0 {
      EntryBytes(es[1..], i - 1);
      assert EncodeEntries(es)[2 * i..2 * i + 2] == EncodeEntries(es[1..])[2 * (i - 1)..2 * (i - 1) + 2];
    }
  }

  /** The entries of a block from `i` on, when the first that is not fine is at `k`. */
  lemma {:induction false} EntriesDecode(b: TableBlock, i: nat, k: nat, size: nat, mapped: nat)
    requires BlockOk(b) && i <= k <= |b.entries|
    requires forall j :: i <= j < k ==> Fine(Fixups(b)[j], size, mapped)
    requires k < |b.entries| ==> !Fine(Fixups(b)[k], size, mapped)
    ensures DecodeEntries(b.page, EncodeEntries(b.entries) + b.pad, i, size, mapped)
         == (Words(Fixups(b)[i..k]), Ending(Fixups(b), k, size))
    decreases |b.entries| - i
  {
    var bytes := EncodeEntries(b.entries) + b.pad;
    hide DecodeEntries, LittleEndian, ReadU16, EncodeEntries;
    if i == |b.entries| {
      EntriesEnd(b.page, bytes, i, size, mapped);
    } else {
      var e, f := b.entries[i], Fixups(b)[i];
      EntryBytes(b.entries, i);
      assert bytes[2 * i..2 * i + 2] == EncodeEntries(b.entries)[2 * i..2 * i + 2];
      ReadTwo(bytes, 2 * i, 4096 * e.typ + e.offset);
      EntryStep(b.page, bytes, i, size, mapped);
      assert (4096 * e.typ + e.offset) / 0x1000 == e.typ;
      assert EntryPatch(b.page, 4096 * e.typ + e.offset) == Patch(f.rva, Reach(f));
      if i < k {
        EntriesDecode(b, i + 1, k, size, mapped);
        var some := Fixups(b)[i..k];
        assert some[0] == f && some[1..] == Fixups(b)[i + 1..k];
        assert Fine(f, size, mapped);
        if Reach(f) == 0 {
          assert Words(some) == [] + Words(some[1..]) == Words(some[1..]);
        } else {
          assert Words(some) == [Patch(f.rva, Reach(f))] + Words(some[1..]);
        }
      } else {
        assert Fixups(b)[i..k] == [];
      }
    }
  }

  /** How the walk ends when entry `k` is the first that is not fine. */
  function Ending(fs: seq<Fixup>, k: nat, size: nat): Status
    requires k <= |fs|
  {
    if k == |fs| then Complete else if fs[k].rva >= size then Malformed else Unmapped
  }

  /** What may stand behind the last block: less than a header, or a header with an impossible size. */
  function TailStatus(tail: seq<Byte>): Status {
    if |tail| < 8 then Complete else Malformed
  }

  predicate TailOk(tail: seq<Byte>) {
    |tail| >= 8 ==>
      exists n :: 0 <= n < TWO_32 && (n < 8 || n > |tail|) && tail[4..8] == LittleEndian(n, 4)
  }

  lemma {:induction false} TailDecodes(front: seq<Byte>, tail: seq<Byte>, size: nat, mapped: nat)
    requires TailOk(tail)
    ensures DecodeBlocks(front + tail, |front|, size, mapped) == ([], TailStatus(tail))
  {
    hide DecodeBlocks, LittleEndian, ReadU32, DecodeEntries;
    var table := front + tail;
    if |tail| < 8 {
      BlocksEnd(table, |front|, size, mapped);
    } else {
      var n :| 0 <= n < TWO_32 && (n < 8 || n > |tail|) && tail[4..8] == LittleEndian(n, 4);
      assert table[|front| + 4..|front| + 8] == tail[4..8];
      ReadFour(table, |front| + 4, n);
      BlockStep(table, |front|, size, mapped);
    }
  }

  lemma {:induction false} BlockHeader(front: seq<Byte>, b: TableBlock, rest: seq<Byte>)
    requires BlockOk(b)
    ensures var table := front + EncodeBlock(b) + rest;
      && ReadU32(table, |front|) == b.page && ReadU32(table, |front| + 4) == BlockSize(b)
      && table[|front| + 8..|front| + BlockSize(b)] == EncodeEntries(b.entries) + b.pad
  {
    hide LittleEndian, ReadU32, EncodeEntries;
    var table := front + EncodeBlock(b) + rest;
    assert table[|front|..|front| + 4] == LittleEndian(b.page, 4);
    assert table[|front| + 4..|front| + 8] == LittleEndian(BlockSize(b), 4);
    ReadFour(table, |front|, b.page);
    ReadFour(table, |front| + 4, BlockSize(b));
  }

  lemma {:induction false} WordsAppend(a: seq<Fixup>, b: seq<Fixup>)
    ensures Words(a + b) == Words(a) + Words(b)
  {
    if a == [] {
      assert a + b == b;
    } else {
      assert (a + b)[1..] == a[1..] + b;
      WordsAppend(a[1..], b);
    }
  }

  lemma {:induction false} BlocksDecode(front: seq<Byte>, bs: seq<TableBlock>, tail: seq<Byte>, k: nat, size: nat, mapped: nat)
    requires (forall i :: 0 <= i < |bs| ==> BlockOk(bs[i])) && TailOk(tail) && k <= |AllFixups(bs)|
    requires forall j :: 0 <= j < k ==> Fine(AllFixups(bs)[j], size, mapped)
    requires k < |AllFixups(bs)| ==> !Fine(AllFixups(bs)[k], size, mapped)
    ensures DecodeBlocks(front + (EncodeTable(bs) + tail), |front|, size, mapped)
         == (Words(AllFixups(bs)[..k]), if k < |AllFixups(bs)| then Ending(AllFixups(bs), k, size) else TailStatus(tail))
    decreases |bs|
  {
    hide DecodeBlocks, DecodeEntries, LittleEndian, ReadU32, EncodeEntries, EncodeBlock, Fine, Words, TailOk, BlockOk;
    if bs == [] {
      assert EncodeTable(bs) + tail == tail;
      TailDecodes(front, tail, size, mapped);
      assert Words(AllFixups(bs)[..0]) == [] by { NoWords(); }
    } else {
      var b, more := bs[0], EncodeTable(bs[1..]) + tail;
      var here, later := Fixups(b), AllFixups(bs[1..]);
      assert AllFixups(bs) == here + later;
      hide AllFixups, Fixups;
      TableTokens(front, bs, tail);
      BlockHeader(front, b, more);
      BlockStep(front + (EncodeTable(bs) + tail), |front|, size, mapped);
      FirstBad(here, later, k, size, mapped);
      if k < |here| {
        EntriesDecode(b, 0, k, size, mapped);
        assert AllFixups(bs)[..k] == here[0..k];
      } else {
        EntriesDecode(b, 0, |here|, size, mapped);
        BlocksDecode(front + EncodeBlock(b), bs[1..], tail, k - |here|, size, mapped);
        assert AllFixups(bs)[..k] == here[0..|here|] + later[..k - |here|];
        WordsAppend(here[0..|here|], later[..k - |here|]);
      }
    }
  }

  lemma {:induction false} TableTokens(front: seq<Byte>, bs: seq<TableBlock>, tail: seq<Byte>)
    requires bs != []
    ensures var more := EncodeTable(bs[1..]) + tail; var table := front + (EncodeTable(bs) + tail);
      && table == front + EncodeBlock(bs[0]) + more && table == (front + EncodeBlock(bs[0])) + more
      && |front + EncodeBlock(bs[0])| == |front| + BlockSize(bs[0]) && |table| >= |front| + BlockSize(bs[0])
  {
    hide EncodeBlock;
  }

  /** Where the first entry that is not fine lies. */
  lemma {:induction false} FirstBad(here: seq<Fixup>, later: seq<Fixup>, k: nat, size: nat, mapped: nat)
    requires k <= |here + later| && forall j :: 0 <= j < k ==> Fine((here + later)[j], size, mapped)
    requires k < |here + later| ==> !Fine((here + later)[k], size, mapped)
    ensures k < |here| ==> (forall j :: 0 <= j < k ==> Fine(here[j], size, mapped)) && !Fine(here[k], size, mapped)
    ensures k >= |here| ==> forall j :: 0 <= j < |here| ==> Fine(here[j], size, mapped)
    ensures k >= |here| ==> forall j :: 0 <= j < k - |here| ==> Fine(later[j], size, mapped)
    ensures |here| <= k < |here| + |later| ==> !Fine(later[k - |here|], size, mapped)
  {
    hide Fine;
    forall j | 0 <= j < |here| ensures (here + later)[j] == here[j] {
    }
    forall j | 0 <= j < |later| ensures (here + later)[|here| + j] == later[j] {
    }
  }

  lemma {:induction false} NoWords()
    ensures Words([]) == []
  {
  }

  /** Decoding undoes encoding: a table written out block by block names, in order, 8, 4 or 2 bytes at page plus
      offset for every entry of type 10, 3 or 2, up to the first entry that starts outside the image (or ends in what is
      not mapped), and nothing for entries of other types. */
  lemma {:induction false} DecodeUndoesEncode(bs: seq<TableBlock>, tail: seq<Byte>, k: nat, size: nat, mapped: nat)
    requires (forall i :: 0 <= i < |bs| ==> BlockOk(bs[i])) && TailOk(tail) && k <= |AllFixups(bs)|
    requires forall j :: 0 <= j < k ==> Fine(AllFixups(bs)[j], size, mapped)
    requires k < |AllFixups(bs)| ==> !Fine(AllFixups(bs)[k], size, mapped)
    ensures DecodeBlocks(EncodeTable(bs) + tail, 0, size, mapped)
         == (Words(AllFixups(bs)[..k]), if k < |AllFixups(bs)| then Ending(AllFixups(bs), k, size) else TailStatus(tail))
  {
    hide DecodeBlocks, EncodeTable, Words, Fine;
    BlocksDecode([], bs, tail, k, size, mapped);
    assert [] + (EncodeTable(bs) + tail) == EncodeTable(bs) + tail;
  }

  lemma {:induction false} WordsReachable(fs: seq<Fixup>, size: nat, mapped: nat)
    requires forall j :: 0 <= j < |fs| ==> Fine(fs[j], size, mapped)
    ensures Reachable(Words(fs), size, mapped)
    decreases |fs|
  {
    if fs != [] {
      WordsReachable(fs[1..], size, mapped);
    }
  }

  /** From table to image: if all that a table names is fine and its words do not overlap, then applying what is decoded
      moves each word by `delta` modulo its width, and no other byte. */
  lemma {:induction false} TableRelocates(bs: seq<TableBlock>, img: seq<Byte>, size: nat, delta: int)
    requires (forall i :: 0 <= i < |bs| ==> BlockOk(bs[i])) && PairwiseApart(Words(AllFixups(bs)))
    requires forall j :: 0 <= j < |AllFixups(bs)| ==> Fine(AllFixups(bs)[j], size, |img|)
    ensures var words := Words(AllFixups(bs));
      && DecodeBlocks(EncodeTable(bs), 0, size, |img|) == (words, Complete) && AllInside(words, |img|)
      && (forall i :: 0 <= i < |words| ==>
            WordAt(ApplyAll(img, words, delta), words[i]) == (WordAt(img, words[i]) + delta) % Pow256(words[i].width))
      && (forall k :: 0 <= k < |img| && (forall i :: 0 <= i < |words| ==> !(words[i].rva <= k < words[i].rva + words[i].width)) ==>
            ApplyAll(img, words, delta)[k] == img[k])
  {
    hide DecodeBlocks, EncodeTable, Words, Fine, WordAt, ApplyAll, PairwiseApart, Pow256;
    var fs := AllFixups(bs);
    var words := Words(fs);
    DecodeUndoesEncode(bs, [], |fs|, size, |img|);
    assert EncodeTable(bs) + [] == EncodeTable(bs) && fs[..|fs|] == fs;
    WordsReachable(fs, size, |img|);
    forall i | 0 <= i < |words|
      ensures WordAt(ApplyAll(img, words, delta), words[i]) == (WordAt(img, words[i]) + delta) % Pow256(words[i].width)
    {
      WordsMoved(img, words, delta, i);
    }
    forall k | 0 <= k < |img| && forall i :: 0 <= i < |words| ==> !(words[i].rva <= k < words[i].rva + words[i].width)
      ensures ApplyAll(img, words, delta)[k] == img[k]
    {
      OtherBytesKept(img, words, delta, k);
    }
  }
}
