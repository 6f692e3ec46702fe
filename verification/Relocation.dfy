/** PE base relocations: a byte stream of blocks names words of the image, and each is moved by the distance between
    the actual and the preferred base (section "The .reloc Section (Image Only)" of the PE format). */
module Relocation {
  import opened Bytes

  // --- one word ---

  /** `width` bytes at `rva` hold an address, or the low part of one. */
  datatype Patch = Patch(rva: nat, width: nat)

  predicate Inside(p: Patch, size: nat) {
    p.rva + p.width <= size
  }

  predicate Apart(p: Patch, q: Patch) {
    p.rva + p.width <= q.rva || q.rva + q.width <= p.rva
  }

  function WordAt(img: seq<Byte>, p: Patch): nat
    requires Inside(p, |img|)
  {
    FromLittleEndian(img[p.rva..p.rva + p.width])
  }

  /** Replace the word by a value modulo its width. */
  function Put(img: seq<Byte>, p: Patch, value: int): (r: seq<Byte>)
    requires Inside(p, |img|)
    ensures |r| == |img|
  {
    img[..p.rva] + LittleEndian(value % Pow256(p.width), p.width) + img[p.rva + p.width..]
  }

  /** Move one word. */
  function Apply(img: seq<Byte>, p: Patch, delta: int): (r: seq<Byte>)
    requires Inside(p, |img|)
    ensures |r| == |img|
  {
    Put(img, p, WordAt(img, p) + delta)
  }

  predicate AllInside(ps: seq<Patch>, size: nat) {
    forall i :: 0 <= i < |ps| ==> Inside(ps[i], size)
  }

  /** Move every word of a list, in order. */
  function ApplyAll(img: seq<Byte>, ps: seq<Patch>, delta: int): (r: seq<Byte>)
    requires AllInside(ps, |img|)
    ensures |r| == |img|
    decreases |ps|
  {
    if ps == [] then img else ApplyAll(Apply(img, ps[0], delta), ps[1..], delta)
  }

  // --- the table ---

  function ReadU16(s: seq<Byte>, at: nat): (r: nat)
    requires at + 2 <= |s|
    ensures r < 0x1_0000
  {
    var high: nat := s[at + 1];
    256 * high + s[at]
  }

  function ReadU32(s: seq<Byte>, at: nat): (r: nat)
    requires at + 4 <= |s|
    ensures r < TWO_32
  {
    ReadU16(s, at) + 0x1_0000 * ReadU16(s, at + 2)
  }

  /** Bytes that a relocation type patches; 0 for the types that are skipped. */
  function WidthOf(typ: nat): nat {
    match typ
    case 10 => 8
    case 3 => 4
    case 2 => 2
    case _ => 0
  }

  /** The word a table entry names: type in the high 4 bits, offset in its page in the low 12. */
  function EntryPatch(page: nat, entry: nat): Patch {
    Patch((page + entry % 0x1000) % TWO_32, WidthOf(entry / 0x1000))
  }

  /** How a walk ends: at the end of the table, at a malformed block or a word that starts outside the image, or at a
      word whose last bytes are not mapped. */
  datatype Status = Complete | Malformed | Unmapped

  /** Words named by the entries from index `i` on, as far as the walk gets. Only the first byte of a word is checked
      against the image, the first `size` of `mapped` bytes. */
  function DecodeEntries(page: nat, entries: seq<Byte>, i: nat, size: nat, mapped: nat): (seq<Patch>, Status)
    decreases |entries| - 2 * i
  {
    if 2 * i + 2 > |entries| then ([], Complete)
    else
      var entry := ReadU16(entries, 2 * i);
      var p := EntryPatch(page, entry);
      if entry / 0x1000 == 0 then DecodeEntries(page, entries, i + 1, size, mapped)
      else if p.rva >= size then ([], Malformed)
      else if !Inside(p, mapped) then ([], Unmapped)
      else
        var (ps, s) := DecodeEntries(page, entries, i + 1, size, mapped);
        (if p.width == 0 then ps else [p] + ps, s)
  }

  /** The same for all blocks from `pos` on. */
  function DecodeBlocks(table: seq<Byte>, pos: nat, size: nat, mapped: nat): (seq<Patch>, Status)
    decreases |table| - pos
  {
    if pos + 8 > |table| then ([], Complete)
    else
      var blockSize := ReadU32(table, pos + 4);
      if blockSize < 8 || pos + blockSize > |table| then ([], Malformed)
      else
        var (ps, s) := DecodeEntries(ReadU32(table, pos), table[pos + 8..pos + blockSize], 0, size, mapped);
        if s != Complete then (ps, s)
        else
          var (qs, t) := DecodeBlocks(table, pos + blockSize, size, mapped);
          (ps + qs, t)
  }

  /** Every word patched starts in the image and ends in what is mapped. */
  ghost predicate Reachable(ps: seq<Patch>, size: nat, mapped: nat) {
    forall i :: 0 <= i < |ps| ==> ps[i].rva < size && 0 < ps[i].width && Inside(ps[i], mapped)
  }

  lemma {:induction false} EntriesReachable(page: nat, entries: seq<Byte>, i: nat, size: nat, mapped: nat)
    ensures Reachable(DecodeEntries(page, entries, i, size, mapped).0, size, mapped)
    decreases |entries| - 2 * i
  {
    hide EntryPatch, ReadU16;
    if 2 * i + 2 <= |entries| {
      EntriesReachable(page, entries, i + 1, size, mapped);
    }
  }

  lemma {:induction false} BlocksReachable(table: seq<Byte>, pos: nat, size: nat, mapped: nat)
    ensures Reachable(DecodeBlocks(table, pos, size, mapped).0, size, mapped)
    decreases |table| - pos
  {
    hide DecodeEntries, ReadU32, Inside;
    if pos + 8 <= |table| {
      var blockSize := ReadU32(table, pos + 4);
      if 8 <= blockSize && pos + blockSize <= |table| {
        EntriesReachable(ReadU32(table, pos), table[pos + 8..pos + blockSize], 0, size, mapped);
        BlocksReachable(table, pos + blockSize, size, mapped);
      }
    }
  }

  // --- the walk, in place ---

  /** Patch one word where it is. */
  method PatchInPlace(img: array<Byte>, p: Patch, delta: int)
    requires Inside(p, img.Length)
    modifies img
    ensures img[..] == Apply(old(img[..]), p, delta)
  {
    var word := FromLittleEndian(img[p.rva..p.rva + p.width]);
    var bytes := LittleEndian((word + delta) % Pow256(p.width), p.width);
    ghost var was := img[..];
    assert was[p.rva..p.rva + p.width] == img[p.rva..p.rva + p.width];
    assert was[..p.rva] == img[..p.rva] && was[p.rva + p.width..] == img[p.rva + p.width..];
    hide LittleEndian, FromLittleEndian;
    WriteBytes(img, p.rva, bytes);
  }

  method WriteBytes(img: array<Byte>, at: nat, bytes: seq<Byte>)
    requires at + |bytes| <= img.Length
    modifies img
    ensures img[..] == old(img[..at]) + bytes + old(img[at + |bytes|..])
  {
    for i := 0 to |bytes|
      invariant forall k :: 0 <= k < i ==> img[at + k] == bytes[k]
      invariant forall k :: 0 <= k < img.Length && !(at <= k < at + i) ==> img[k] == old(img[k])
    {
      img[at + i] := bytes[i];
    }
    assert img[..at] == old(img[..at]) && img[at..at + |bytes|] == bytes;
    assert img[at + |bytes|..] == old(img[at + |bytes|..]);
    assert img[..] == img[..at] + img[at..at + |bytes|] + img[at + |bytes|..];
  }

  /** Apply the table to the image in the first `size` bytes of `img`; what follows them is mapped too. Skipped
      entirely when the image is at its preferred base. */
  method ApplyRelocations(img: array<Byte>, size: nat, table: seq<Byte>, delta: int) returns (s: Status)
    requires size <= img.Length
    modifies img
    ensures s == if delta == 0 then Complete else DecodeBlocks(table, 0, size, img.Length).1
    ensures AllInside(DecodeBlocks(table, 0, size, img.Length).0, img.Length)
    ensures img[..] == ApplyAll(old(img[..]), DecodeBlocks(table, 0, size, img.Length).0, delta)
  {
    BlocksReachable(table, 0, size, img.Length);
    if delta == 0 {
      ZeroMovesNothing(img[..], DecodeBlocks(table, 0, size, img.Length).0);
      return Complete;
    }
    s := WalkTable(img, size, table, delta);
  }

  /** Walk the table and move every word it names, up to the first that cannot be. */
  method WalkTable(img: array<Byte>, size: nat, table: seq<Byte>, delta: int) returns (s: Status)
    requires size <= img.Length
    modifies img
    ensures s == DecodeBlocks(table, 0, size, img.Length).1
    ensures AllInside(DecodeBlocks(table, 0, size, img.Length).0, img.Length)
    ensures img[..] == ApplyAll(old(img[..]), DecodeBlocks(table, 0, size, img.Length).0, delta)
  {
    AllReachable(table, size, img.Length);
    hide DecodeBlocks, DecodeEntries, AllInside, ApplyAll, ReadU32, Split;
    ghost var was := img[..];
    NoPatch(was, img.Length, delta);
    ghost var all := DecodeBlocks(table, 0, size, img.Length);
    var pos := 0;
    ghost var done: seq<Patch> := [];
    SplitStart(all);
    while pos + 8 <= |table|
      invariant Split(all, done, DecodeBlocks(table, pos, size, img.Length))
      invariant AllInside(done, img.Length) && img[..] == ApplyAll(was, done, delta)
      decreases |table| - pos
    {
      BlockStep(table, pos, size, img.Length);
      var page := ReadU32(table, pos);
      var blockSize := ReadU32(table, pos + 4);
      if blockSize < 8 || pos + blockSize > |table| {
        SplitEnd(all, done, Malformed);
        return Malformed;
      }
      var entries := table[pos + 8..pos + blockSize];
      ghost var here := DecodeEntries(page, entries, 0, size, img.Length).0;
      s := ApplyBlock(img, size, page, entries, delta);
      ApplyMore(was, done, here, delta);
      if s != Complete {
        SplitLast(all, done, here, s);
        return s;
      }
      SplitStep(all, done, here, DecodeBlocks(table, pos + blockSize, size, img.Length));
      done := done + here;
      pos := pos + blockSize;
    }
    BlocksEnd(table, pos, size, img.Length);
    SplitEnd(all, done, Complete);
    return Complete;
  }

  /** The words `done` and then those of `rest`. */
  ghost predicate Split(all: (seq<Patch>, Status), done: seq<Patch>, rest: (seq<Patch>, Status)) {
    all == (done + rest.0, rest.1)
  }

  lemma {:induction false} SplitStart(all: (seq<Patch>, Status))
    ensures Split(all, [], all)
  {
    assert [] + all.0 == all.0;
  }

  lemma {:induction false} SplitStep(all: (seq<Patch>, Status), done: seq<Patch>, here: seq<Patch>, next: (seq<Patch>, Status))
    requires Split(all, done, (here + next.0, next.1))
    ensures Split(all, done + here, next)
  {
    assert done + (here + next.0) == done + here + next.0;
  }

  lemma {:induction false} SplitLast(all: (seq<Patch>, Status), done: seq<Patch>, here: seq<Patch>, s: Status)
    requires Split(all, done, (here, s))
    ensures all == (done + here, s)
  {
  }

  lemma {:induction false} SplitEnd(all: (seq<Patch>, Status), done: seq<Patch>, s: Status)
    requires Split(all, done, ([], s))
    ensures all == (done, s)
  {
    assert done + [] == done;
  }

  lemma {:induction false} ApplyMore(img: seq<Byte>, done: seq<Patch>, ps: seq<Patch>, delta: int)
    requires AllInside(done, |img|) && AllInside(ps, |img|)
    ensures AllInside(done + ps, |img|) && ApplyAll(img, done + ps, delta) == ApplyAll(ApplyAll(img, done, delta), ps, delta)
  {
    InsideJoin(done, ps, |img|);
    ApplyAllAppend(img, done, ps, delta);
  }

  lemma {:induction false} AllReachable(table: seq<Byte>, size: nat, mapped: nat)
    ensures AllInside(DecodeBlocks(table, 0, size, mapped).0, mapped)
  {
    BlocksReachable(table, 0, size, mapped);
  }

  lemma {:induction false} NoPatch(img: seq<Byte>, size: nat, delta: int)
    ensures AllInside([], size) && ApplyAll(img, [], delta) == img
  {
  }

  lemma {:induction false} BlocksEnd(table: seq<Byte>, pos: nat, size: nat, mapped: nat)
    requires pos + 8 > |table|
    ensures DecodeBlocks(table, pos, size, mapped) == ([], Complete)
  {
  }

  /** One block, then the rest. */
  lemma {:induction false} BlockStep(table: seq<Byte>, pos: nat, size: nat, mapped: nat)
    requires pos + 8 <= |table|
    ensures var blockSize := ReadU32(table, pos + 4); var all := DecodeBlocks(table, pos, size, mapped);
      if blockSize < 8 || pos + blockSize > |table| then all == ([], Malformed)
      else
        var (ps, s) := DecodeEntries(ReadU32(table, pos), table[pos + 8..pos + blockSize], 0, size, mapped);
        var rest := DecodeBlocks(table, pos + blockSize, size, mapped);
        all == if s == Complete then (ps + rest.0, rest.1) else (ps, s)
  {
  }

  lemma {:induction false} InsideJoin(ps: seq<Patch>, qs: seq<Patch>, size: nat)
    requires AllInside(ps, size) && AllInside(qs, size)
    ensures AllInside(ps + qs, size)
  {
  }

  /** One block. */
  method ApplyBlock(img: array<Byte>, size: nat, page: nat, entries: seq<Byte>, delta: int) returns (s: Status)
    requires size <= img.Length
    modifies img
    ensures s == DecodeEntries(page, entries, 0, size, img.Length).1
    ensures AllInside(DecodeEntries(page, entries, 0, size, img.Length).0, img.Length)
    ensures img[..] == ApplyAll(old(img[..]), DecodeEntries(page, entries, 0, size, img.Length).0, delta)
  {
    EntriesReachable(page, entries, 0, size, img.Length);
    assert AllInside(DecodeEntries(page, entries, 0, size, img.Length).0, img.Length);
    hide Apply, ReadU16, DecodeEntries, EntryPatch, AllInside, ApplyAll, Reachable, Split;
    ghost var was := img[..];
    NoPatch(was, img.Length, delta);
    ghost var all := DecodeEntries(page, entries, 0, size, img.Length);
    ghost var done: seq<Patch> := [];
    SplitStart(all);
    var n := |entries| / 2;
    for i := 0 to n
      invariant Split(all, done, DecodeEntries(page, entries, i, size, img.Length))
      invariant AllInside(done, img.Length) && img[..] == ApplyAll(was, done, delta)
    {
      EntryStep(page, entries, i, size, img.Length);
      var entry := ReadU16(entries, 2 * i);
      if entry / 0x1000 != 0 {
        var p := EntryPatch(page, entry);
        if p.rva >= size {
          SplitEnd(all, done, Malformed);
          return Malformed;
        }
        if p.rva + p.width > img.Length {
          SplitEnd(all, done, Unmapped);
          return Unmapped;
        }
        if p.width != 0 {
          PatchInPlace(img, p, delta);
          ApplyOneMore(was, done, p, delta);
          SplitStep(all, done, [p], DecodeEntries(page, entries, i + 1, size, img.Length));
          done := done + [p];
        }
      }
    }
    EntriesEnd(page, entries, n, size, img.Length);
    SplitEnd(all, done, Complete);
    return Complete;
  }

  lemma {:induction false} EntriesEnd(page: nat, entries: seq<Byte>, i: nat, size: nat, mapped: nat)
    requires 2 * i + 2 > |entries|
    ensures DecodeEntries(page, entries, i, size, mapped) == ([], Complete)
  {
  }

  /** One entry, then the rest. */
  lemma {:induction false} EntryStep(page: nat, entries: seq<Byte>, i: nat, size: nat, mapped: nat)
    requires 2 * i + 2 <= |entries|
    ensures var entry := ReadU16(entries, 2 * i); var p := EntryPatch(page, entry);
      var rest := DecodeEntries(page, entries, i + 1, size, mapped);
      DecodeEntries(page, entries, i, size, mapped) ==
        if entry / 0x1000 == 0 then rest
        else if p.rva >= size then ([], Malformed)
        else if p.rva + p.width > mapped then ([], Unmapped)
        else if p.width == 0 then rest
        else ([p] + rest.0, rest.1)
  {
    hide ReadU16, EntryPatch;
  }

  lemma {:induction false} ApplyOneMore(img: seq<Byte>, done: seq<Patch>, p: Patch, delta: int)
    requires AllInside(done, |img|) && Inside(p, |img|)
    ensures AllInside(done + [p], |img|) && ApplyAll(img, done + [p], delta) == Apply(ApplyAll(img, done, delta), p, delta)
  {
    ApplyAllAppend(img, done, [p], delta);
    OnePatch(ApplyAll(img, done, delta), p, delta);
  }

  lemma {:induction false} OnePatch(img: seq<Byte>, p: Patch, delta: int)
    requires Inside(p, |img|)
    ensures ApplyAll(img, [p], delta) == Apply(img, p, delta)
  {
    assert [p][1..] == [];
  }

  lemma {:induction false} ApplyAllAppend(img: seq<Byte>, ps: seq<Patch>, qs: seq<Patch>, delta: int)
    requires AllInside(ps, |img|) && AllInside(qs, |img|)
    ensures ApplyAll(img, ps + qs, delta) == ApplyAll(ApplyAll(img, ps, delta), qs, delta)
    decreases |ps|
  {
    if ps == [] {
      assert ps + qs == qs;
    } else {
      assert (ps + qs)[1..] == ps[1..] + qs;
      ApplyAllAppend(Apply(img, ps[0], delta), ps[1..], qs, delta);
    }
  }

  // --- laws ---

  /** What putting a word leaves and changes. */
  lemma {:induction false} PutFacts(img: seq<Byte>, p: Patch, value: int)
    requires Inside(p, |img|)
    ensures WordAt(Put(img, p, value), p) == value % Pow256(p.width)
    ensures forall i :: 0 <= i < |img| && !(p.rva <= i < p.rva + p.width) ==> Put(img, p, value)[i] == img[i]
  {
    var bytes := LittleEndian(value % Pow256(p.width), p.width);
    assert Put(img, p, value)[p.rva..p.rva + p.width] == bytes;
    LittleEndianRoundTrip(value % Pow256(p.width), p.width);
  }

  /** The last value put is the one that stays. */
  lemma {:induction false} PutTwice(img: seq<Byte>, p: Patch, a: int, b: int)
    requires Inside(p, |img|)
    ensures Put(Put(img, p, a), p, b) == Put(img, p, b)
  {
  }

  lemma {:induction false} PutMod(img: seq<Byte>, p: Patch, a: int, b: int)
    requires Inside(p, |img|) && a % Pow256(p.width) == b % Pow256(p.width)
    ensures Put(img, p, a) == Put(img, p, b)
  {
  }

  /** Adding to a remainder. */
  lemma {:induction false} ModAdd(x: int, d: int, m: int)
    requires m > 0
    ensures (x % m + d) % m == (x + d) % m
  {
    var q := x / m;
    assert x == m * q + x % m;
    ModMultiple(x % m + d, q, m);
  }

  lemma {:induction false} ModMultiple(y: int, q: int, m: int)
    requires m > 0
    ensures (y + m * q) % m == y % m
    decreases if q >= 0 then q else -q
  {
    if q > 0 {
      ModMultiple(y, q - 1, m);
      ModOnce(y + m * (q - 1), m);
      assert y + m * q == y + m * (q - 1) + m;
    } else if q < 0 {
      ModMultiple(y, q + 1, m);
      ModOnce(y + m * q, m);
      assert y + m * (q + 1) == y + m * q + m;
    }
  }

  lemma {:induction false} ModOnce(y: int, m: int)
    requires m > 0
    ensures (y + m) % m == y % m
  {
    var q, r := y / m, y % m;
    assert y + m == m * (q + 1) + r;
    assert (y + m) / m == q + 1 by {
      var q2, r2 := (y + m) / m, (y + m) % m;
      assert m * (q2 - (q + 1)) == r - r2;
      SmallMultiple(m, q2 - (q + 1), r - r2);
    }
  }

  lemma {:induction false} SmallMultiple(m: int, k: int, r: int)
    requires m > 0 && m * k == r && -m < r < m
    ensures k == 0
  {
    if k > 0 {
      AtLeast(m, k);
    } else if k < 0 {
      AtLeast(m, -k);
    }
  }

  lemma {:induction false} AtLeast(m: int, k: int)
    requires m > 0 && k > 0
    ensures m * k >= m
    decreases k
  {
    if k > 1 {
      AtLeast(m, k - 1);
    }
  }

  /** One word: moving by `d1` and then by `d2` is moving by their sum. */
  lemma {:induction false} ApplyTwice(img: seq<Byte>, p: Patch, d1: int, d2: int)
    requires Inside(p, |img|)
    ensures Apply(Apply(img, p, d1), p, d2) == Apply(img, p, d1 + d2)
  {
    hide Put, WordAt, Pow256;
    var w := WordAt(img, p);
    PutFacts(img, p, w + d1);
    PutTwice(img, p, w + d1, (w + d1) % Pow256(p.width) + d2);
    ModAdd(w + d1, d2, Pow256(p.width));
    PutMod(img, p, (w + d1) % Pow256(p.width) + d2, w + d1 + d2);
  }

  lemma {:induction false} ApplyZero(img: seq<Byte>, p: Patch)
    requires Inside(p, |img|)
    ensures Apply(img, p, 0) == img
  {
    var slice := img[p.rva..p.rva + p.width];
    var m := Pow256(p.width);
    FromLittleEndianBound(slice);
    BytesRoundTrip(slice);
    SmallMod(WordAt(img, p), m);
    assert img == img[..p.rva] + slice + img[p.rva + p.width..];
  }

  lemma {:induction false} SmallMod(x: nat, m: nat)
    requires x < m
    ensures x % m == x
  {
  }

  /** A word outside what is patched keeps its value. */
  lemma {:induction false} ApplyOther(img: seq<Byte>, p: Patch, q: Patch, delta: int)
    requires Inside(p, |img|) && Inside(q, |img|) && Apart(p, q)
    ensures WordAt(Apply(img, p, delta), q) == WordAt(img, q)
  {
    PutFacts(img, p, WordAt(img, p) + delta);
    assert Apply(img, p, delta)[q.rva..q.rva + q.width] == img[q.rva..q.rva + q.width];
  }

  /** Two words that do not overlap can be moved in either order. */
  lemma {:induction false} ApplyCommutes(img: seq<Byte>, p: Patch, q: Patch, d: int, e: int)
    requires Inside(p, |img|) && Inside(q, |img|) && Apart(p, q)
    ensures Apply(Apply(img, p, d), q, e) == Apply(Apply(img, q, e), p, d)
  {
    ApplyOther(img, p, q, d);
    ApplyOther(img, q, p, e);
    PutCommutes(img, p, WordAt(img, p) + d, q, WordAt(img, q) + e);
  }

  /** One byte of a patched image. */
  lemma {:induction false} PutAt(img: seq<Byte>, p: Patch, value: int, i: nat)
    requires Inside(p, |img|) && i < |img|
    ensures Put(img, p, value)[i] ==
      if p.rva <= i < p.rva + p.width then LittleEndian(value % Pow256(p.width), p.width)[i - p.rva] else img[i]
  {
  }

  lemma {:induction false} PutCommutes(img: seq<Byte>, p: Patch, a: int, q: Patch, b: int)
    requires Inside(p, |img|) && Inside(q, |img|) && Apart(p, q)
    ensures Put(Put(img, p, a), q, b) == Put(Put(img, q, b), p, a)
  {
    hide Put, LittleEndian, Pow256;
    var x, y := Put(Put(img, p, a), q, b), Put(Put(img, q, b), p, a);
    forall i | 0 <= i < |img| ensures x[i] == y[i] {
      PutAt(img, p, a, i);
      PutAt(img, q, b, i);
      PutAt(Put(img, p, a), q, b, i);
      PutAt(Put(img, q, b), p, a, i);
    }
  }

  ghost predicate PairwiseApart(ps: seq<Patch>) {
    forall i, j :: 0 <= i < j < |ps| ==> Apart(ps[i], ps[j])
  }

  lemma {:induction false} ApplyAllCommutes(img: seq<Byte>, p: Patch, ps: seq<Patch>, d: int, e: int)
    requires Inside(p, |img|) && AllInside(ps, |img|) && forall i :: 0 <= i < |ps| ==> Apart(p, ps[i])
    ensures Apply(ApplyAll(img, ps, d), p, e) == ApplyAll(Apply(img, p, e), ps, d)
    decreases |ps|
  {
    if ps != [] {
      ApplyCommutes(img, p, ps[0], e, d);
      ApplyAllCommutes(Apply(img, ps[0], d), p, ps[1..], d, e);
    }
  }

  /** For a table of words that do not overlap: relocating by `d1` and then by `d2` is relocating by their sum. */
  lemma {:induction false} RelocationsCompose(img: seq<Byte>, ps: seq<Patch>, d1: int, d2: int)
    requires AllInside(ps, |img|) && PairwiseApart(ps)
    ensures ApplyAll(ApplyAll(img, ps, d1), ps, d2) == ApplyAll(img, ps, d1 + d2)
    decreases |ps|
  {
    if ps != [] {
      var p, rest := ps[0], ps[1..];
      ApplyAllCommutes(Apply(img, p, d1), p, rest, d1, d2);
      ApplyTwice(img, p, d1, d2);
      RelocationsCompose(Apply(img, p, d1 + d2), rest, d1, d2);
    }
  }

  /** Relocating by nothing changes nothing, overlapping or not: the shortcut for an image at its preferred base
      leaves the bytes the full walk would. */
  lemma {:induction false} ZeroMovesNothing(img: seq<Byte>, ps: seq<Patch>)
    requires AllInside(ps, |img|)
    ensures ApplyAll(img, ps, 0) == img
    decreases |ps|
  {
    if ps != [] {
      ApplyZero(img, ps[0]);
      ZeroMovesNothing(img, ps[1..]);
    }
  }

  /** Relocating back restores the image. */
  lemma {:induction false} RelocationsUndo(img: seq<Byte>, ps: seq<Patch>, d: int)
    requires AllInside(ps, |img|) && PairwiseApart(ps)
    ensures ApplyAll(ApplyAll(img, ps, d), ps, -d) == img
  {
    RelocationsCompose(img, ps, d, -d);
    ZeroMovesNothing(img, ps);
  }

  /** For such a table, every word named gains `delta` modulo its width. */
  lemma {:induction false} WordsMoved(img: seq<Byte>, ps: seq<Patch>, delta: int, i: nat)
    requires AllInside(ps, |img|) && PairwiseApart(ps) && i < |ps|
    ensures WordAt(ApplyAll(img, ps, delta), ps[i]) == (WordAt(img, ps[i]) + delta) % Pow256(ps[i].width)
    decreases |ps|
  {
    hide WordAt, Put;
    var p, rest := ps[0], ps[1..];
    var img1 := Apply(img, p, delta);
    if i == 0 {
      PutFacts(img, p, WordAt(img, p) + delta);
      WordSurvives(img1, rest, delta, p);
    } else {
      WordsMoved(img1, rest, delta, i - 1);
      ApplyOther(img, p, ps[i], delta);
    }
  }

  /** Every byte outside the words named is unchanged. */
  lemma {:induction false} OtherBytesKept(img: seq<Byte>, ps: seq<Patch>, delta: int, i: nat)
    requires AllInside(ps, |img|) && i < |img|
    requires forall j :: 0 <= j < |ps| ==> !(ps[j].rva <= i < ps[j].rva + ps[j].width)
    ensures ApplyAll(img, ps, delta)[i] == img[i]
    decreases |ps|
  {
    if ps != [] {
      hide WordAt, Put;
      PutFacts(img, ps[0], WordAt(img, ps[0]) + delta);
      OtherBytesKept(Apply(img, ps[0], delta), ps[1..], delta, i);
    }
  }

  lemma {:induction false} WordSurvives(img: seq<Byte>, ps: seq<Patch>, delta: int, q: Patch)
    requires AllInside(ps, |img|) && Inside(q, |img|) && forall i :: 0 <= i < |ps| ==> Apart(q, ps[i])
    ensures WordAt(ApplyAll(img, ps, delta), q) == WordAt(img, q)
    decreases |ps|
  {
    if ps != [] {
      ApplyOther(img, ps[0], q, delta);
      WordSurvives(Apply(img, ps[0], delta), ps[1..], delta, q);
    }
  }

  // --- past the end of the image ---

  /** Whatever the image holds and wherever it is moved to, what follows it is left alone. */
  ghost predicate TailKept(ps: seq<Patch>, size: nat, mapped: nat)
    requires size <= mapped && AllInside(ps, mapped)
  {
    forall img: seq<Byte>, delta: int :: |img| == mapped ==> ApplyAll(img, ps, delta)[size..] == img[size..]
  }

  /** For words that do not overlap, what follows the image is left alone exactly when every word ends inside it,
      which the source does not check. */
  lemma {:induction false} TailKeptExact(ps: seq<Patch>, size: nat, mapped: nat)
    requires size <= mapped && Reachable(ps, size, mapped) && PairwiseApart(ps)
    ensures AllInside(ps, mapped) && (TailKept(ps, size, mapped) <==> AllInside(ps, size))
  {
    if AllInside(ps, size) {
      forall img: seq<Byte>, delta: int | |img| == mapped ensures ApplyAll(img, ps, delta)[size..] == img[size..] {
        InsideKeepsTail(img, ps, size, delta);
      }
    } else {
      var i :| 0 <= i < |ps| && !Inside(ps[i], size);
      OverrunWrites(ps, size, mapped, i);
    }
  }

  lemma {:induction false} InsideKeepsTail(img: seq<Byte>, ps: seq<Patch>, size: nat, delta: int)
    requires size <= |img| && AllInside(ps, size) && AllInside(ps, |img|)
    ensures ApplyAll(img, ps, delta)[size..] == img[size..]
  {
    forall k | size <= k < |img| ensures ApplyAll(img, ps, delta)[k] == img[k] {
      OtherBytesKept(img, ps, delta, k);
    }
  }

  /** A word that ends past the image: in an image of zeros moved by -1 its last byte becomes 255. */
  lemma {:induction false} OverrunWrites(ps: seq<Patch>, size: nat, mapped: nat, i: nat)
    requires size <= mapped && Reachable(ps, size, mapped) && PairwiseApart(ps) && AllInside(ps, mapped)
    requires i < |ps| && !Inside(ps[i], size)
    ensures !TailKept(ps, size, mapped)
  {
    var p := ps[i];
    var zeros: seq<Byte> := seq(mapped, _ => 0);
    var moved := ApplyAll(zeros, ps, -1);
    WordsMoved(zeros, ps, -1, i);
    ZeroWord(zeros[p.rva..p.rva + p.width]);
    MinusOne(p.width);
    var word := moved[p.rva..p.rva + p.width];
    AllOnes(word);
    assert word[p.width - 1] == moved[p.rva + p.width - 1];
    assert moved[size..][p.rva + p.width - 1 - size] == 255 && zeros[size..][p.rva + p.width - 1 - size] == 0;
  }

  lemma {:induction false} ZeroWord(bs: seq<Byte>)
    requires forall k :: 0 <= k < |bs| ==> bs[k] == 0
    ensures FromLittleEndian(bs) == 0
  {
    if bs != [] {
      ZeroWord(bs[1..]);
    }
  }

  lemma {:induction false} MinusOne(width: nat)
    ensures -1 % Pow256(width) == Pow256(width) - 1
  {
    ModOnce(-1, Pow256(width));
    SmallMod(Pow256(width) - 1, Pow256(width));
  }

  /** The bytes of the largest number of a width are all 255. */
  lemma {:induction false} AllOnes(bs: seq<Byte>)
    requires FromLittleEndian(bs) == Pow256(|bs|) - 1
    ensures forall k :: 0 <= k < |bs| ==> bs[k] == 255
  {
    if bs != [] {
      FromLittleEndianBound(bs[1..]);
      assert FromLittleEndian(bs[1..]) == Pow256(|bs[1..]|) - 1;
      AllOnes(bs[1..]);
    }
  }

  /** A table of one block for page 0 with one 8-byte entry at offset 4095. */
  const OVERRUNNING_TABLE: seq<Byte> := [0, 0, 0, 0, 10, 0, 0, 0, 0xFF, 0xAF]

  /** In an image of 4096 bytes it names a word that ends 7 bytes past the image: accepted and patched if those bytes
      are mapped, a fault if they are not. */
  lemma {:induction false} OverrunAccepted()
    ensures DecodeBlocks(OVERRUNNING_TABLE, 0, 4096, 4103) == ([Patch(4095, 8)], Complete)
    ensures DecodeBlocks(OVERRUNNING_TABLE, 0, 4096, 4096) == ([], Unmapped)
    ensures !Inside(Patch(4095, 8), 4096)
  {
    var t := OVERRUNNING_TABLE;
    var entries := t[8..10];
    assert entries == [0xFF, 0xAF] && ReadU16(entries, 0) == 0xAFFF;
    assert EntryPatch(0, 0xAFFF) == Patch(4095, 8);
    assert ReadU32(t, 0) == 0 && ReadU32(t, 4) == 10;
    hide DecodeBlocks, DecodeEntries, ReadU16, ReadU32, EntryPatch;
    EntriesEnd(0, entries, 1, 4096, 4103);
    EntryStep(0, entries, 0, 4096, 4103);
    EntryStep(0, entries, 0, 4096, 4096);
    BlocksEnd(t, 10, 4096, 4103);
    BlockStep(t, 0, 4096, 4103);
    BlockStep(t, 0, 4096, 4096);
    assert [Patch(4095, 8)] + [] == [Patch(4095, 8)];
  }
}
