/** The arena that trampolines are written into: a growing set of mappings, writable first, executable later. */
module ThunkArenas {
  import opened Wrappers
  import opened Bytes
  import opened X86
  import opened ThunkCode

  /** The multiple of `unit` reached from `n` by adding less than `unit`. */
  function RoundUp(n: nat, unit: nat): (r: nat)
    requires unit > 0
    ensures n <= r < n + unit && exists q: nat :: r == q * unit
  {
    var q := (n + unit - 1) / unit;
    assert n + unit - 1 == q * unit + (n + unit - 1) % unit;
    q * unit
  }

  lemma {:induction false} Aligned16(n: nat)
    ensures RoundUp(n, 16) % 16 == 0 && (n == 0 ==> RoundUp(n, 16) == 0)
  {
  }

  predicate PageAligned(b: nat, page: nat) {
    page > 0 && b % page == 0
  }

  lemma {:induction false} Multiple16(n: nat, page: nat)
    requires page % 16 == 0 && PageAligned(n, page)
    ensures n % 16 == 0
  {
    var q, p := n / page, page / 16;
    assert n == q * page && page == 16 * p;
    assert n == 16 * (q * p);
  }

  // --- the kernel ---

  datatype Mapping = Mapping(bytes: seq<Byte>, writable: bool, executable: bool)

  predicate Apart(a: nat, alen: nat, b: nat, blen: nat) {
    a + alen <= b || b + blen <= a
  }

  /** The mappings of the process. */
  class Kernel {
    const page: nat
    var maps: map<nat, Mapping>

    ghost predicate Valid()
      reads this
    {
      && page > 0 && page % 16 == 0
      && (forall b :: b in maps ==> b > 0 && PageAligned(b, page))
      && (forall a, b :: a in maps && b in maps && a != b ==> Apart(a, |maps[a].bytes|, b, |maps[b].bytes|))
    }

    /** A range where a new anonymous mapping may be placed. */
    ghost predicate Free(b: nat, len: nat)
      reads this
    {
      && b > 0 && PageAligned(b, page) && b !in maps
      && forall a :: a in maps ==> Apart(a, |maps[a].bytes|, b, len)
    }

    /** `answer` is the kernel's choice; `None` is a failed call. */
    method Mmap(len: nat, answer: Option<nat>) returns (r: Option<nat>)
      requires Valid() && (answer.Some? ==> Free(answer.value, len))
      modifies this
      ensures Valid() && r == answer
      ensures maps == (if answer.None? then old(maps) else old(maps)[answer.value := Mapping(seq(len, _ => 0), true, false)])
    {
      if answer.Some? {
        maps := maps[answer.value := Mapping(seq(len, _ => 0), true, false)];
      }
      r := answer;
    }

    /** Make a mapping readable and executable; `granted` is the kernel's answer. */
    method MprotectExec(b: nat, granted: bool) returns (ok: bool)
      requires Valid() && b in maps
      modifies this
      ensures Valid() && ok == granted
      ensures maps == (if granted then old(maps)[b := Mapping(old(maps)[b].bytes, false, true)] else old(maps))
    {
      if granted {
        maps := maps[b := Mapping(maps[b].bytes, false, true)];
      }
      ok := granted;
    }

    method Munmap(b: nat)
      requires Valid() && b in maps
      modifies this
      ensures Valid() && maps == old(maps) - {b}
    {
      maps := maps - {b};
    }

    /** Store bytes; a store to memory that is not writable would fault. */
    method Write(b: nat, off: nat, code: seq<Byte>)
      requires Valid() && b in maps && maps[b].writable && off + |code| <= |maps[b].bytes|
      modifies this
      ensures Valid()
      ensures var was := old(maps)[b];
        maps == old(maps)[b := was.(bytes := was.bytes[..off] + code + was.bytes[off + |code|..])]
    {
      var was := maps[b];
      maps := maps[b := was.(bytes := was.bytes[..off] + code + was.bytes[off + |code|..])];
    }
  }

  /** The same mappings with the same contents; protection may differ. */
  ghost predicate SameBytes(maps: map<nat, Mapping>, maps': map<nat, Mapping>) {
    maps'.Keys == maps.Keys && forall b :: b in maps ==> maps'[b].bytes == maps[b].bytes
  }

  // --- the arena ---

  datatype Block = Block(base: nat, len: nat)

  /** Code handed out: `code` at offset `off` of the mapping `block`. */
  datatype Span = Span(block: nat, off: nat, code: seq<Byte>) {
    function Addr(): nat { block + off }
  }

  class ThunkArena {
    const os: Kernel
    var base: nat
    var len: nat
    /** Write cursor, an offset from `base`. */
    var cursor: nat
    var sealed: bool
    /** Outgrown blocks; they stay mapped, because handed-out code is in them. */
    var retired: seq<Block>
    /** Everything handed out so far, oldest first. */
    ghost var handed: seq<Span>
    /** Not yet dropped. */
    ghost var alive: bool

    function Owned(): (bs: seq<Block>)
      reads this`base, this`len, this`retired
      ensures |bs| == |retired| + 1
    {
      retired + [Block(base, len)]
    }

    ghost predicate Owns(b: nat)
      reads this`base, this`len, this`retired
    {
      exists i :: 0 <= i < |Owned()| && Owned()[i].base == b
    }

    /** The block is one of the process's mappings. */
    ghost predicate IsMapped(b: Block)
      reads os
    {
      b.base in os.maps && |os.maps[b.base].bytes| == b.len
    }

    /** The code is in memory, intact, at a 16-aligned address. */
    ghost predicate Intact(s: Span)
      reads os
    {
      && s.off % 16 == 0 && s.Addr() % 16 == 0
      && s.block in os.maps && s.off + |s.code| <= |os.maps[s.block].bytes|
      && os.maps[s.block].bytes[s.off..s.off + |s.code|] == s.code
    }

    ghost predicate BelowCursor(s: Span)
      reads this`base, this`cursor
    {
      s.block == base ==> s.off + |s.code| <= cursor
    }

    ghost predicate BlockOk(b: Block)
      reads os
    {
      IsMapped(b) && !(os.maps[b.base].writable && os.maps[b.base].executable)
    }

    ghost predicate BlocksOk()
      reads this`base, this`len, this`retired, os
    {
      && (forall i :: 0 <= i < |Owned()| ==> BlockOk(Owned()[i]))
      && (forall i, j :: 0 <= i < j < |Owned()| ==> Owned()[i].base != Owned()[j].base)
    }

    ghost predicate SpansApart()
      reads this`handed
    {
      forall i, j :: 0 <= i < j < |handed| ==>
        Apart(handed[i].Addr(), |handed[i].code|, handed[j].Addr(), |handed[j].code|)
    }

    ghost predicate SpansOk()
      reads this`base, this`len, this`retired, this`cursor, this`handed, os
    {
      && (forall i :: 0 <= i < |handed| ==> Intact(handed[i]) && Owns(handed[i].block) && BelowCursor(handed[i]))
      && SpansApart()
    }

    /** Every block is executable and none is writable. */
    ghost predicate AllExecutable()
      reads this`base, this`len, this`retired, os
    {
      forall i :: 0 <= i < |Owned()| ==> IsExecutable(Owned()[i])
    }

    ghost predicate IsExecutable(b: Block)
      reads os
    {
      b.base in os.maps && os.maps[b.base].executable && !os.maps[b.base].writable
    }

    ghost predicate Writable()
      reads this`base, os
    {
      base in os.maps && os.maps[base].writable
    }

    ghost predicate Valid()
      reads this, os
    {
      && alive && os.Valid() && cursor <= len && IsMapped(Block(base, len)) && BlocksOk() && SpansOk()
      && (if sealed then AllExecutable() else Writable())
    }

    /** An arena of at least `capacity` bytes on a mapping the kernel just made at `at`. */
    constructor (os: Kernel, capacity: nat, at: nat)
      requires os.Valid() && os.Free(at, RoundUp(if capacity > os.page then capacity else os.page, os.page))
      modifies os
      ensures Valid() && fresh(this) && this.os == os && handed == [] && !sealed && retired == [] && cursor == 0
      ensures len >= capacity && len >= os.page && base == at
      ensures (exists q: nat :: len == q * os.page) && (len < capacity + os.page || len < 2 * os.page)
      ensures os.maps.Keys == old(os.maps.Keys) + {at} && forall b :: b in old(os.maps) ==> os.maps[b] == old(os.maps[b])
    {
      var n := RoundUp(if capacity > os.page then capacity else os.page, os.page);
      this.os := os;
      base, len, cursor, sealed, retired := at, n, 0, false, [];
      handed, alive := [], true;
      new;
      var _ := os.Mmap(n, Some(at));
    }

    /** Size of the block that replaces the live one when `need` bytes do not fit. */
    function NewLen(need: nat): (r: nat)
      reads this
      requires os.page > 0
      ensures need <= r && 2 * len <= r && (exists q: nat :: r == q * os.page) && (r < need + os.page || r < 2 * len + os.page)
    {
      RoundUp(if need > 2 * len then need else 2 * len, os.page)
    }

    /** The kernel's answer to a request for a block of `NewLen(need)` bytes. */
    ghost predicate Answerable(need: nat, answer: Option<nat>)
      reads this, os
      requires os.page > 0
    {
      answer.Some? ==> os.Free(answer.value, NewLen(need))
    }

    /** Where the next code would start in the live block. */
    function Aligned(): (r: nat)
      reads this
      ensures cursor <= r < cursor + 16 && r % 16 == 0
    {
      Aligned16(cursor);
      RoundUp(cursor, 16)
    }

    /** Retire the live block and start a fresh one; nothing is copied, nothing handed out moves. */
    method Grow(need: nat, answer: Option<nat>) returns (ok: bool)
      requires Valid() && !sealed && Answerable(need, answer)
      modifies this, os
      ensures Valid() && !sealed && handed == old(handed) && ok == answer.Some?
      ensures ok ==> cursor == 0 && len == old(NewLen(need)) && len >= need && retired == old(retired) + [old(Block(base, len))] && base == answer.value
      ensures ok ==> forall i :: 0 <= i < |handed| ==> handed[i].block != base
      ensures !ok ==> base == old(base) && len == old(len) && cursor == old(cursor) && retired == old(retired)
    {
      hide PageAligned, RoundUp, SpansApart, Apart;
      assert answer.Some? ==> answer.value !in os.maps;
      var newLen := NewLen(need);
      ghost var owned := Owned();
      ghost var maps := os.maps;
      var r := os.Mmap(newLen, answer);
      hide Kernel.Valid, Kernel.Free;
      if r.None? {
        return false;
      }
      retired := retired + [Block(base, len)];
      base, len, cursor, sealed := r.value, newLen, 0, false;
      assert Owned() == owned + [Block(base, len)];
      assert retired == owned;
      assert Owned()[|owned|] == Block(base, len);
      forall i | 0 <= i < |owned| ensures BlockOk(Owned()[i]) && Owned()[i].base != base {
        assert old(BlockOk(owned[i]));
      }
      forall i | 0 <= i < |handed| ensures Intact(handed[i]) && Owns(handed[i].block) && handed[i].block != base {
        assert old(Intact(handed[i]));
        var j :| 0 <= j < |owned| && owned[j].base == handed[i].block;
        assert Owned()[j].base == handed[i].block;
      }
      return true;
    }

    method MoveCursor(to: nat)
      requires Valid() && cursor <= to <= len
      modifies this`cursor
      ensures Valid() && cursor == to
    {
      cursor := to;
      assert forall i :: 0 <= i < |handed| ==> old(BelowCursor(handed[i]));
    }

    /** Reserve `n` bytes at a 16-aligned offset of the live block, growing if they do not fit. */
    method Alloc(n: nat, answer: Option<nat>) returns (r: Result<nat>)
      requires Valid() && Answerable(Aligned() + n, answer)
      modifies this, os
      ensures Valid() && handed == old(handed) && sealed == old(sealed)
      ensures r.Ok? <==> !old(sealed) && (old(Aligned() + n <= len) || answer.Some?)
      ensures old(sealed) ==> os.maps == old(os.maps)
      ensures r.Ok? ==> !sealed && r.value % 16 == 0 && r.value + n == cursor <= len
      ensures r.Ok? && old(Aligned() + n <= len) ==>
        r.value == old(Aligned()) && base == old(base) && len == old(len) && retired == old(retired) && os.maps == old(os.maps)
      ensures r.Ok? && old(Aligned() + n > len) ==>
        r.value == 0 && base == answer.value && len == old(NewLen(Aligned() + n)) && retired == old(retired) + [old(Block(base, len))]
      ensures r.Ok? ==> forall i :: 0 <= i < |handed| && handed[i].block == base ==> handed[i].off + |handed[i].code| <= r.value
    {
      if sealed {
        return Err("arena is sealed");
      }
      hide RoundUp;
      Aligned16(cursor);
      var aligned := RoundUp(cursor, 16);
      if aligned + n > len {
        var ok := Grow(aligned + n, answer);
        if !ok {
          return Err("mmap failed");
        }
        Aligned16(cursor);
        aligned := RoundUp(cursor, 16);
      }
      MoveCursor(aligned + n);
      return Ok(aligned);
    }

    /** Copy code into reserved space and hand its address out. */
    method Place(code: seq<Byte>, off: nat) returns (addr: nat)
      requires Valid() && !sealed && off % 16 == 0 && off + |code| == cursor
      requires forall i :: 0 <= i < |handed| && handed[i].block == base ==> handed[i].off + |handed[i].code| <= off
      modifies this`handed, os
      ensures Valid() && !sealed && handed == old(handed) + [Span(base, off, code)] && addr == base + off
    {
      hide Kernel.Valid, BlocksOk, Writable, AllExecutable, IsMapped, Intact, Owns, Owned;
      OwnsLive();
      ghost var before := handed;
      StoreCode(code, off);
      addr := base + off;
      handed := before + [Span(base, off, code)];
    }

    lemma {:induction false} OwnsLive()
      ensures Owns(base)
    {
      assert Owned()[|retired|].base == base;
    }

    /** Storing past every span of the live block leaves all spans intact and apart from what is stored. */
    method StoreCode(code: seq<Byte>, off: nat)
      requires os.Valid() && BlocksOk() && Writable() && IsMapped(Block(base, len)) && off + |code| <= len && off % 16 == 0
      requires forall i :: 0 <= i < |handed| ==> Intact(handed[i])
      requires forall i :: 0 <= i < |handed| && handed[i].block == base ==> handed[i].off + |handed[i].code| <= off
      modifies os
      ensures os.Valid() && BlocksOk() && Writable() && IsMapped(Block(base, len))
      ensures Intact(Span(base, off, code))
      ensures forall i :: 0 <= i < |handed| ==>
        Intact(handed[i]) && Apart(handed[i].Addr(), |handed[i].code|, base + off, |code|)
    {
      hide PageAligned;
      ghost var was := os.maps[base].bytes;
      os.Write(base, off, code);
      Multiple16(base, os.page);
      assert os.maps[base].bytes[off..off + |code|] == code;
      forall i | 0 <= i < |Owned()| ensures BlockOk(Owned()[i]) {
        assert old(BlockOk(Owned()[i]));
      }
      forall i | 0 <= i < |handed|
        ensures Intact(handed[i]) && Apart(handed[i].Addr(), |handed[i].code|, base + off, |code|)
      {
        var h := handed[i];
        assert old(Intact(h));
        if h.block == base {
          EarlierBytes(was, off, code, h.off, h.off + |h.code|);
        } else {
          assert Apart(h.block, |old(os.maps)[h.block].bytes|, base, |was|);
        }
      }
    }

    /** Overwriting bytes at `off` leaves earlier bytes of the mapping alone. */
    static lemma {:induction false} EarlierBytes(was: seq<Byte>, off: nat, code: seq<Byte>, lo: nat, hi: nat)
      requires lo <= hi <= off && off + |code| <= |was|
      ensures (was[..off] + code + was[off + |code|..])[lo..hi] == was[lo..hi]
    {
    }

    /** A trampoline for a function that returns: its address holds exactly the code proved correct in ThunkAbi. */
    method MakeThunk(target: Qword, n: nat, answer: Option<nat>) returns (r: Result<nat>)
      requires Valid()
      requires n <= 32 ==> Answerable(Aligned() + |Assemble(ReturningCode(target, n))|, answer)
      modifies this, os
      ensures r.Ok? <==> n <= 32 && !old(sealed)
                         && (old(Aligned() + |Assemble(ReturningCode(target, n))| <= len) || answer.Some?)
      ensures Valid() && sealed == old(sealed) && (n > 32 || old(sealed) ==> r.Err? && os.maps == old(os.maps))
      ensures r.Ok? ==>
        && |handed| == |old(handed)| + 1 && handed[..|old(handed)|] == old(handed)
        && handed[|old(handed)|].Addr() == r.value && handed[|old(handed)|].code == Assemble(ReturningCode(target, n))
      ensures r.Err? ==> handed == old(handed)
    {
      if n > 32 {
        return Err("too many arguments");
      }
      var code := EmitReturning(target, n);
      var off :- Alloc(|code|, answer);
      var addr := Place(code, off);
      return Ok(addr);
    }

    method MakeThunkNoreturn(target: Qword, n: nat, answer: Option<nat>) returns (r: Result<nat>)
      requires Valid()
      requires n <= 6 ==> Answerable(Aligned() + |Assemble(NoreturnCode(target, n))|, answer)
      modifies this, os
      ensures r.Ok? <==> n <= 6 && !old(sealed)
                         && (old(Aligned() + |Assemble(NoreturnCode(target, n))| <= len) || answer.Some?)
      ensures Valid() && sealed == old(sealed) && (n > 6 || old(sealed) ==> r.Err? && os.maps == old(os.maps))
      ensures r.Ok? ==>
        && |handed| == |old(handed)| + 1 && handed[..|old(handed)|] == old(handed)
        && handed[|old(handed)|].Addr() == r.value && handed[|old(handed)|].code == Assemble(NoreturnCode(target, n))
      ensures r.Err? ==> handed == old(handed)
    {
      if n > 6 {
        return Err("too many arguments");
      }
      var code := EmitNoreturn(target, n);
      var off :- Alloc(|code|, answer);
      var addr := Place(code, off);
      return Ok(addr);
    }

    /** Make every block executable, retired ones first and the live one last, stopping at the first refusal.
        After a refusal the live block is still writable, so the arena is still good for more code. */
    method Finalize(granted: seq<bool>) returns (r: Result<()>)
      requires Valid() && |granted| == |Owned()|
      modifies this, os
      ensures Valid() && handed == old(handed) && Owned() == old(Owned()) && cursor == old(cursor)
      ensures r.Ok? <==> old(sealed) || (forall i :: 0 <= i < |granted| ==> granted[i])
      ensures sealed <==> r.Ok?
      ensures r.Ok? ==> AllExecutable()
      ensures SameBytes(old(os.maps), os.maps)
    {
      if sealed {
        return Ok(());
      }
      hide PageAligned, Kernel.Valid, SpansOk, BlocksOk, Owned, IsMapped, Writable;
      var ok := SealAll(granted);
      if !ok {
        return Err("mprotect failed");
      }
      sealed := true;
      return Ok(());
    }

    method SealAll(granted: seq<bool>) returns (ok: bool)
      requires os.Valid() && BlocksOk() && SpansOk() && IsMapped(Block(base, len)) && Writable() && |granted| == |Owned()|
      modifies os
      ensures os.Valid() && BlocksOk() && SpansOk() && IsMapped(Block(base, len))
      ensures ok <==> forall i :: 0 <= i < |granted| ==> granted[i]
      ensures if ok then AllExecutable() else Writable()
      ensures SameBytes(old(os.maps), os.maps)
    {
      hide PageAligned, Kernel.Valid, SpansOk, BlocksOk, ExecutableUpTo, Owned, IsMapped, Writable, AllExecutable;
      NoneYet();
      for i := 0 to |granted|
        invariant os.Valid() && BlocksOk() && SpansOk() && IsMapped(Block(base, len)) && ExecutableUpTo(i)
        invariant SameBytes(old(os.maps), os.maps)
        invariant forall j :: 0 <= j < i ==> granted[j]
        invariant i <= |retired| ==> Writable()
      {
        var sealedOne := SealBlock(i, granted[i]);
        if !sealedOne {
          return false;
        }
      }
      AllOfThem();
      return true;
    }

    /** The first `i` blocks are sealed. */
    ghost predicate ExecutableUpTo(i: nat)
      reads this`base, this`len, this`retired, os
      requires i <= |Owned()|
    {
      forall j :: 0 <= j < i ==> IsExecutable(Owned()[j])
    }

    lemma {:induction false} NoneYet()
      ensures ExecutableUpTo(0)
    {
    }

    lemma {:induction false} AllOfThem()
      requires ExecutableUpTo(|Owned()|)
      ensures AllExecutable()
    {
    }

    method SealBlock(i: nat, granted: bool) returns (ok: bool)
      requires os.Valid() && BlocksOk() && SpansOk() && i < |Owned()| && ExecutableUpTo(i) && Writable()
      requires IsMapped(Block(base, len))
      modifies os
      ensures os.Valid() && BlocksOk() && SpansOk() && ok == granted && (ok ==> ExecutableUpTo(i + 1))
      ensures !ok || i < |retired| ==> Writable()
      ensures IsMapped(Block(base, len))
      ensures SameBytes(old(os.maps), os.maps)
    {
      assert BlockOk(Owned()[i]);
      assert Owned()[|retired|] == Block(base, len);
      ok := os.MprotectExec(Owned()[i].base, granted);
      forall j | 0 <= j < |Owned()| ensures BlockOk(Owned()[j]) {
        assert old(BlockOk(Owned()[j]));
      }
      forall j | 0 <= j < |handed| ensures Intact(handed[j]) {
        assert old(Intact(handed[j]));
      }
    }

    /** Once sealed, every address ever handed out is in executable memory that holds the code emitted for it. */
    lemma {:induction false} HandedOutStaysCallable(i: nat)
      requires Valid() && sealed && i < |handed|
      ensures var s := handed[i];
        && s.block in os.maps && os.maps[s.block].executable && !os.maps[s.block].writable
        && s.off + |s.code| <= |os.maps[s.block].bytes| && os.maps[s.block].bytes[s.off..s.off + |s.code|] == s.code
    {
      var j :| 0 <= j < |Owned()| && Owned()[j].base == handed[i].block;
      assert IsExecutable(Owned()[j]);
    }

    /** Release every owned mapping, each exactly once, and no other. */
    method Drop()
      requires Valid()
      modifies this, os
      ensures !alive && os.Valid()
      ensures os.maps.Keys == old(os.maps.Keys) - old(set i | 0 <= i < |Owned()| :: Owned()[i].base)
      ensures forall b :: b in os.maps ==> os.maps[b] == old(os.maps)[b]
    {
      var blocks := Owned();
      var i := 0;
      while i < |blocks|
        invariant 0 <= i <= |blocks| && blocks == old(Owned()) && os.Valid()
        invariant os.maps.Keys == old(os.maps.Keys) - set j | 0 <= j < i :: blocks[j].base
        invariant forall b :: b in os.maps ==> os.maps[b] == old(os.maps)[b]
      {
        assert old(BlockOk(blocks[i]));
        os.Munmap(blocks[i].base);
        i := i + 1;
      }
      alive := false;
    }
  }
}
