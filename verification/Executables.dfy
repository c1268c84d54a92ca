/** ELF64 executables written field by field (System V gABI, chapters 4 and 5), and what the loader makes of
    them. */
module Executables {
  import opened Bytes
  import opened Layout
  import opened Files
  import opened Elf

  function LE64(v: nat): (r: seq<byte>)
    requires v < WORD
    ensures |r| == 8
  {
    LE32(v % 0x1_0000_0000) + LE32(v / 0x1_0000_0000)
  }

  lemma U64OfLE64(v: nat)
    requires v < WORD
    ensures U64At(LE64(v), 0) == v
  {
    hide LE32, U32At;
    U32OfLE32(v % 0x1_0000_0000);
    U32OfLE32(v / 0x1_0000_0000);
    WordWithin(LE64(v), 0, LE32(v % 0x1_0000_0000));
    WordWithin(LE64(v), 4, LE32(v / 0x1_0000_0000));
  }

  /** A word that stands at `k`. */
  lemma WordWithin(s: seq<byte>, k: nat, w: seq<byte>)
    requires |w| == 4 && k + 4 <= |s| && s[k..k + 4] == w
    ensures U32At(s, k) == U32At(w, 0)
  {
    var t := s[k..k + 4];
    assert s[k] == t[0] && s[k + 1] == t[1] && s[k + 2] == t[2] && s[k + 3] == t[3];
  }

  lemma LongWithin(s: seq<byte>, k: nat, w: seq<byte>)
    requires |w| == 8 && k + 8 <= |s| && s[k..k + 8] == w
    ensures U64At(s, k) == U64At(w, 0)
  {
    hide U32At;
    WordWithin(s, k, w[..4]);
    WordWithin(s, k + 4, w[4..]);
    WordWithin(w, 0, w[..4]);
    WordWithin(w, 4, w[4..]);
    assert s[k..k + 4] == s[k..k + 8][..4] && s[k + 4..k + 8] == s[k..k + 8][4..];
  }

  lemma ShortWithin(s: seq<byte>, k: nat, v: nat)
    requires v < 0x1_0000 && k + 2 <= |s| && s[k..k + 2] == LE16(v)
    ensures U16At(s, k) == v
  {
    assert s[k] == s[k..k + 2][0] && s[k + 1] == s[k..k + 2][1];
  }

  // ---- program headers ----

  /** The eight fields of a program header. */
  datatype Segment = Segment(kind: nat, flags: nat, offset: nat, vaddr: nat, paddr: nat, filesz: nat, memsz: nat, align: nat)

  predicate Words(p: Segment) {
    && p.kind < 0x1_0000_0000 && p.flags < 0x1_0000_0000
    && p.offset < WORD && p.vaddr < WORD && p.paddr < WORD && p.filesz < WORD && p.memsz < WORD && p.align < WORD
  }

  /** In the order of the file format. */
  function PhdrBytes(p: Segment): (b: seq<byte>)
    requires Words(p)
    ensures |b| == PHDR
  {
    LE32(p.kind) + LE32(p.flags) + LE64(p.offset) + LE64(p.vaddr) + LE64(p.paddr) + LE64(p.filesz) + LE64(p.memsz) + LE64(p.align)
  }

  /** The loader reads back the fields it uses, whatever all eight are. */
  lemma PhdrRoundTrip(p: Segment)
    requires Words(p)
    ensures PhdrOf(PhdrBytes(p)) == Phdr(p.kind, p.offset, p.vaddr, p.filesz, p.memsz)
  {
    hide LE32, LE64, U32At, U64At;
    var b := PhdrBytes(p);
    assert b[0..4] == LE32(p.kind) && b[8..16] == LE64(p.offset) && b[16..24] == LE64(p.vaddr);
    assert b[32..40] == LE64(p.filesz) && b[40..48] == LE64(p.memsz);
    U32OfLE32(p.kind);
    U64OfLE64(p.offset);
    U64OfLE64(p.vaddr);
    U64OfLE64(p.filesz);
    U64OfLE64(p.memsz);
    WordWithin(b, 0, LE32(p.kind));
    LongWithin(b, 8, LE64(p.offset));
    LongWithin(b, 16, LE64(p.vaddr));
    LongWithin(b, 32, LE64(p.filesz));
    LongWithin(b, 40, LE64(p.memsz));
  }

  // ---- the file header ----

  datatype FileHeader = FileHeader(
    ident: seq<byte>, kind: nat, machine: nat, version: nat, entry: nat, phoff: nat, shoff: nat, flags: nat,
    ehsize: nat, phentsize: nat, phnum: nat, shentsize: nat, shnum: nat, shstrndx: nat)

  predicate Fields(h: FileHeader) {
    && |h.ident| == 16 && h.kind < 0x1_0000 && h.machine < 0x1_0000 && h.version < 0x1_0000_0000
    && h.entry < WORD && h.phoff < WORD && h.shoff < WORD && h.flags < 0x1_0000_0000
    && h.ehsize < 0x1_0000 && h.phentsize < 0x1_0000 && h.phnum < 0x1_0000
    && h.shentsize < 0x1_0000 && h.shnum < 0x1_0000 && h.shstrndx < 0x1_0000
  }

  function EhdrBytes(h: FileHeader): (e: seq<byte>)
    requires Fields(h)
    ensures |e| == EHDR
  {
    h.ident + LE16(h.kind) + LE16(h.machine) + LE32(h.version) + LE64(h.entry) + LE64(h.phoff) + LE64(h.shoff) + LE32(h.flags)
    + LE16(h.ehsize) + LE16(h.phentsize) + LE16(h.phnum) + LE16(h.shentsize) + LE16(h.shnum) + LE16(h.shstrndx)
  }

  /** A file header is accepted exactly for a little-endian 64-bit x86-64 executable with a table of 1 to 32
      headers of 56 bytes and an entry point from 2 MB up and below 256 MB. */
  lemma HeaderAccepted(h: FileHeader)
    requires Fields(h)
    ensures var e := EhdrBytes(h);
            && Elf.Entry(e) == h.entry && PhOff(e) == h.phoff && PhNum(e) == h.phnum
            && (HeaderOk(e) <==>
                  && h.ident[..6] == [0x7F, 0x45, 0x4C, 0x46, 2, 1] && h.kind == 2 && h.machine == 62
                  && h.phentsize == 56 && 1 <= h.phnum <= 32 && 0x20_0000 <= h.entry < 0x1000_0000)
  {
    hide LE16, LE32, LE64, U16At, U32At, U64At;
    var e := EhdrBytes(h);
    assert e[..16] == h.ident;
    assert e[16..18] == LE16(h.kind) && e[18..20] == LE16(h.machine) && e[24..32] == LE64(h.entry) && e[32..40] == LE64(h.phoff);
    assert e[54..56] == LE16(h.phentsize) && e[56..58] == LE16(h.phnum);
    ShortWithin(e, 16, h.kind);
    ShortWithin(e, 18, h.machine);
    ShortWithin(e, 54, h.phentsize);
    ShortWithin(e, 56, h.phnum);
    U64OfLE64(h.entry);
    U64OfLE64(h.phoff);
    LongWithin(e, 24, LE64(h.entry));
    LongWithin(e, 32, LE64(h.phoff));
    assert forall i :: 0 <= i < 6 ==> e[i] == h.ident[i] == h.ident[..6][i];
  }

  // ---- which segments are accepted ----

  /** A segment that does not wrap is accepted exactly if its file part is no longer than its memory and all of
      it lies from 2 MB up and ends below 256 MB. */
  lemma SegmentAccepted(p: Phdr)
    requires p.vaddr + p.memsz < WORD
    ensures SegmentOk(p) <==> p.filesz <= p.memsz && 0x20_0000 <= p.vaddr && p.vaddr + p.memsz < 0x1000_0000
  {
  }

  /** One that wraps, exactly if the sum of its ends in 64 bits is below 256 MB. */
  lemma WrappedAccepted(p: Phdr)
    requires p.vaddr < WORD && p.memsz < WORD && WORD <= p.vaddr + p.memsz
    ensures SegmentOk(p) <==> p.filesz <= p.memsz && 0x20_0000 <= p.vaddr && p.vaddr + p.memsz - WORD < 0x1000_0000
  {
  }

  /** Headers of any kind but 1 are passed over; a segment of kind 1 is loaded before those after it. */
  lemma KindsLaw(v: Vol, cs: nat, h: Handle, p: Phdr, rest: seq<Phdr>, mem: map<nat, byte>, a: nat)
    requires Usable(v, cs, h)
    ensures p.kind != 1 ==> LoadSegments(v, cs, h, [p] + rest, mem) == LoadSegments(v, cs, h, rest, mem)
    ensures p.kind == 1 ==>
              var (ok, m) := LoadSegment(v, cs, h, p, mem);
              LoadSegments(v, cs, h, [p] + rest, mem) == if ok then LoadSegments(v, cs, h, rest, m) else (false, m)
    ensures Covers(p, a) <==> p.kind == 1 && p.vaddr <= a < p.vaddr + p.memsz
  {
    hide Usable, LoadSegment;
    assert ([p] + rest)[1..] == rest;
  }

  // ---- a whole executable ----

  const IDENT: seq<byte> := [0x7F, 0x45, 0x4C, 0x46, 2, 1, 1, 0] + Zeros(8)

  /** An executable with one segment: header, program header, `pad` bytes, and the segment's `data`. */
  function Program(entry: nat, vaddr: nat, memsz: nat, pad: nat, data: seq<byte>): (content: seq<byte>)
    requires entry < WORD && vaddr < WORD && memsz < WORD && 120 + pad < WORD && |data| < WORD
  {
    EhdrBytes(FileHeader(IDENT, 2, 62, 1, entry, 64, 0, 0, 64, 56, 1, 0, 0, 0))
    + PhdrBytes(Segment(1, 7, 120 + pad, vaddr, vaddr, |data|, memsz, 1)) + Zeros(pad) + data
  }

  lemma ProgramHeaders(entry: nat, vaddr: nat, memsz: nat, pad: nat, data: seq<byte>)
    requires 0x20_0000 <= entry < 0x1000_0000 && vaddr < WORD && memsz < WORD && 120 + pad < WORD && |data| < WORD
    ensures var content := Program(entry, vaddr, memsz, pad, data);
            && HeadersFit(content) && Elf.Entry(Slice(content, 0, EHDR)) == entry
            && Phdrs(content) == [Phdr(1, 120 + pad, vaddr, |data|, memsz)]
  {
    hide EhdrBytes, PhdrBytes, HeaderOk, PhdrOf, Elf.Entry, PhOff, PhNum;
    var content := Program(entry, vaddr, memsz, pad, data);
    var h := FileHeader(IDENT, 2, 62, 1, entry, 64, 0, 0, 64, 56, 1, 0, 0, 0);
    var p := Segment(1, 7, 120 + pad, vaddr, vaddr, |data|, memsz, 1);
    assert IDENT[..6] == [0x7F, 0x45, 0x4C, 0x46, 2, 1];
    HeaderAccepted(h);
    PhdrRoundTrip(p);
    assert Slice(content, 0, EHDR) == EhdrBytes(h);
    assert Slice(content, EHDR, PHDR) == PhdrBytes(p);
    assert Table(content, EHDR + PHDR, 0) == [];
  }

  /** Every such program whose segment lies in the window loads: its entry point is returned, its bytes stand at
      their address with zeros after them, and nothing else in memory has changed. */
  lemma ProgramLoads(v: Vol, cs: nat, h: Handle, mem: map<nat, byte>, entry: nat, vaddr: nat, memsz: nat, pad: nat, data: seq<byte>)
    requires 0x20_0000 <= entry < 0x1000_0000 && 0x20_0000 <= vaddr && vaddr + memsz < 0x1000_0000 && |data| <= memsz
    requires 120 + pad + |data| < WORD
    requires Reading(v, cs, h, Program(entry, vaddr, memsz, pad, data)) && h.position == 0
    ensures Usable(v, cs, h) && Load(v, cs, h, mem).0 == Some(entry)
    ensures forall a: nat :: Peek(Load(v, cs, h, mem).1, a)
              == if vaddr <= a < vaddr + |data| then Some(data[a - vaddr])
                 else if vaddr + |data| <= a < vaddr + memsz then Some(0)
                 else Peek(mem, a)
  {
    hide Load, Reading, Program, Phdrs, HeadersFit, Peek, Elf.Entry;
    var content := Program(entry, vaddr, memsz, pad, data);
    ProgramHeaders(entry, vaddr, memsz, pad, data);
    ProgramFits(entry, vaddr, memsz, pad, data);
    LoadMeans(v, cs, h, content, mem);
    forall a: nat
      ensures Peek(Load(v, cs, h, mem).1, a)
              == if vaddr <= a < vaddr + |data| then Some(data[a - vaddr])
                 else if vaddr + |data| <= a < vaddr + memsz then Some(0)
                 else Peek(mem, a)
    {
      ProgramByte(entry, vaddr, memsz, pad, data, mem, a);
    }
  }

  lemma ProgramFits(entry: nat, vaddr: nat, memsz: nat, pad: nat, data: seq<byte>)
    requires entry < WORD && vaddr < WORD && memsz < WORD && 120 + pad < WORD && |data| < WORD
    ensures |Program(entry, vaddr, memsz, pad, data)| == 120 + pad + |data|
    ensures forall i :: 0 <= i < |data| ==> Program(entry, vaddr, memsz, pad, data)[120 + pad + i] == data[i]
  {
    hide EhdrBytes, PhdrBytes;
  }

  lemma ProgramByte(entry: nat, vaddr: nat, memsz: nat, pad: nat, data: seq<byte>, mem: map<nat, byte>, a: nat)
    requires 0x20_0000 <= entry < 0x1000_0000 && 0x20_0000 <= vaddr && vaddr + memsz < 0x1000_0000 && |data| <= memsz
    requires 120 + pad + |data| < WORD
    ensures var content, ps := Program(entry, vaddr, memsz, pad, data), [Phdr(1, 120 + pad, vaddr, |data|, memsz)];
            && AllFit(content, ps)
            && ImageByte(content, ps, mem, a)
               == if vaddr <= a < vaddr + |data| then Some(data[a - vaddr])
                  else if vaddr + |data| <= a < vaddr + memsz then Some(0)
                  else Peek(mem, a)
  {
    hide Program, Peek;
    ProgramFits(entry, vaddr, memsz, pad, data);
    var ps := [Phdr(1, 120 + pad, vaddr, |data|, memsz)];
    assert ps[..0] == [];
  }

  /** One such file, of 125 bytes: its segment's offset 122, file size 3 and memory size 5 all differ. */
  lemma ProgramExample(v: Vol, cs: nat, h: Handle)
    requires Reading(v, cs, h, Program(0x40_0001, 0x40_0000, 5, 2, [0x90, 0xEB, 0xFE])) && h.position == 0
    ensures |Program(0x40_0001, 0x40_0000, 5, 2, [0x90, 0xEB, 0xFE])| == 125
    ensures Usable(v, cs, h) && Load(v, cs, h, map[]).0 == Some(0x40_0001)
    ensures forall a: nat :: Peek(Load(v, cs, h, map[]).1, a)
              == if a == 0x40_0000 then Some(0x90) else if a == 0x40_0001 then Some(0xEB) else if a == 0x40_0002 then Some(0xFE)
                 else if a == 0x40_0003 || a == 0x40_0004 then Some(0)
                 else None
  {
    hide Load, Reading, Program, Peek;
    var data: seq<byte> := [0x90, 0xEB, 0xFE];
    ProgramFits(0x40_0001, 0x40_0000, 5, 2, data);
    ProgramLoads(v, cs, h, map[], 0x40_0001, 0x40_0000, 5, 2, data);
    NothingThere();
  }

  lemma NothingThere()
    ensures forall a: nat :: Peek(map[], a) == None
  {
  }
}
