/** The ELF64 loader over the chunked file reader: what reads deliver, which files load, and what memory
    holds afterwards. */
module Elf {
  import opened Bytes
  import opened FatTable
  import opened Layout
  import opened Files

  const WORD := 0x1_0000_0000_0000_0000
  const LOAD_MIN := 0x20_0000
  const LOAD_MAX := 0x1000_0000
  const EHDR := 64
  const PHDR := 56
  const MAX_PHDRS := 32
  const CHUNK := 128

  // ---- reading exactly, and skipping ----

  /** A handle `fat32_read` may be called with. */
  ghost predicate Usable(v: Vol, cs: nat, h: Handle) {
    VolOk(v, cs) && (IsValidCluster(h.current) ==> h.current < |v.data|) && h.position <= h.size
  }

  /** `read_exact`: the bytes stored before it ends; it succeeded if there are `count` of them. */
  function ReadExact(v: Vol, cs: nat, h: Handle, count: nat): (r: (seq<byte>, Handle))
    requires Usable(v, cs, h)
    ensures Usable(v, cs, r.1) && |r.0| <= count && r.1.position == h.position + |r.0|
    decreases count
  {
    if count == 0 then ([], h)
    else
      var (bytes, next) := Read(v, cs, h, count);
      if bytes == [] then ([], next)
      else
        var (rest, end) := ReadExact(v, cs, next, count - |bytes|);
        (bytes + rest, end)
  }

  lemma ReadExactStep(v: Vol, cs: nat, h: Handle, count: nat)
    requires Usable(v, cs, h)
    ensures count == 0 ==> ReadExact(v, cs, h, count) == ([], h)
    ensures count > 0 ==>
              var (bytes, next) := Read(v, cs, h, count);
              && |bytes| <= count
              && (bytes == [] ==> ReadExact(v, cs, h, count) == ([], next))
              && (bytes != [] ==> ReadExact(v, cs, h, count).0 == bytes + ReadExact(v, cs, next, count - |bytes|).0
                                  && ReadExact(v, cs, h, count).1 == ReadExact(v, cs, next, count - |bytes|).1)
  {
    hide ReadLoop;
  }

  /** `skip_bytes`: reads of at most 128 bytes, thrown away. */
  function Skip(v: Vol, cs: nat, h: Handle, count: nat): (r: (bool, Handle))
    requires Usable(v, cs, h)
    ensures Usable(v, cs, r.1)
    decreases count
  {
    if count == 0 then (true, h)
    else
      var (bytes, next) := Read(v, cs, h, if count > CHUNK then CHUNK else count);
      if bytes == [] then (false, next) else Skip(v, cs, next, count - |bytes|)
  }

  /** `read_exact` delivers the next of the bytes that reading on delivers, as far as there are any; it does not
      matter that one read may stop short of them. */
  lemma {:induction false} ReadExactDelivers(v: Vol, cs: nat, h: Handle, content: seq<byte>, count: nat)
    requires Reading(v, cs, h, content)
    ensures Usable(v, cs, h)
    ensures ReadExact(v, cs, h, count).0 == Slice(content, h.position, Clip(content, h.position, count))
    ensures Reading(v, cs, ReadExact(v, cs, h, count).1, content)
    decreases count
  {
    hide Read, VolOk, Yields;
    if count > 0 {
      ReadDelivers(v, cs, h, content, count);
      var (bytes, next) := Read(v, cs, h, count);
      if bytes != [] {
        ReadExactDelivers(v, cs, next, content, count - |bytes|);
        SliceJoin(content, h.position, |bytes|, Clip(content, next.position, count - |bytes|));
      }
    }
  }

  /** Skipping is a true seek: it succeeds iff the target is within the file, and reading goes on from there. */
  lemma {:induction false} SkipSeeks(v: Vol, cs: nat, h: Handle, content: seq<byte>, count: nat)
    requires Reading(v, cs, h, content)
    ensures Usable(v, cs, h)
    ensures Skip(v, cs, h, count).0 <==> h.position + count <= |content|
    ensures Reading(v, cs, Skip(v, cs, h, count).1, content)
    ensures Skip(v, cs, h, count).0 ==> Skip(v, cs, h, count).1.position == h.position + count
    decreases count
  {
    hide Read, VolOk, Yields;
    if count > 0 {
      var chunk := if count > CHUNK then CHUNK else count;
      ReadDelivers(v, cs, h, content, chunk);
      var (bytes, next) := Read(v, cs, h, chunk);
      if bytes != [] {
        SkipSeeks(v, cs, next, content, count - |bytes|);
      }
    }
  }

  // ---- headers ----

  datatype Phdr = Phdr(kind: nat, offset: nat, vaddr: nat, filesz: nat, memsz: nat)

  function PhdrOf(b: seq<byte>): (p: Phdr)
    requires |b| == PHDR
    ensures p.filesz < WORD && p.memsz < WORD && p.vaddr < WORD && p.offset < WORD
  {
    Phdr(U32At(b, 0), U64At(b, 8), U64At(b, 16), U64At(b, 32), U64At(b, 40))
  }

  function Entry(e: seq<byte>): nat
    requires |e| == EHDR
  {
    U64At(e, 24)
  }

  function PhOff(e: seq<byte>): nat
    requires |e| == EHDR
  {
    U64At(e, 32)
  }

  function PhNum(e: seq<byte>): nat
    requires |e| == EHDR
  {
    U16At(e, 56)
  }

  /** Magic, 64-bit little-endian, an x86-64 executable, a sane table, and an entry in the window. */
  predicate HeaderOk(e: seq<byte>)
    requires |e| == EHDR
  {
    && e[0] == 0x7F && e[1] == 0x45 && e[2] == 0x4C && e[3] == 0x46
    && e[4] == 2 && e[5] == 1
    && U16At(e, 16) == 2 && U16At(e, 18) == 62
    && U16At(e, 54) == PHDR && 0 < PhNum(e) <= MAX_PHDRS
    && LOAD_MIN <= Entry(e) < LOAD_MAX
  }

  predicate IsLoad(p: Phdr) {
    p.kind == 1
  }

  /** The two checks of a segment, with the 64-bit sum they compute. */
  predicate SegmentOk(p: Phdr) {
    p.filesz <= p.memsz && LOAD_MIN <= p.vaddr && (p.vaddr + p.memsz) % WORD < LOAD_MAX
  }

  /** For a segment that passes the checks, lying in the window is the same as not wrapping round. */
  lemma WindowUnlessWrapped(p: Phdr)
    requires SegmentOk(p) && p.vaddr < WORD && p.memsz < WORD
    ensures p.vaddr + p.memsz < LOAD_MAX <==> p.vaddr + p.memsz < WORD
  {
  }

  /** The checks admit a segment near the top of the address space. */
  lemma WrappedSegmentAdmitted()
    ensures var p := Phdr(1, 0, WORD - 4096, 0, 8192);
            SegmentOk(p) && p.vaddr >= LOAD_MAX
  {
  }

  // ---- memory ----

  /** Bytes stored at consecutive addresses, which wrap at 64 bits. */
  function Store(mem: map<nat, byte>, at: nat, bytes: seq<byte>): (r: map<nat, byte>)
    decreases |bytes|
  {
    if bytes == [] then mem else Store(mem[at % WORD := bytes[0]], at + 1, bytes[1..])
  }

  function Fill(mem: map<nat, byte>, at: nat, n: nat): (r: map<nat, byte>)
    decreases n
  {
    if n == 0 then mem else Fill(mem[at % WORD := 0], at + 1, n - 1)
  }

  function Peek(mem: map<nat, byte>, a: nat): Option<byte> {
    if a in mem then Some(mem[a]) else None
  }

  lemma {:induction false} StoreAt(mem: map<nat, byte>, at: nat, bytes: seq<byte>, a: nat)
    requires at + |bytes| <= WORD
    ensures Peek(Store(mem, at, bytes), a) == if at <= a < at + |bytes| then Some(bytes[a - at]) else Peek(mem, a)
    decreases |bytes|
  {
    if bytes != [] {
      StoreAt(mem[at % WORD := bytes[0]], at + 1, bytes[1..], a);
    }
  }

  lemma {:induction false} FillAt(mem: map<nat, byte>, at: nat, n: nat, a: nat)
    requires at + n <= WORD
    ensures Peek(Fill(mem, at, n), a) == if at <= a < at + n then Some(0) else Peek(mem, a)
    decreases n
  {
    if n > 0 {
      FillAt(mem[at % WORD := 0], at + 1, n - 1, a);
    }
  }

  // ---- loading ----

  /** The headers read one after the other; None if the file ends first. */
  function ReadPhdrs(v: Vol, cs: nat, h: Handle, n: nat): (r: Option<seq<Phdr>>)
    requires Usable(v, cs, h)
    decreases n
  {
    if n == 0 then Some([])
    else
      var (b, next) := ReadExact(v, cs, h, PHDR);
      if |b| != PHDR then None
      else
        match ReadPhdrs(v, cs, next, n - 1)
        case None => None
        case Some(rest) => Some([PhdrOf(b)] + rest)
  }

  /** One PT_LOAD segment: the file is opened again, its bytes go to memory, zeros after them. */
  function LoadSegment(v: Vol, cs: nat, h: Handle, p: Phdr, mem: map<nat, byte>): (r: (bool, map<nat, byte>))
    requires Usable(v, cs, h)
  {
    if !SegmentOk(p) then (false, mem)
    else
      var (found, at) := Skip(v, cs, h, p.offset);
      if !found then (false, mem)
      else
        var bytes := ReadExact(v, cs, at, p.filesz).0;
        var stored := Store(mem, p.vaddr, bytes);
        if |bytes| != p.filesz then (false, stored)
        else (true, Fill(stored, p.vaddr + p.filesz, p.memsz - p.filesz))
  }

  function LoadSegments(v: Vol, cs: nat, h: Handle, ps: seq<Phdr>, mem: map<nat, byte>): (r: (bool, map<nat, byte>))
    requires Usable(v, cs, h)
    decreases |ps|
  {
    if ps == [] then (true, mem)
    else if !IsLoad(ps[0]) then LoadSegments(v, cs, h, ps[1..], mem)
    else
      var (ok, m) := LoadSegment(v, cs, h, ps[0], mem);
      if ok then LoadSegments(v, cs, h, ps[1..], m) else (false, m)
  }

  /** The part of the loader before any memory is written: the entry point and the program headers. */
  function Headers(v: Vol, cs: nat, h: Handle): (r: Option<(nat, seq<Phdr>)>)
    requires Usable(v, cs, h)
  {
    var (e, h1) := ReadExact(v, cs, h, EHDR);
    if |e| != EHDR || !HeaderOk(e) || h1.position > PhOff(e) then None
    else
      var (found, h2) := Skip(v, cs, h1, PhOff(e) - h1.position);
      if !found then None
      else
        match ReadPhdrs(v, cs, h2, PhNum(e))
        case None => None
        case Some(ps) => Some((Entry(e), ps))
  }

  /** `elf_load_user_program` on a file that opens as `h`. */
  function Load(v: Vol, cs: nat, h: Handle, mem: map<nat, byte>): (r: (Option<nat>, map<nat, byte>))
    requires Usable(v, cs, h)
  {
    match Headers(v, cs, h)
    case None => (None, mem)
    case Some((entry, ps)) =>
      var (ok, m) := LoadSegments(v, cs, h, ps, mem);
      (if ok then Some(entry) else None, m)
  }

  // ---- what loading means ----

  /** The program headers of a file's bytes, in table order. */
  function Table(content: seq<byte>, at: nat, n: nat): (ps: seq<Phdr>)
    requires at + PHDR * n <= |content|
    ensures |ps| == n
    decreases n
  {
    if n == 0 then [] else [PhdrOf(Slice(content, at, PHDR))] + Table(content, at + PHDR, n - 1)
  }

  /** Header `i` of the table stands `i` times 56 bytes after its start. */
  lemma {:induction false} TableAt(content: seq<byte>, at: nat, n: nat, i: nat)
    requires at + PHDR * n <= |content| && i < n
    ensures Table(content, at, n)[i] == PhdrOf(Slice(content, at + PHDR * i, PHDR))
    decreases n
  {
    hide PhdrOf, Slice;
    if i > 0 {
      TableAt(content, at + PHDR, n - 1, i - 1);
    }
  }

  /** The bytes of a segment lie within the file, and the segment passes the checks. */
  predicate SegmentFits(content: seq<byte>, p: Phdr) {
    SegmentOk(p) && p.offset + p.filesz <= |content|
  }

  predicate HeadersFit(content: seq<byte>) {
    && |content| >= EHDR
    && var e := Slice(content, 0, EHDR);
       HeaderOk(e) && EHDR <= PhOff(e) && PhOff(e) + PHDR * PhNum(e) <= |content|
  }

  function Phdrs(content: seq<byte>): (ps: seq<Phdr>)
    requires HeadersFit(content)
  {
    var e := Slice(content, 0, EHDR);
    Table(content, PhOff(e), PhNum(e))
  }

  predicate AllFit(content: seq<byte>, ps: seq<Phdr>) {
    forall i :: 0 <= i < |ps| && IsLoad(ps[i]) ==> SegmentFits(content, ps[i])
  }

  /** Which files load. */
  predicate Loadable(content: seq<byte>) {
    HeadersFit(content) && AllFit(content, Phdrs(content))
  }

  /** No segment's range wraps round the address space. */
  predicate Unwrapped(ps: seq<Phdr>) {
    forall i :: 0 <= i < |ps| && IsLoad(ps[i]) ==> ps[i].vaddr + ps[i].memsz < WORD
  }

  predicate Covers(p: Phdr, a: nat) {
    IsLoad(p) && p.vaddr <= a < p.vaddr + p.memsz
  }

  /** The byte at address `a` of the program image: that of the last segment covering it, file bytes first
      and zeros after them, or what memory held before. */
  function ImageByte(content: seq<byte>, ps: seq<Phdr>, mem: map<nat, byte>, a: nat): Option<byte>
    requires AllFit(content, ps)
    decreases |ps|
  {
    if ps == [] then Peek(mem, a)
    else
      var p := ps[|ps| - 1];
      if !Covers(p, a) then ImageByte(content, ps[..|ps| - 1], mem, a)
      else if a < p.vaddr + p.filesz then Some(content[p.offset + (a - p.vaddr)])
      else Some(0)
  }

  lemma {:induction false} ReadPhdrsDelivers(v: Vol, cs: nat, h: Handle, content: seq<byte>, n: nat)
    requires Reading(v, cs, h, content)
    ensures Usable(v, cs, h)
    ensures ReadPhdrs(v, cs, h, n) == if h.position + PHDR * n <= |content| then Some(Table(content, h.position, n)) else None
    decreases n
  {
    hide Yields, ReadExact, VolOk, PhdrOf, Slice;
    if n > 0 {
      ReadExactDelivers(v, cs, h, content, PHDR);
      var (b, next) := ReadExact(v, cs, h, PHDR);
      if |b| == PHDR {
        ReadPhdrsDelivers(v, cs, next, content, n - 1);
      }
    }
  }

  lemma HeadersDeliver(v: Vol, cs: nat, h: Handle, content: seq<byte>)
    requires Reading(v, cs, h, content) && h.position == 0
    ensures Usable(v, cs, h)
    ensures Headers(v, cs, h) == if HeadersFit(content) then Some((Entry(Slice(content, 0, EHDR)), Phdrs(content))) else None
  {
    hide Yields, ReadExact, Skip, ReadPhdrs, VolOk, HeaderOk, Slice, Table;
    ReadExactDelivers(v, cs, h, content, EHDR);
    var (e, h1) := ReadExact(v, cs, h, EHDR);
    if |e| == EHDR && h1.position <= PhOff(e) {
      SkipSeeks(v, cs, h1, content, PhOff(e) - h1.position);
      var (found, h2) := Skip(v, cs, h1, PhOff(e) - h1.position);
      if found {
        ReadPhdrsDelivers(v, cs, h2, content, PhNum(e));
      }
    }
  }

  /** What one loaded segment leaves in memory. */
  function Overlay(content: seq<byte>, p: Phdr, mem: map<nat, byte>): map<nat, byte>
    requires SegmentFits(content, p)
  {
    Fill(Store(mem, p.vaddr, Slice(content, p.offset, p.filesz)), p.vaddr + p.filesz, p.memsz - p.filesz)
  }

  lemma SegmentDelivers(v: Vol, cs: nat, h: Handle, content: seq<byte>, p: Phdr, mem: map<nat, byte>)
    requires Reading(v, cs, h, content) && h.position == 0
    ensures Usable(v, cs, h)
    ensures LoadSegment(v, cs, h, p, mem).0 <==> SegmentFits(content, p)
    ensures SegmentFits(content, p) ==> LoadSegment(v, cs, h, p, mem).1 == Overlay(content, p, mem)
  {
    hide Yields, ReadExact, Skip, VolOk, SegmentOk, Slice, Store, Fill;
    SkipSeeks(v, cs, h, content, p.offset);
    var (found, at) := Skip(v, cs, h, p.offset);
    if found {
      ReadExactDelivers(v, cs, at, content, p.filesz);
    }
  }

  lemma OverlayAt(content: seq<byte>, p: Phdr, mem: map<nat, byte>, a: nat)
    requires SegmentFits(content, p) && p.vaddr + p.memsz < WORD && IsLoad(p)
    ensures Peek(Overlay(content, p, mem), a) ==
            if !Covers(p, a) then Peek(mem, a)
            else if a < p.vaddr + p.filesz then Some(content[p.offset + (a - p.vaddr)])
            else Some(0)
  {
    var bytes := Slice(content, p.offset, p.filesz);
    StoreAt(mem, p.vaddr, bytes, a);
    FillAt(Store(mem, p.vaddr, bytes), p.vaddr + p.filesz, p.memsz - p.filesz, a);
  }

  /** Loading segments one after the other overlays them in order. */
  lemma {:induction false} SegmentsDeliver(v: Vol, cs: nat, h: Handle, content: seq<byte>, ps: seq<Phdr>, mem: map<nat, byte>)
    requires Reading(v, cs, h, content) && h.position == 0
    ensures Usable(v, cs, h)
    ensures LoadSegments(v, cs, h, ps, mem).0 <==> AllFit(content, ps)
    ensures AllFit(content, ps) && Unwrapped(ps) ==>
              forall a: nat :: Peek(LoadSegments(v, cs, h, ps, mem).1, a) == ImageByte(content, ps, mem, a)
    decreases |ps|
  {
    hide Reading, VolOk, LoadSegment, SegmentFits, Overlay, Peek;
    ReadingUsable(v, cs, h, content);
    if ps != [] {
      var p, rest := ps[0], ps[1..];
      SegmentDelivers(v, cs, h, content, p, mem);
      assert ps == [p] + rest;
      AllFitSplit(content, p, rest);
      var m := if !IsLoad(p) then mem else LoadSegment(v, cs, h, p, mem).1;
      if IsLoad(p) ==> SegmentFits(content, p) {
        SegmentsDeliver(v, cs, h, content, rest, m);
        if AllFit(content, ps) && Unwrapped(ps) {
          UnwrappedSplit(p, rest);
          forall a: nat
            ensures Peek(LoadSegments(v, cs, h, ps, mem).1, a) == ImageByte(content, ps, mem, a)
          {
            FirstOverlaid(content, p, rest, mem, m, a);
          }
        }
      }
    }
  }

  lemma ReadingUsable(v: Vol, cs: nat, h: Handle, content: seq<byte>)
    requires Reading(v, cs, h, content)
    ensures Usable(v, cs, h)
  {
  }

  lemma AllFitSplit(content: seq<byte>, p: Phdr, rest: seq<Phdr>)
    ensures AllFit(content, [p] + rest) <==> (IsLoad(p) ==> SegmentFits(content, p)) && AllFit(content, rest)
  {
    hide SegmentFits;
    var ps := [p] + rest;
    if AllFit(content, ps) {
      assert ps[0] == p;
      forall i | 0 <= i < |rest| && IsLoad(rest[i])
        ensures SegmentFits(content, rest[i])
      {
        assert ps[i + 1] == rest[i];
      }
    }
  }

  lemma UnwrappedSplit(p: Phdr, rest: seq<Phdr>)
    requires Unwrapped([p] + rest)
    ensures Unwrapped(rest) && (IsLoad(p) ==> p.vaddr + p.memsz < WORD)
  {
    var ps := [p] + rest;
    assert ps[0] == p;
    forall i | 0 <= i < |rest| && IsLoad(rest[i])
      ensures rest[i].vaddr + rest[i].memsz < WORD
    {
      assert ps[i + 1] == rest[i];
    }
  }

  /** The image of a list starts from the image of its first segment. */
  lemma {:induction false} FirstOverlaid(content: seq<byte>, p: Phdr, rest: seq<Phdr>, mem: map<nat, byte>, m: map<nat, byte>, a: nat)
    requires AllFit(content, [p] + rest) && AllFit(content, rest) && (IsLoad(p) ==> SegmentFits(content, p) && p.vaddr + p.memsz < WORD)
    requires m == if IsLoad(p) then Overlay(content, p, mem) else mem
    ensures ImageByte(content, rest, m, a) == ImageByte(content, [p] + rest, mem, a)
    decreases |rest|
  {
    hide SegmentOk, Overlay, Peek;
    var ps := [p] + rest;
    if rest == [] {
      assert ps[..|ps| - 1] == [] && ps[|ps| - 1] == p;
      if IsLoad(p) {
        OverlayAt(content, p, mem, a);
      }
    } else {
      var k := |rest| - 1;
      assert ps[..|ps| - 1] == [p] + rest[..k] && ps[|ps| - 1] == rest[k];
      FirstOverlaid(content, p, rest[..k], mem, m, a);
    }
  }

  /** The loader: it succeeds exactly on loadable files, returns their entry point, and, unless a range
      wraps, leaves the program image in memory. */
  lemma LoadMeans(v: Vol, cs: nat, h: Handle, content: seq<byte>, mem: map<nat, byte>)
    requires Reading(v, cs, h, content) && h.position == 0
    ensures Usable(v, cs, h)
    ensures Load(v, cs, h, mem).0 == if Loadable(content) then Some(Entry(Slice(content, 0, EHDR))) else None
    ensures Loadable(content) && Unwrapped(Phdrs(content)) ==>
              forall a: nat :: Peek(Load(v, cs, h, mem).1, a) == ImageByte(content, Phdrs(content), mem, a)
    ensures !HeadersFit(content) ==> Load(v, cs, h, mem).1 == mem
  {
    hide Reading, VolOk, Headers, LoadSegments, HeadersFit, Phdrs, AllFit, Unwrapped, Peek, ImageByte;
    HeadersDeliver(v, cs, h, content);
    if HeadersFit(content) {
      SegmentsDeliver(v, cs, h, content, Phdrs(content), mem);
    }
  }

  lemma {:induction false} ImageOutside(content: seq<byte>, ps: seq<Phdr>, mem: map<nat, byte>, a: nat)
    requires AllFit(content, ps) && forall i :: 0 <= i < |ps| ==> !Covers(ps[i], a)
    ensures ImageByte(content, ps, mem, a) == Peek(mem, a)
    decreases |ps|
  {
    if ps != [] {
      ImageOutside(content, ps[..|ps| - 1], mem, a);
    }
  }

  /** Nothing outside the loaded ranges changes; in particular nothing below 2 MB or from 256 MB up. */
  lemma LoadStaysInWindow(v: Vol, cs: nat, h: Handle, content: seq<byte>, mem: map<nat, byte>, a: nat)
    requires Reading(v, cs, h, content) && h.position == 0 && Loadable(content) && Unwrapped(Phdrs(content))
    requires (forall i :: 0 <= i < |Phdrs(content)| ==> !Covers(Phdrs(content)[i], a)) || a < LOAD_MIN || a >= LOAD_MAX
    ensures Usable(v, cs, h) && Peek(Load(v, cs, h, mem).1, a) == Peek(mem, a)
  {
    hide Reading, VolOk, Load, HeadersFit, Phdrs, Peek, ImageByte;
    LoadMeans(v, cs, h, content, mem);
    var ps := Phdrs(content);
    ImageOutside(content, ps, mem, a);
  }

  // ---- loads that fail ----

  /** One segment, loaded or not, on any handle: unless its range wraps, only the window is written. */
  lemma SegmentStaysInWindow(v: Vol, cs: nat, h: Handle, p: Phdr, mem: map<nat, byte>, a: nat)
    requires Usable(v, cs, h) && p.vaddr + p.memsz < WORD && (a < LOAD_MIN || a >= LOAD_MAX)
    ensures Peek(LoadSegment(v, cs, h, p, mem).1, a) == Peek(mem, a)
  {
    hide Skip, ReadExact, Usable, Store, Fill, Peek;
    if SegmentOk(p) {
      WindowUnlessWrapped(p);
      var (found, at) := Skip(v, cs, h, p.offset);
      if found {
        var bytes := ReadExact(v, cs, at, p.filesz).0;
        StoreAt(mem, p.vaddr, bytes, a);
        FillAt(Store(mem, p.vaddr, bytes), p.vaddr + p.filesz, p.memsz - p.filesz, a);
      }
    }
  }

  lemma {:induction false} SegmentsStayInWindow(v: Vol, cs: nat, h: Handle, ps: seq<Phdr>, mem: map<nat, byte>, a: nat)
    requires Usable(v, cs, h) && Unwrapped(ps) && (a < LOAD_MIN || a >= LOAD_MAX)
    ensures Peek(LoadSegments(v, cs, h, ps, mem).1, a) == Peek(mem, a)
    decreases |ps|
  {
    hide Usable, LoadSegment, Peek;
    if ps != [] {
      assert ps == [ps[0]] + ps[1..];
      UnwrappedSplit(ps[0], ps[1..]);
      if !IsLoad(ps[0]) {
        SegmentsStayInWindow(v, cs, h, ps[1..], mem, a);
      } else {
        SegmentStaysInWindow(v, cs, h, ps[0], mem, a);
        SegmentsStayInWindow(v, cs, h, ps[1..], LoadSegment(v, cs, h, ps[0], mem).1, a);
      }
    }
  }

  /** Any load, failing ones and files shorter than their chain says included, leaves everything outside
      2 MB to 256 MB alone, unless a range wraps. */
  lemma AnyLoadStaysInWindow(v: Vol, cs: nat, h: Handle, mem: map<nat, byte>, a: nat)
    requires Usable(v, cs, h) && (Headers(v, cs, h).Some? ==> Unwrapped(Headers(v, cs, h).value.1))
    requires a < LOAD_MIN || a >= LOAD_MAX
    ensures Peek(Load(v, cs, h, mem).1, a) == Peek(mem, a)
  {
    hide Usable, Headers, LoadSegments, Peek, Unwrapped;
    if Headers(v, cs, h).Some? {
      SegmentsStayInWindow(v, cs, h, Headers(v, cs, h).value.1, mem, a);
    }
  }

  /** What the failing segment itself has written: the rest of the file from its offset, if its checks passed
      and the offset is within the file. */
  lemma FailedSegment(v: Vol, cs: nat, h: Handle, content: seq<byte>, p: Phdr, mem: map<nat, byte>)
    requires Reading(v, cs, h, content) && h.position == 0 && !SegmentFits(content, p)
    ensures Usable(v, cs, h)
    ensures LoadSegment(v, cs, h, p, mem)
            == (false, if SegmentOk(p) && p.offset <= |content|
                       then Store(mem, p.vaddr, Slice(content, p.offset, |content| - p.offset)) else mem)
  {
    hide Yields, ReadExact, Skip, VolOk, SegmentOk, Slice, Store, Fill;
    SkipSeeks(v, cs, h, content, p.offset);
    var (found, at) := Skip(v, cs, h, p.offset);
    if found {
      ReadExactDelivers(v, cs, at, content, p.filesz);
    }
  }

  /** A load fails at the first PT_LOAD that does not fit, and the segments before it stay loaded. */
  lemma {:induction false} FailsAtFirst(v: Vol, cs: nat, h: Handle, content: seq<byte>, ps: seq<Phdr>, i: nat, mem: map<nat, byte>)
    requires Reading(v, cs, h, content) && h.position == 0 && i < |ps|
    requires AllFit(content, ps[..i]) && IsLoad(ps[i]) && !SegmentFits(content, ps[i])
    ensures Usable(v, cs, h)
    ensures LoadSegments(v, cs, h, ps, mem)
            == (false, LoadSegment(v, cs, h, ps[i], LoadSegments(v, cs, h, ps[..i], mem).1).1)
    decreases i
  {
    hide Reading, VolOk, LoadSegment, SegmentFits;
    ReadingUsable(v, cs, h, content);
    if i == 0 {
      SegmentDelivers(v, cs, h, content, ps[0], mem);
      assert ps[..0] == [];
    } else {
      assert ps[..i] == [ps[0]] + ps[1..][..i - 1] && ps[..i][0] == ps[0] && ps[..i][1..] == ps[1..][..i - 1];
      AllFitSplit(content, ps[0], ps[1..][..i - 1]);
      SegmentDelivers(v, cs, h, content, ps[0], mem);
      FailsAtFirst(v, cs, h, content, ps[1..], i - 1, if IsLoad(ps[0]) then LoadSegment(v, cs, h, ps[0], mem).1 else mem);
    }
  }

  // ---- exactly which loads stay in the window ----

  /** Addresses outside the window are not among those written. */
  ghost predicate Inside(mem: map<nat, byte>) {
    forall a: nat :: a in mem ==> LOAD_MIN <= a < LOAD_MAX
  }

  /** The segments of a load write the window only: those that fit do not wrap, and what the first one that
      does not fit stores, the rest of the file from its offset, ends in the window. */
  predicate Contained(content: seq<byte>, ps: seq<Phdr>)
    decreases |ps|
  {
    if ps == [] then true
    else if !IsLoad(ps[0]) then Contained(content, ps[1..])
    else if SegmentFits(content, ps[0]) then ps[0].vaddr + ps[0].memsz < WORD && Contained(content, ps[1..])
    else SegmentOk(ps[0]) && ps[0].offset < |content| ==> ps[0].vaddr + (|content| - ps[0].offset) <= LOAD_MAX
  }

  lemma {:induction false} StoreKeeps(mem: map<nat, byte>, at: nat, bytes: seq<byte>, a: nat)
    ensures a in mem ==> a in Store(mem, at, bytes)
    ensures at <= a < at + |bytes| ==> a % WORD in Store(mem, at, bytes)
    decreases |bytes|
  {
    if bytes != [] {
      var m := mem[at % WORD := bytes[0]];
      StoreKeeps(m, at + 1, bytes[1..], a);
      StoreKeeps(m, at + 1, bytes[1..], at % WORD);
    }
  }

  lemma {:induction false} FillKeeps(mem: map<nat, byte>, at: nat, n: nat, a: nat)
    ensures a in mem ==> a in Fill(mem, at, n)
    ensures at <= a < at + n ==> a % WORD in Fill(mem, at, n)
    decreases n
  {
    if n > 0 {
      var m := mem[at % WORD := 0];
      FillKeeps(m, at + 1, n - 1, a);
      FillKeeps(m, at + 1, n - 1, at % WORD);
    }
  }

  /** Stores in the window stay inside, one that goes beyond does not. */
  lemma StoreInside(mem: map<nat, byte>, at: nat, bytes: seq<byte>)
    requires Inside(mem) && LOAD_MIN <= at < WORD && bytes != []
    ensures Inside(Store(mem, at, bytes)) <==> at + |bytes| <= LOAD_MAX
  {
    hide Store;
    if at + |bytes| <= LOAD_MAX {
      forall a: nat | a in Store(mem, at, bytes)
        ensures LOAD_MIN <= a < LOAD_MAX
      {
        StoreAt(mem, at, bytes, a);
      }
    } else {
      var x := if at >= LOAD_MAX then at else LOAD_MAX;
      StoreKeeps(mem, at, bytes, x);
      assert x % WORD == x;
    }
  }

  lemma OverlayInside(content: seq<byte>, p: Phdr, mem: map<nat, byte>)
    requires SegmentFits(content, p) && Inside(mem) && p.vaddr < WORD && p.memsz < WORD
    ensures Inside(Overlay(content, p, mem)) <==> p.vaddr + p.memsz < WORD
  {
    hide Store, Fill;
    var bytes := Slice(content, p.offset, p.filesz);
    var stored := Store(mem, p.vaddr, bytes);
    if p.vaddr + p.memsz < WORD {
      forall a: nat | a in Overlay(content, p, mem)
        ensures LOAD_MIN <= a < LOAD_MAX
      {
        StoreAt(mem, p.vaddr, bytes, a);
        FillAt(stored, p.vaddr + p.filesz, p.memsz - p.filesz, a);
      }
    } else {
      StoreKeeps(mem, p.vaddr, bytes, WORD - 1);
      FillKeeps(stored, p.vaddr + p.filesz, p.memsz - p.filesz, WORD - 1);
      assert WORD - 1 in Overlay(content, p, mem);
    }
  }

  /** A segment writes some address outside for good: later ones only add to what is written. */
  lemma SegmentKeeps(v: Vol, cs: nat, h: Handle, p: Phdr, mem: map<nat, byte>, a: nat)
    requires Usable(v, cs, h) && a in mem
    ensures a in LoadSegment(v, cs, h, p, mem).1
  {
    hide Skip, ReadExact, Usable, Store, Fill;
    var (found, at) := Skip(v, cs, h, p.offset);
    if found {
      var bytes := ReadExact(v, cs, at, p.filesz).0;
      StoreKeeps(mem, p.vaddr, bytes, a);
      if SegmentOk(p) {
        FillKeeps(Store(mem, p.vaddr, bytes), p.vaddr + p.filesz, p.memsz - p.filesz, a);
      }
    }
  }

  lemma {:induction false} SegmentsKeep(v: Vol, cs: nat, h: Handle, ps: seq<Phdr>, mem: map<nat, byte>, a: nat)
    requires Usable(v, cs, h) && a in mem
    ensures a in LoadSegments(v, cs, h, ps, mem).1
    decreases |ps|
  {
    hide Usable, LoadSegment;
    if ps != [] {
      if !IsLoad(ps[0]) {
        SegmentsKeep(v, cs, h, ps[1..], mem, a);
      } else {
        SegmentKeeps(v, cs, h, ps[0], mem, a);
        SegmentsKeep(v, cs, h, ps[1..], LoadSegment(v, cs, h, ps[0], mem).1, a);
      }
    }
  }

  /** Nothing brings a load back inside. */
  lemma StaysOutside(v: Vol, cs: nat, h: Handle, ps: seq<Phdr>, mem: map<nat, byte>)
    requires Usable(v, cs, h) && !Inside(mem)
    ensures !Inside(LoadSegments(v, cs, h, ps, mem).1)
  {
    hide LoadSegments, Usable;
    var a: nat :| a in mem && !(LOAD_MIN <= a < LOAD_MAX);
    SegmentsKeep(v, cs, h, ps, mem, a);
  }

  predicate Words(ps: seq<Phdr>) {
    forall i :: 0 <= i < |ps| ==> ps[i].vaddr < WORD && ps[i].memsz < WORD
  }

  lemma {:induction false} SegmentsInside(v: Vol, cs: nat, h: Handle, content: seq<byte>, ps: seq<Phdr>, mem: map<nat, byte>)
    requires Reading(v, cs, h, content) && h.position == 0 && Inside(mem) && Words(ps)
    ensures Usable(v, cs, h)
    ensures Inside(LoadSegments(v, cs, h, ps, mem).1) <==> Contained(content, ps)
    decreases |ps|
  {
    hide Reading, VolOk, LoadSegment, SegmentFits, Overlay, Inside, SegmentOk;
    ReadingUsable(v, cs, h, content);
    if ps != [] {
      var p, rest := ps[0], ps[1..];
      var m := if !IsLoad(p) then mem else LoadSegment(v, cs, h, p, mem).1;
      SegmentDelivers(v, cs, h, content, p, mem);
      if IsLoad(p) && !SegmentFits(content, p) {
        FailedInside(v, cs, h, content, p, mem);
      } else {
        if IsLoad(p) {
          OverlayInside(content, p, mem);
        }
        if Inside(m) {
          SegmentsInside(v, cs, h, content, rest, m);
        } else {
          StaysOutside(v, cs, h, rest, m);
        }
      }
    }
  }

  lemma FailedInside(v: Vol, cs: nat, h: Handle, content: seq<byte>, p: Phdr, mem: map<nat, byte>)
    requires Reading(v, cs, h, content) && h.position == 0 && !SegmentFits(content, p) && Inside(mem) && p.vaddr < WORD
    ensures Usable(v, cs, h)
    ensures Inside(LoadSegment(v, cs, h, p, mem).1)
            <==> (SegmentOk(p) && p.offset < |content| ==> p.vaddr + (|content| - p.offset) <= LOAD_MAX)
  {
    hide Reading, VolOk, LoadSegment, Inside, SegmentFits, Usable;
    ReadingUsable(v, cs, h, content);
    FailedSegment(v, cs, h, content, p, mem);
    if SegmentOk(p) && p.offset < |content| {
      StoreInside(mem, p.vaddr, Slice(content, p.offset, |content| - p.offset));
    } else if SegmentOk(p) && p.offset <= |content| {
      assert Slice(content, p.offset, |content| - p.offset) == [];
      assert Store(mem, p.vaddr, []) == mem;
    }
  }

  lemma {:induction false} TableWords(content: seq<byte>, at: nat, n: nat)
    requires at + PHDR * n <= |content|
    ensures Words(Table(content, at, n))
    decreases n
  {
    if n > 0 {
      TableWords(content, at + PHDR, n - 1);
    }
  }

  lemma {:induction false} ContainedLoadable(content: seq<byte>, ps: seq<Phdr>)
    requires AllFit(content, ps)
    ensures Contained(content, ps) <==> Unwrapped(ps)
    decreases |ps|
  {
    hide SegmentFits;
    if ps != [] {
      assert ps == [ps[0]] + ps[1..];
      AllFitSplit(content, ps[0], ps[1..]);
      ContainedLoadable(content, ps[1..]);
      if Unwrapped(ps[1..]) && (IsLoad(ps[0]) ==> ps[0].vaddr + ps[0].memsz < WORD) {
        assert forall i :: 0 < i < |ps| ==> ps[i] == ps[1..][i - 1];
      } else if Unwrapped(ps) {
        UnwrappedSplit(ps[0], ps[1..]);
      }
    }
  }

  /** Every file, loadable or not: its load writes only 2 MB to 256 MB exactly when its segments are contained,
      and for a loadable file that is when none of them wraps. */
  lemma LoadInside(v: Vol, cs: nat, h: Handle, content: seq<byte>)
    requires Reading(v, cs, h, content) && h.position == 0
    ensures Usable(v, cs, h)
    ensures Inside(Load(v, cs, h, map[]).1) <==> (HeadersFit(content) ==> Contained(content, Phdrs(content)))
    ensures Loadable(content) ==> (Inside(Load(v, cs, h, map[]).1) <==> Unwrapped(Phdrs(content)))
  {
    hide Reading, VolOk, Headers, LoadSegments, AllFit, Unwrapped, Contained, HeaderOk;
    HeadersDeliver(v, cs, h, content);
    if HeadersFit(content) {
      var e := Slice(content, 0, EHDR);
      TableWords(content, PhOff(e), PhNum(e));
      SegmentsInside(v, cs, h, content, Phdrs(content), map[]);
      if Loadable(content) {
        ContainedLoadable(content, Phdrs(content));
      }
    }
  }

  /** An executable of 120 bytes with one program header, whose segment wraps. */
  function WrappingFile(): (content: seq<byte>)
    ensures |content| == EHDR + PHDR
  {
    WrappingHeader() + WrappingSegment()
  }

  function WrappingHeader(): (e: seq<byte>)
    ensures |e| == EHDR
  {
    seq(EHDR, i =>
      if i == 0 then 0x7F else if i == 1 then 0x45 else if i == 2 then 0x4C else if i == 3 then 0x46
      else if i == 4 || i == 16 then 2 else if i == 5 || i == 6 || i == 20 || i == 56 then 1
      else if i == 18 then 62 else if i == 26 then 0x20 else if i == 32 || i == 52 then EHDR else if i == 54 then PHDR
      else 0)
  }

  function WrappingSegment(): (b: seq<byte>)
    ensures |b| == PHDR
  {
    seq(PHDR, i => if i == 0 then 1 else if i == 17 then 0xF0 else if 18 <= i < 24 then 0xFF else if i == 41 then 0x20 else 0)
  }

  /** It loads, so it writes the last byte of the address space. */
  lemma WrappingFileLoads()
    ensures Loadable(WrappingFile()) && Phdrs(WrappingFile()) == [Phdr(1, 0, WORD - 4096, 0, 8192)]
    ensures !Unwrapped(Phdrs(WrappingFile()))
  {
    hide WrappingHeader, WrappingSegment, HeaderOk, PhdrOf;
    var content := WrappingFile();
    WrappingHeaderOk();
    WrappingSegmentIs();
    assert Slice(content, 0, EHDR) == WrappingHeader();
    assert Slice(content, EHDR, PHDR) == WrappingSegment();
    assert Table(content, EHDR + PHDR, 0) == [];
    var ps := Phdrs(content);
    assert ps[0] == Phdr(1, 0, WORD - 4096, 0, 8192) && IsLoad(ps[0]);
  }

  lemma WrappingHeaderOk()
    ensures HeaderOk(WrappingHeader()) && PhOff(WrappingHeader()) == EHDR && PhNum(WrappingHeader()) == 1
  {
    hide U16At, U64At;
    WrappingShorts();
    WrappingLongs();
  }

  lemma WrappingShorts()
    ensures var e := WrappingHeader();
            U16At(e, 16) == 2 && U16At(e, 18) == 62 && U16At(e, 54) == PHDR && U16At(e, 56) == 1
  {
  }

  lemma WrappingLongs()
    ensures var e := WrappingHeader();
            U64At(e, 24) == LOAD_MIN && U64At(e, 32) == EHDR
  {
  }

  lemma WrappingSegmentIs()
    ensures PhdrOf(WrappingSegment()) == Phdr(1, 0, WORD - 4096, 0, 8192)
  {
  }
}
