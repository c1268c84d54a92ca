/** The loader's methods, over the driver's open and read. */
module Loader {
  import opened Bytes
  import opened Layout
  import opened Files
  import opened Operations
  import opened Driver
  import opened Elf

  /** Physical memory, which the kernel maps one to one. */
  class Ram {
    var bytes: map<nat, byte>

    /** The bytes `fat32_read` stores through the destination pointer. */
    method StoreAt(at: nat, data: seq<byte>)
      modifies this
      ensures bytes == Store(old(bytes), at, data)
    {
      var i := 0;
      while i < |data|
        invariant 0 <= i <= |data| && Store(old(bytes), at, data) == Store(bytes, at + i, data[i..])
      {
        assert data[i..][1..] == data[i + 1..];
        bytes := bytes[(at + i) % WORD := data[i]];
        i := i + 1;
      }
    }

    /** `memset_local` with value 0. */
    method Clear(at: nat, count: nat)
      modifies this
      ensures bytes == Fill(old(bytes), at, count)
    {
      var i := 0;
      while i < count
        invariant 0 <= i <= count && Fill(old(bytes), at, count) == Fill(bytes, at + i, count - i)
      {
        bytes := bytes[(at + i) % WORD := 0];
        i := i + 1;
      }
    }
  }

  /** `read_exact`: the bytes delivered; success is that all `count` of them are there. */
  method ReadExactly(fs: Fat32, file: File, count: nat) returns (out: seq<byte>)
    requires fs.Valid() && Fits(fs.V(), fs.g) && Usable(fs.V(), fs.g.ClusterSize(), file.View())
    modifies file, fs`cacheSector, fs.cache
    ensures fs.Valid() && fs.V() == old(fs.V())
    ensures (out, file.View()) == ReadExact(fs.V(), fs.g.ClusterSize(), old(file.View()), count)
  {
    hide VolOf, Mirrored, Caches, Blocks, Read, ReadExact;
    ghost var v, cs, h := fs.V(), fs.g.ClusterSize(), file.View();
    out := [];
    while |out| < count
      invariant |out| <= count && fs.Valid() && fs.V() == v && Usable(v, cs, file.View())
      invariant ReadExact(v, cs, h, count).0 == out + ReadExact(v, cs, file.View(), count - |out|).0
      invariant ReadExact(v, cs, h, count).1 == ReadExact(v, cs, file.View(), count - |out|).1
      decreases count - |out|
    {
      ReadExactStep(v, cs, file.View(), count - |out|);
      var bytes := fs.Read(file, count - |out|);
      if |bytes| == 0 {
        assert out + [] == out;
        return;
      }
      out := out + bytes;
    }
    ReadExactStep(v, cs, file.View(), 0);
    assert out + [] == out;
  }

  /** `skip_bytes`. */
  method SkipBytes(fs: Fat32, file: File, count: nat) returns (ok: bool)
    requires fs.Valid() && Fits(fs.V(), fs.g) && Usable(fs.V(), fs.g.ClusterSize(), file.View())
    modifies file, fs`cacheSector, fs.cache
    ensures fs.Valid() && fs.V() == old(fs.V())
    ensures (ok, file.View()) == Skip(fs.V(), fs.g.ClusterSize(), old(file.View()), count)
  {
    hide VolOf, Mirrored, Caches, Blocks, ReadLoop;
    ghost var v, cs, h := fs.V(), fs.g.ClusterSize(), file.View();
    var left := count;
    while left > 0
      invariant left >= 0 && fs.Valid() && fs.V() == v && Usable(v, cs, file.View())
      invariant Skip(v, cs, h, count) == Skip(v, cs, file.View(), left)
    {
      var bytes := fs.Read(file, if left > CHUNK then CHUNK else left);
      if |bytes| == 0 {
        return false;
      }
      left := left - |bytes|;
    }
    ok := true;
  }

  /** Whatever the path opens as can be read. */
  ghost predicate Openable(v: Vol, g: Geometry, cwd: nat, path: seq<byte>)
    requires Fits(v, g)
  {
    Open(v, g, cwd, path).Some? ==> Usable(v, g.ClusterSize(), Open(v, g, cwd, path).value)
  }

  /** The program header loop. */
  method ReadTable(fs: Fat32, file: File, n: nat) returns (ps: Option<seq<Phdr>>)
    requires fs.Valid() && Fits(fs.V(), fs.g) && Usable(fs.V(), fs.g.ClusterSize(), file.View())
    modifies file, fs`cacheSector, fs.cache
    ensures fs.Valid() && fs.V() == old(fs.V())
    ensures ps == ReadPhdrs(fs.V(), fs.g.ClusterSize(), old(file.View()), n)
  {
    hide VolOf, Mirrored, Caches, Blocks, ReadLoop, ReadExact, PhdrOf;
    ghost var v, cs, h := fs.V(), fs.g.ClusterSize(), file.View();
    var table := [];
    assert forall x: seq<Phdr> :: table + x == x;
    while |table| < n
      invariant |table| <= n && fs.Valid() && fs.V() == v && Usable(v, cs, file.View())
      invariant match ReadPhdrs(v, cs, file.View(), n - |table|)
                case None => ReadPhdrs(v, cs, h, n) == None
                case Some(rest) => ReadPhdrs(v, cs, h, n) == Some(table + rest)
    {
      var b := ReadExactly(fs, file, PHDR);
      if |b| != PHDR {
        return None;
      }
      ghost var rest := ReadPhdrs(v, cs, file.View(), n - |table| - 1);
      if rest.Some? {
        assert table + ([PhdrOf(b)] + rest.value) == table + [PhdrOf(b)] + rest.value;
      }
      table := table + [PhdrOf(b)];
    }
    assert table + [] == table;
    ps := Some(table);
  }

  /** The loader up to the point where memory is first written. */
  method ReadHeaders(fs: Fat32, file: File) returns (r: Option<(nat, seq<Phdr>)>)
    requires fs.Valid() && Fits(fs.V(), fs.g) && Usable(fs.V(), fs.g.ClusterSize(), file.View())
    modifies file, fs`cacheSector, fs.cache
    ensures fs.Valid() && fs.V() == old(fs.V())
    ensures r == Headers(fs.V(), fs.g.ClusterSize(), old(file.View()))
  {
    hide VolOf, Mirrored, Caches, Blocks, ReadLoop, ReadExact, Skip, ReadPhdrs, U16At, U64At;
    var e := ReadExactly(fs, file, EHDR);
    if |e| != EHDR {
      return None;
    }
    if !(e[0] == 0x7F && e[1] == 0x45 && e[2] == 0x4C && e[3] == 0x46) {
      return None;
    }
    if e[4] != 2 || e[5] != 1 {
      return None;
    }
    if U16At(e, 16) != 2 || U16At(e, 18) != 62 {
      return None;
    }
    if U16At(e, 54) != PHDR || U16At(e, 56) == 0 || U16At(e, 56) > MAX_PHDRS {
      return None;
    }
    if U64At(e, 24) < LOAD_MIN || U64At(e, 24) >= LOAD_MAX {
      return None;
    }
    if file.position > U64At(e, 32) {
      return None;
    }
    var found := SkipBytes(fs, file, U64At(e, 32) - file.position);
    if !found {
      return None;
    }
    var ps := ReadTable(fs, file, U16At(e, 56));
    match ps {
      case None => r := None;
      case Some(table) => r := Some((U64At(e, 24), table));
    }
  }

  /** The body of the segment loop for one PT_LOAD header, on the file opened again. */
  method LoadOne(fs: Fat32, file: File, p: Phdr, ram: Ram) returns (ok: bool)
    requires fs.Valid() && Fits(fs.V(), fs.g) && Usable(fs.V(), fs.g.ClusterSize(), file.View()) && SegmentOk(p)
    modifies file, fs`cacheSector, fs.cache, ram
    ensures fs.Valid() && fs.V() == old(fs.V())
    ensures (ok, ram.bytes) == LoadSegment(fs.V(), fs.g.ClusterSize(), old(file.View()), p, old(ram.bytes))
  {
    hide VolOf, Mirrored, Caches, Blocks, ReadLoop, ReadExact, Skip, Store;
    var found := SkipBytes(fs, file, p.offset);
    if !found {
      return false;
    }
    var bytes := ReadExactly(fs, file, p.filesz);
    ram.StoreAt(p.vaddr, bytes);
    if |bytes| != p.filesz {
      return false;
    }
    if p.memsz > p.filesz {
      ram.Clear(p.vaddr + p.filesz, p.memsz - p.filesz);
    }
    ok := true;
  }

  lemma BadSegment(v: Vol, cs: nat, h: Handle, p: Phdr, mem: map<nat, byte>)
    requires Usable(v, cs, h)
    ensures !SegmentOk(p) ==> LoadSegment(v, cs, h, p, mem) == (false, mem)
  {
  }

  /** `elf_load_user_program`. */
  method LoadProgram(fs: Fat32, path: seq<byte>, ram: Ram, ghost dirs: set<nat>) returns (entry: Option<nat>)
    requires fs.Valid() && DirsClosed(fs.V(), fs.g, dirs) && fs.g.rootCluster in dirs && fs.cwd in dirs && 0 !in path
    requires Openable(fs.V(), fs.g, fs.cwd, path)
    modifies fs`cacheSector, fs.cache, ram
    ensures fs.Valid() && fs.V() == old(fs.V())
    ensures match Open(fs.V(), fs.g, fs.cwd, path)
            case None => entry == None && ram.bytes == old(ram.bytes)
            case Some(h) => (entry, ram.bytes) == Load(fs.V(), fs.g.ClusterSize(), h, old(ram.bytes))
  {
    hide VolOf, Mirrored, Caches, Blocks, DescentsStay, Headers, LoadSegment, Open, Usable, VolOk;
    var f := fs.Open(path, dirs);
    if f.None? {
      return None;
    }
    ghost var v, cs, h := fs.V(), fs.g.ClusterSize(), f.value.View();
    var headers := ReadHeaders(fs, f.value);
    if headers.None? {
      return None;
    }
    var ps := headers.value.1;
    var i := 0;
    while i < |ps|
      invariant 0 <= i <= |ps| && fs.Valid() && fs.V() == v
      invariant LoadSegments(v, cs, h, ps, old(ram.bytes)) == LoadSegments(v, cs, h, ps[i..], ram.bytes)
    {
      var p := ps[i];
      assert ps[i..][0] == p && ps[i..][1..] == ps[i + 1..];
      if IsLoad(p) {
        BadSegment(v, cs, h, p, ram.bytes);
        if p.memsz < p.filesz {
          return None;
        }
        if p.vaddr < LOAD_MIN || (p.vaddr + p.memsz) % WORD >= LOAD_MAX {
          return None;
        }
        var segment := fs.Open(path, dirs);
        if segment.None? {
          return None;
        }
        var ok := LoadOne(fs, segment.value, p, ram);
        if !ok {
          return None;
        }
      }
      i := i + 1;
    }
    entry := Some(headers.value.0);
  }
}
