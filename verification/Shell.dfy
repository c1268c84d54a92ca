/** How the shell shows a file: it reads on until nothing comes. */
module Shell {
  import opened Bytes
  import opened FatTable
  import opened Layout
  import opened Files
  import opened Operations
  import opened Driver

  const CHUNK := 127

  /** `cmd_cat`: the bytes it reads, or failure if the path does not open. */
  method Cat(fs: Fat32, path: seq<byte>, ghost dirs: set<nat>) returns (ok: bool, out: seq<byte>)
    requires fs.Valid() && Fits(fs.V(), fs.g) && DirsClosed(fs.V(), fs.g, dirs) && fs.g.rootCluster in dirs && fs.cwd in dirs
    requires 0 !in path
    requires var r := Open(fs.V(), fs.g, fs.cwd, path);
             r.Some? ==> IsValidCluster(r.value.current) ==> r.value.current < |fs.V().data|
    modifies fs`cacheSector, fs.cache
    ensures fs.Valid() && fs.V() == old(fs.V())
    ensures ok <==> Open(fs.V(), fs.g, fs.cwd, path).Some?
    ensures ok ==> out == ReadAll(fs.V(), fs.g.ClusterSize(), Open(fs.V(), fs.g, fs.cwd, path).value, CHUNK)
  {
    hide VolOf, Mirrored, Caches, Blocks, Read, ReadAll, Operations.Open, DirsClosed;
    ghost var v, cs := fs.V(), fs.g.ClusterSize();
    out := [];
    var file := fs.Open(path, dirs);
    if file.None? {
      return false, out;
    }
    var f := file.value;
    OpensAtStart(v, fs.g, fs.cwd, path);
    ghost var h := f.View();
    var more := true;
    while more
      invariant fs.Valid() && fs.V() == v && f.position <= f.size
      invariant IsValidCluster(f.current) ==> f.current < |v.data|
      invariant ReadAll(v, cs, h, CHUNK) == if more then out + ReadAll(v, cs, f.View(), CHUNK) else out
      decreases f.size - f.position, more
    {
      ReadAllStep(v, cs, f.View(), CHUNK);
      var bytes := fs.Read(f, CHUNK);
      if bytes == [] {
        more := false;
        assert out + [] == out;
      } else {
        out := out + bytes;
      }
    }
    ok := true;
  }

  lemma OpensAtStart(v: Vol, g: Geometry, cwd: nat, path: seq<byte>)
    requires Fits(v, g) && Open(v, g, cwd, path).Some?
    ensures Open(v, g, cwd, path).value.position == 0
  {
    hide LookUp;
  }

  lemma ReadAllStep(v: Vol, cs: nat, h: Handle, chunk: nat)
    requires VolOk(v, cs) && (IsValidCluster(h.current) ==> h.current < |v.data|) && h.position <= h.size
    ensures var (bytes, next) := Read(v, cs, h, chunk);
            ReadAll(v, cs, h, chunk) == if bytes == [] then [] else bytes + ReadAll(v, cs, next, chunk)
  {
    hide Read;
  }
}
