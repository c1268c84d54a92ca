/** File contents along cluster chains: the position-tracking reader and the chain writer,
    as functions of the abstract volume, and what they mean for the bytes of a file. */
module Files {
  import opened Bytes
  import opened FatTable
  import opened Layout

  /** `fat32_file_t`. */
  datatype Handle = Handle(first: nat, current: nat, position: nat, size: nat)

  /** A table and clusters of one size, the table naming only clusters that exist. */
  ghost predicate VolOk(v: Vol, cs: nat) {
    && 0 < cs && |v.fat| == |v.data| <= EOC && InRange(v.fat)
    && forall c :: 2 <= c < |v.data| ==> |v.data[c]| == cs
  }

  /** The bytes of the clusters of `xs`, in chain order. */
  ghost function Content(data: seq<seq<byte>>, xs: seq<nat>): (r: seq<byte>)
    requires Within(xs, 0, |data|)
    decreases |xs|
  {
    if xs == [] then [] else data[xs[0]] + Content(data, xs[1..])
  }

  ghost predicate Sized(data: seq<seq<byte>>, xs: seq<nat>, cs: nat) {
    Within(xs, 0, |data|) && forall i :: 0 <= i < |xs| ==> |data[xs[i]]| == cs
  }

  lemma ChainSized(v: Vol, cs: nat, xs: seq<nat>)
    requires VolOk(v, cs) && IsChain(v.fat, xs)
    ensures Sized(v.data, xs, cs)
  {
  }

  lemma {:induction false} ContentAt(data: seq<seq<byte>>, xs: seq<nat>, cs: nat, k: nat)
    requires Sized(data, xs, cs) && k < |xs|
    ensures |Content(data, xs)| == Blocks(|xs|, cs)
    ensures Blocks(k, cs) + cs <= Blocks(|xs|, cs)
    ensures Slice(Content(data, xs), Blocks(k, cs), cs) == data[xs[k]]
    decreases |xs|
  {
    BlocksOrder(k, |xs|, cs);
    var rest := xs[1..];
    assert Blocks(1, cs) == Blocks(0, cs) + cs == cs;
    if rest == [] {
      assert Content(data, rest) == [];
    } else {
      ContentAt(data, rest, cs, if k == 0 then 0 else k - 1);
      BlocksSplit(1, |rest|, cs);
      if k > 0 {
        BlocksSplit(1, k - 1, cs);
        SliceAfter(data[xs[0]], Content(data, rest), Blocks(k - 1, cs), cs);
      }
    }
  }

  lemma SliceAfter(a: seq<byte>, b: seq<byte>, at: nat, n: nat)
    requires at + n <= |b|
    ensures Slice(a + b, |a| + at, n) == Slice(b, at, n)
  {
  }

  lemma {:induction false} BlocksSplit(j: nat, k: nat, n: nat)
    ensures Blocks(j + k, n) == Blocks(j, n) + Blocks(k, n)
    decreases k
  {
    if k > 0 {
      BlocksSplit(j, k - 1, n);
    }
  }

  /** The position within a block of `n`: the remainder `p % n`, by repeated subtraction. */
  function Offset(p: nat, n: nat): (r: nat)
    requires 0 < n
    ensures r < n
    decreases p
  {
    if p < n then p else Offset(p - n, n)
  }

  lemma {:induction false} OffsetOfBlocks(k: nat, r: nat, n: nat)
    requires r < n
    ensures Offset(Blocks(k, n) + r, n) == r
    decreases k
  {
    if k > 0 {
      OffsetOfBlocks(k - 1, r, n);
    }
  }

  lemma OffsetIsMod(p: nat, n: nat)
    requires 0 < n
    ensures Offset(p, n) == p % n
  {
    DivisionInBlocks(p, n);
    OffsetOfBlocks(p / n, p % n, n);
  }

  // ---- reading ----

  /** How much one iteration of the read loop copies. */
  function Take(cs: nat, position: nat, want: nat): nat
    requires 0 < cs
  {
    var available := cs - Offset(position, cs);
    if want > available then available else want
  }

  /** The copying loop of `fat32_read`, with `want` bytes still to deliver. */
  function ReadLoop(v: Vol, cs: nat, h: Handle, want: nat): (r: (seq<byte>, Handle))
    requires VolOk(v, cs) && (IsValidCluster(h.current) ==> h.current < |v.data|)
    ensures r.1.first == h.first && r.1.size == h.size && r.1.position == h.position + |r.0| && |r.0| <= want
    ensures IsValidCluster(r.1.current) ==> r.1.current < |v.data|
    decreases want
  {
    if want == 0 || !IsValidCluster(h.current) then ([], h)
    else
      var take := Take(cs, h.position, want);
      var bytes := Slice(v.data[h.current], Offset(h.position, cs), take);
      var moved := h.(position := h.position + take);
      if Offset(moved.position, cs) == 0 && (IsEndOfChain(v.fat[h.current]) || v.fat[h.current] == 0) then (bytes, moved)
      else
        var next := if Offset(moved.position, cs) == 0 then moved.(current := v.fat[h.current]) else moved;
        var (rest, end) := ReadLoop(v, cs, next, want - take);
        (bytes + rest, end)
  }

  /** One iteration of the read loop: the bytes it copies, the handle after it, and whether it was the last. */
  function ReadStep(v: Vol, cs: nat, h: Handle, want: nat): (r: (seq<byte>, Handle, bool))
    requires VolOk(v, cs) && IsValidCluster(h.current) && h.current < |v.data| && 0 < want
    ensures 0 < |r.0| <= want
  {
    var take := Take(cs, h.position, want);
    var moved := h.(position := h.position + take);
    var next := v.fat[h.current];
    var crossed := Offset(moved.position, cs) == 0;
    (Slice(v.data[h.current], Offset(h.position, cs), take),
     if crossed && !(IsEndOfChain(next) || next == 0) then moved.(current := next) else moved,
     crossed && (IsEndOfChain(next) || next == 0))
  }

  lemma ReadLoopStep(v: Vol, cs: nat, h: Handle, want: nat)
    requires VolOk(v, cs) && IsValidCluster(h.current) && h.current < |v.data| && 0 < want
    ensures var (bytes, next, last) := ReadStep(v, cs, h, want);
            && (IsValidCluster(next.current) ==> next.current < |v.data|)
            && (last ==> ReadLoop(v, cs, h, want) == (bytes, next))
            && (!last ==> ReadLoop(v, cs, h, want).0 == bytes + ReadLoop(v, cs, next, want - |bytes|).0
                          && ReadLoop(v, cs, h, want).1 == ReadLoop(v, cs, next, want - |bytes|).1)
  {
    hide Offset, Slice;
  }

  lemma ReadLoopStops(v: Vol, cs: nat, h: Handle, want: nat)
    requires VolOk(v, cs) && (IsValidCluster(h.current) ==> h.current < |v.data|)
    requires want == 0 || !IsValidCluster(h.current)
    ensures ReadLoop(v, cs, h, want) == ([], h)
  {
  }

  /** `fat32_read`: clipped to the end of the file. */
  function Read(v: Vol, cs: nat, h: Handle, count: nat): (r: (seq<byte>, Handle))
    requires VolOk(v, cs) && (IsValidCluster(h.current) ==> h.current < |v.data|) && h.position <= h.size
    ensures r.1.first == h.first && r.1.size == h.size && r.1.position == h.position + |r.0| <= h.size
    ensures IsValidCluster(r.1.current) ==> r.1.current < |v.data|
  {
    ReadLoop(v, cs, h, if count > h.size - h.position then h.size - h.position else count)
  }

  // ---- what reading on delivers ----

  /** A handle on the chain `xs`, whatever size its entry claims: the current cluster holds the position, or
      is the last one when the position is at the end of the chain or beyond. */
  ghost predicate Along(v: Vol, cs: nat, h: Handle, xs: seq<nat>, k: nat) {
    && VolOk(v, cs) && IsChain(v.fat, xs) && k < |xs|
    && h.first == xs[0] && h.current == xs[k]
    && Blocks(k, cs) <= h.position && (h.position < Blocks(k, cs) + cs || k == |xs| - 1)
  }

  /** Byte `p` of a chain as the driver reads it: past its end the last cluster comes again. */
  ghost function ByteAt(data: seq<seq<byte>>, xs: seq<nat>, cs: nat, p: nat): byte
    requires Sized(data, xs, cs) && xs != [] && 0 < cs
  {
    ContentAt(data, xs, cs, |xs| - 1);
    if p < Blocks(|xs|, cs) then Content(data, xs)[p] else data[xs[|xs| - 1]][Offset(p, cs)]
  }

  /** The first `n` of these bytes. */
  ghost function Unrolled(data: seq<seq<byte>>, xs: seq<nat>, cs: nat, n: nat): (r: seq<byte>)
    requires Sized(data, xs, cs) && xs != [] && 0 < cs
    ensures |r| == n
  {
    seq(n, p requires 0 <= p < n => ByteAt(data, xs, cs, p))
  }

  /** How far one call can read from position `p` of a chain of `n` clusters: to the end of the chain, and from
      there on to the end of the cluster. */
  function Reach(n: nat, cs: nat, p: nat): (r: nat)
    requires 0 < cs
    ensures r > 0
  {
    if p < Blocks(n, cs) then Blocks(n, cs) - p else cs - Offset(p, cs)
  }

  function Least(a: nat, b: nat): nat {
    if a < b then a else b
  }

  lemma {:induction false} OffsetPlus(p: nat, i: nat, n: nat)
    requires 0 < n && Offset(p, n) + i <= n
    ensures Offset(p + i, n) == if Offset(p, n) + i < n then Offset(p, n) + i else 0
    decreases p
  {
    if p >= n {
      OffsetPlus(p - n, i, n);
    }
  }

  lemma AlongByte(v: Vol, cs: nat, h: Handle, xs: seq<nat>, k: nat, i: nat)
    requires Along(v, cs, h, xs, k) && Offset(h.position, cs) + i < cs
    ensures Sized(v.data, xs, cs) && ByteAt(v.data, xs, cs, h.position + i) == v.data[xs[k]][Offset(h.position, cs) + i]
  {
    hide IsChain, InRange, Content, Offset;
    ChainSized(v, cs, xs);
    ContentAt(v.data, xs, cs, k);
    if h.position < Blocks(k, cs) + cs {
      OffsetOfBlocks(k, h.position - Blocks(k, cs), cs);
      assert Slice(Content(v.data, xs), Blocks(k, cs), cs)[h.position - Blocks(k, cs) + i] == Content(v.data, xs)[h.position + i];
    } else {
      OffsetPlus(h.position, i, cs);
    }
  }

  /** What one iteration copies. */
  lemma AlongChunk(v: Vol, cs: nat, h: Handle, xs: seq<nat>, k: nat, take: nat, n: nat)
    requires Along(v, cs, h, xs, k) && Offset(h.position, cs) + take <= cs && h.position + take <= n
    ensures Sized(v.data, xs, cs)
    ensures Slice(v.data[xs[k]], Offset(h.position, cs), take) == Slice(Unrolled(v.data, xs, cs, n), h.position, take)
  {
    hide Along, ByteAt, Offset;
    AlongSized(v, cs, h, xs, k);
    forall i | 0 <= i < take
      ensures Slice(v.data[xs[k]], Offset(h.position, cs), take)[i] == Slice(Unrolled(v.data, xs, cs, n), h.position, take)[i]
    {
      AlongByte(v, cs, h, xs, k, i);
    }
  }

  lemma AlongSized(v: Vol, cs: nat, h: Handle, xs: seq<nat>, k: nat)
    requires Along(v, cs, h, xs, k)
    ensures 0 < cs && k < |xs| && Sized(v.data, xs, cs) && |v.data[xs[k]]| == cs && VolOk(v, cs)
    ensures h.current == xs[k] && IsValidCluster(xs[k]) && xs[k] < |v.data|
  {
    hide InRange;
    ChainSized(v, cs, xs);
  }

  /** Where one iteration ends: at the end of its reach, or further along the chain. */
  lemma AlongStep(v: Vol, cs: nat, h: Handle, xs: seq<nat>, k: nat, want: nat) returns (k': nat)
    requires Along(v, cs, h, xs, k) && 0 < want
    ensures IsValidCluster(h.current) && h.current < |v.data|
    ensures var (bytes, next, last) := ReadStep(v, cs, h, want);
            && |bytes| == Take(cs, h.position, want) && next.position == h.position + |bytes|
            && Along(v, cs, next, xs, k')
            && (last ==> |bytes| == Least(want, Reach(|xs|, cs, h.position)))
            && (!last ==> |bytes| == want <= Reach(|xs|, cs, h.position)
                          || |bytes| + Reach(|xs|, cs, next.position) == Reach(|xs|, cs, h.position))
  {
    hide InRange, Offset, Slice;
    AlongSized(v, cs, h, xs, k);
    var off, take := Offset(h.position, cs), Take(cs, h.position, want);
    BlocksOrder(k, |xs|, cs);
    OffsetPlus(h.position, take, cs);
    if h.position < Blocks(k, cs) + cs {
      OffsetOfBlocks(k, h.position - Blocks(k, cs), cs);
    }
    if k < |xs| - 1 {
      assert v.fat[xs[k]] == xs[k + 1];
      BlocksOrder(k + 1, |xs|, cs);
    }
    k' := if k < |xs| - 1 && off + take == cs then k + 1 else k;
  }

  /** One read loop along a chain delivers the next of these bytes, as far as it reaches. */
  lemma {:induction false} ReadLoopAlong(v: Vol, cs: nat, h: Handle, xs: seq<nat>, k: nat, want: nat, n: nat) returns (k': nat)
    requires Along(v, cs, h, xs, k) && h.position + want <= n
    ensures IsValidCluster(h.current) && h.current < |v.data| && Sized(v.data, xs, cs)
    ensures ReadLoop(v, cs, h, want).0
            == Slice(Unrolled(v.data, xs, cs, n), h.position, Least(want, Reach(|xs|, cs, h.position)))
    ensures Along(v, cs, ReadLoop(v, cs, h, want).1, xs, k')
    decreases want
  {
    hide ReadLoop, ReadStep, Along, Unrolled, Reach, Offset, Slice;
    AlongSized(v, cs, h, xs, k);
    k' := k;
    if want == 0 {
      ReadLoopStops(v, cs, h, want);
      EmptySlice(Unrolled(v.data, xs, cs, n), h.position);
    } else {
      ReadLoopStep(v, cs, h, want);
      var (bytes, next, last) := ReadStep(v, cs, h, want);
      k' := AlongStep(v, cs, h, xs, k, want);
      StepBytes(v, cs, h, xs, k, want, n);
      if !last {
        k' := ReadLoopAlong(v, cs, next, xs, k', want - |bytes|, n);
        SliceJoin(Unrolled(v.data, xs, cs, n), h.position, |bytes|, Least(want - |bytes|, Reach(|xs|, cs, next.position)));
      }
    }
  }

  lemma EmptySlice(s: seq<byte>, at: nat)
    requires at <= |s|
    ensures Slice(s, at, 0) == []
  {
  }

  lemma StepBytes(v: Vol, cs: nat, h: Handle, xs: seq<nat>, k: nat, want: nat, n: nat)
    requires Along(v, cs, h, xs, k) && 0 < want && h.position + want <= n
    requires IsValidCluster(h.current) && h.current < |v.data| && Sized(v.data, xs, cs)
    ensures var bytes := ReadStep(v, cs, h, want).0;
            bytes == Slice(Unrolled(v.data, xs, cs, n), h.position, |bytes|)
  {
    hide Along, Unrolled, Offset, Slice;
    AlongSized(v, cs, h, xs, k);
    AlongChunk(v, cs, h, xs, k, Take(cs, h.position, want), n);
  }

  /** A link to cluster 0 ends a chain for the reader like an end mark. */
  lemma ZeroEndsRead(v: Vol, cs: nat, h: Handle, want: nat)
    requires VolOk(v, cs) && IsValidCluster(h.current) && h.current < |v.data| && v.fat[h.current] == 0
    ensures var w := v.(fat := v.fat[h.current := END_MARK]);
            VolOk(w, cs) && ReadLoop(v, cs, h, want) == ReadLoop(w, cs, h, want)
  {
    hide ReadLoop, Offset, Slice;
    var w := v.(fat := v.fat[h.current := END_MARK]);
    if want == 0 {
      ReadLoopStops(v, cs, h, want);
      ReadLoopStops(w, cs, h, want);
    } else {
      ReadLoopStep(v, cs, h, want);
      ReadLoopStep(w, cs, h, want);
      var (bytes, next, last) := ReadStep(v, cs, h, want);
      if !last {
        OffsetPlus(h.position, |bytes|, cs);
        ReadLoopStops(v, cs, next, want - |bytes|);
        ReadLoopStops(w, cs, next, want - |bytes|);
      }
    }
  }

  // ---- reading a file ----

  lemma SliceJoin(s: seq<byte>, at: nat, m: nat, n: nat)
    requires at + m + n <= |s|
    ensures Slice(s, at, m) + Slice(s, at + m, n) == Slice(s, at, m + n)
  {
  }

  /** A handle from which reading on delivers the rest of `content`, in however many calls. */
  ghost predicate Reading(v: Vol, cs: nat, h: Handle, content: seq<byte>) {
    && VolOk(v, cs) && (IsValidCluster(h.current) ==> h.current < |v.data|)
    && h.position <= h.size == |content|
    && (content != [] ==> exists xs, k :: Yields(v, cs, h, xs, k, content))
  }

  /** The handle's chain and the place in it. */
  ghost predicate Yields(v: Vol, cs: nat, h: Handle, xs: seq<nat>, k: nat, content: seq<byte>) {
    Along(v, cs, h, xs, k) && Sized(v.data, xs, cs) && content == Unrolled(v.data, xs, cs, |content|)
  }

  function Clip(content: seq<byte>, position: nat, count: nat): (n: nat)
    requires position <= |content|
    ensures position + n <= |content|
  {
    if count > |content| - position then |content| - position else count
  }

  /** One `fat32_read` along a chain. */
  lemma ReadAlong(v: Vol, cs: nat, h: Handle, xs: seq<nat>, k: nat, count: nat) returns (k': nat)
    requires Along(v, cs, h, xs, k) && h.position <= h.size
    ensures IsValidCluster(h.current) && h.current < |v.data| && Sized(v.data, xs, cs)
    ensures Read(v, cs, h, count).0
            == Slice(Unrolled(v.data, xs, cs, h.size), h.position, Least(Least(count, h.size - h.position), Reach(|xs|, cs, h.position)))
    ensures Along(v, cs, Read(v, cs, h, count).1, xs, k')
  {
    hide ReadLoop, Along, Unrolled, Reach, Slice;
    k' := ReadLoopAlong(v, cs, h, xs, k, Least(count, h.size - h.position), h.size);
  }

  /** `fat32_read` delivers the next bytes, and some of them unless it is at the end of the file. */
  lemma ReadDelivers(v: Vol, cs: nat, h: Handle, content: seq<byte>, count: nat)
    requires Reading(v, cs, h, content)
    ensures var (bytes, next) := Read(v, cs, h, count);
            && bytes == Slice(content, h.position, |bytes|) && |bytes| <= count && h.position + |bytes| <= |content|
            && (bytes == [] <==> count == 0 || h.position == |content|)
            && Reading(v, cs, next, content)
  {
    hide ReadLoop, Along, Unrolled, Sized, Reach;
    if content != [] {
      var xs, k :| Yields(v, cs, h, xs, k, content);
      var k' := ReadAlong(v, cs, h, xs, k, count);
      assert Yields(v, cs, Read(v, cs, h, count).1, xs, k', content);
    }
  }

  /** Successive reads from one handle, concatenated. */
  function ReadMany(v: Vol, cs: nat, h: Handle, counts: seq<nat>): (r: (seq<byte>, Handle))
    requires VolOk(v, cs) && (IsValidCluster(h.current) ==> h.current < |v.data|) && h.position <= h.size
    ensures r.1.position == h.position + |r.0| <= h.size == r.1.size
    decreases |counts|
  {
    if counts == [] then ([], h)
    else
      var (bytes, next) := Read(v, cs, h, counts[0]);
      var (rest, end) := ReadMany(v, cs, next, counts[1..]);
      (bytes + rest, end)
  }

  function Sum(counts: seq<nat>): nat
    decreases |counts|
  {
    if counts == [] then 0 else counts[0] + Sum(counts[1..])
  }

  /** However reads are chunked, together they deliver the next of the same bytes. */
  lemma {:induction false} ReadManyDelivers(v: Vol, cs: nat, h: Handle, content: seq<byte>, counts: seq<nat>)
    requires Reading(v, cs, h, content)
    ensures var bytes := ReadMany(v, cs, h, counts).0;
            h.position + |bytes| <= |content| && bytes == Slice(content, h.position, |bytes|)
    decreases |counts|
  {
    hide Read, Yields, Slice, InRange;
    if counts == [] {
      EmptySlice(content, h.position);
    } else {
      ReadDelivers(v, cs, h, content, counts[0]);
      var (bytes, next) := Read(v, cs, h, counts[0]);
      ReadManyDelivers(v, cs, next, content, counts[1..]);
      SliceJoin(content, h.position, |bytes|, |ReadMany(v, cs, next, counts[1..]).0|);
    }
  }

  /** Reading in chunks until a read delivers nothing. */
  function ReadAll(v: Vol, cs: nat, h: Handle, chunk: nat): (r: seq<byte>)
    requires VolOk(v, cs) && (IsValidCluster(h.current) ==> h.current < |v.data|) && h.position <= h.size
    decreases h.size - h.position
  {
    var (bytes, next) := Read(v, cs, h, chunk);
    if bytes == [] then [] else bytes + ReadAll(v, cs, next, chunk)
  }

  /** It delivers all the rest, whatever the chunk. */
  lemma {:induction false} ReadAllDelivers(v: Vol, cs: nat, h: Handle, content: seq<byte>, chunk: nat)
    requires Reading(v, cs, h, content) && 0 < chunk
    ensures ReadAll(v, cs, h, chunk) == content[h.position..]
    decreases |content| - h.position
  {
    hide Read, Yields, InRange;
    ReadDelivers(v, cs, h, content, chunk);
    var (bytes, next) := Read(v, cs, h, chunk);
    if bytes != [] {
      ReadAllDelivers(v, cs, next, content, chunk);
      assert content[h.position..] == Slice(content, h.position, |bytes|) + content[next.position..];
    }
  }

  /** What is within reach of one call stays so. */
  lemma ReachMoves(n: nat, cs: nat, p: nat, t: nat)
    requires 0 < cs && t < Reach(n, cs, p)
    ensures t + Reach(n, cs, p + t) == Reach(n, cs, p)
  {
    hide Offset;
    if p >= Blocks(n, cs) {
      OffsetPlus(p, t, cs);
    }
  }

  /** While the rest of the file is within reach of one call, chunks deliver what one call delivers. */
  lemma {:induction false} ReadManyWithin(v: Vol, cs: nat, h: Handle, xs: seq<nat>, k: nat, counts: seq<nat>)
    requires Along(v, cs, h, xs, k) && h.position <= h.size <= h.position + Reach(|xs|, cs, h.position)
    ensures IsValidCluster(h.current) && h.current < |v.data| && Sized(v.data, xs, cs)
    ensures ReadMany(v, cs, h, counts).0 == Slice(Unrolled(v.data, xs, cs, h.size), h.position, Least(Sum(counts), h.size - h.position))
    decreases |counts|
  {
    hide Read, Along, Unrolled, Slice, Reach;
    AlongSized(v, cs, h, xs, k);
    if counts == [] {
      EmptySlice(Unrolled(v.data, xs, cs, h.size), h.position);
    } else {
      var k' := ReadAlong(v, cs, h, xs, k, counts[0]);
      var (bytes, next) := Read(v, cs, h, counts[0]);
      if |bytes| < Reach(|xs|, cs, h.position) {
        ReachMoves(|xs|, cs, h.position, |bytes|);
      }
      ReadManyWithin(v, cs, next, xs, k', counts[1..]);
      SliceJoin(Unrolled(v.data, xs, cs, h.size), h.position, |bytes|, Least(Sum(counts[1..]), h.size - next.position));
    }
  }

  /** Reads can be chunked at will exactly when the rest of the file is within reach of one call; from the
      start of a file, when its chain holds its size. */
  lemma ReadsAreChunkIndependent(v: Vol, cs: nat, h: Handle, xs: seq<nat>, k: nat)
    requires Along(v, cs, h, xs, k) && h.position <= h.size
    ensures IsValidCluster(h.current) && h.current < |v.data|
    ensures (forall counts :: ReadMany(v, cs, h, counts).0 == Read(v, cs, h, Sum(counts)).0)
            <==> h.size <= h.position + Reach(|xs|, cs, h.position)
    ensures h.position == 0 ==> Reach(|xs|, cs, 0) == Blocks(|xs|, cs)
  {
    hide Read, ReadMany, Along, Unrolled, Slice, Sum, Reach;
    AlongSized(v, cs, h, xs, k);
    if h.size <= h.position + Reach(|xs|, cs, h.position) {
      forall counts
        ensures ReadMany(v, cs, h, counts).0 == Read(v, cs, h, Sum(counts)).0
      {
        ReadManyWithin(v, cs, h, xs, k, counts);
        var k' := ReadAlong(v, cs, h, xs, k, Sum(counts));
      }
    } else {
      CallsGoOn(v, cs, h, xs, k);
    }
    BlocksOrder(0, |xs|, cs);
    FromStart(|xs|, cs);
  }

  lemma FromStart(n: nat, cs: nat)
    requires 0 < cs && 0 < Blocks(n, cs)
    ensures Reach(n, cs, 0) == Blocks(n, cs)
  {
  }

  /** A call stops where its reach ends; the next one goes on. */
  lemma CallsGoOn(v: Vol, cs: nat, h: Handle, xs: seq<nat>, k: nat)
    requires Along(v, cs, h, xs, k) && h.position + Reach(|xs|, cs, h.position) < h.size
    ensures IsValidCluster(h.current) && h.current < |v.data|
    ensures var n := Reach(|xs|, cs, h.position);
            |Read(v, cs, h, Sum([n, 1])).0| == n && |ReadMany(v, cs, h, [n, 1]).0| == n + 1
  {
    hide Read, Along, Unrolled, Slice, Reach;
    AlongSized(v, cs, h, xs, k);
    var n := Reach(|xs|, cs, h.position);
    assert [n, 1][1..] == [1] && [1][1..] == [];
    assert Sum([1]) == 1 && Sum([n, 1]) == n + 1;
    var k1 := ReadAlong(v, cs, h, xs, k, n + 1);
    var k2 := ReadAlong(v, cs, h, xs, k, n);
    var next := Read(v, cs, h, n).1;
    var k3 := ReadAlong(v, cs, next, xs, k2, 1);
    assert ReadMany(v, cs, Read(v, cs, next, 1).1, []).0 == [];
    assert ReadMany(v, cs, next, [1]).0 == Read(v, cs, next, 1).0 + [];
  }

  /** A file whose chain holds it is read byte for byte, in whatever chunks. */
  lemma CoveredReads(v: Vol, cs: nat, h: Handle, xs: seq<nat>, content: seq<byte>, counts: seq<nat>)
    requires Along(v, cs, h, xs, 0) && h.position == 0 && h.size == |content|
    requires Within(xs, 0, |v.data|) && content <= Content(v.data, xs)
    ensures Reading(v, cs, h, content)
    ensures ReadMany(v, cs, h, counts).0 == Slice(content, 0, Clip(content, 0, Sum(counts)))
  {
    hide Read, ReadMany, InRange, Content, Sum, Reach, IsChain;
    AlongSized(v, cs, h, xs, 0);
    ContentAt(v.data, xs, cs, 0);
    BlocksOrder(0, |xs|, cs);
    FromStart(|xs|, cs);
    assert content == Unrolled(v.data, xs, cs, |content|);
    assert Yields(v, cs, h, xs, 0, content);
    ReadManyWithin(v, cs, h, xs, 0, counts);
  }

  // ---- writing ----

  /** The loop of `fat32_write` that stores the buffer along the chain, one padded cluster at a time. */
  function WriteLoop(v: Vol, cs: nat, cluster: nat, src: seq<byte>): (r: Vol)
    requires VolOk(v, cs) && (IsValidCluster(cluster) ==> cluster < |v.data|)
    ensures VolOk(r, cs) && r.fat == v.fat
    decreases |src|
  {
    if src == [] || !IsValidCluster(cluster) then v
    else
      var chunk := if |src| > cs then cs else |src|;
      var stored := v.(data := v.data[cluster := src[..chunk] + Zeros(cs - chunk)]);
      var next := v.fat[cluster];
      if IsEndOfChain(next) || next == 0 then stored
      else WriteLoop(stored, cs, next, src[chunk..])
  }

  /** What the write loop leaves in the chain's cluster that starts at byte `at` of the buffer. */
  function Piece(before: seq<byte>, src: seq<byte>, at: nat): (r: seq<byte>)
    ensures |r| == |before|
  {
    if |src| <= at then before
    else if |src| - at >= |before| then src[at..at + |before|]
    else src[at..] + Zeros(|before| - (|src| - at))
  }

  function Stored(v: Vol, cs: nat, c: nat, src: seq<byte>): (r: Vol)
    requires c < |v.data|
  {
    var chunk := if |src| > cs then cs else |src|;
    v.(data := v.data[c := src[..chunk] + Zeros(cs - chunk)])
  }

  function Rest(cs: nat, src: seq<byte>): seq<byte> {
    src[if |src| > cs then cs else |src|..]
  }

  lemma WriteLoopStep(v: Vol, cs: nat, xs: seq<nat>, src: seq<byte>)
    requires VolOk(v, cs) && IsChain(v.fat, xs) && src != []
    ensures VolOk(Stored(v, cs, xs[0], src), cs) && IsChain(Stored(v, cs, xs[0], src).fat, xs)
    ensures |xs| == 1 ==> WriteLoop(v, cs, xs[0], src) == Stored(v, cs, xs[0], src)
    ensures |xs| > 1 ==> IsChain(v.fat, xs[1..])
    ensures |xs| > 1 ==> WriteLoop(v, cs, xs[0], src) == WriteLoop(Stored(v, cs, xs[0], src), cs, xs[1], Rest(cs, src))
  {
    if |xs| > 1 {
      ChainRest(v.fat, xs);
      assert v.fat[xs[0]] == xs[1];
    } else {
      assert IsEndOfChain(v.fat[xs[0]]);
    }
  }

  lemma WriteNothing(v: Vol, cs: nat, c: nat, before: seq<byte>, at: nat)
    requires VolOk(v, cs) && (IsValidCluster(c) ==> c < |v.data|)
    ensures WriteLoop(v, cs, c, []) == v && Piece(before, [], at) == before
  {
  }

  /** A link to cluster 0 ends a chain for the writer like an end mark. */
  lemma ZeroEndsWrite(v: Vol, cs: nat, c: nat, src: seq<byte>)
    requires VolOk(v, cs) && IsValidCluster(c) && c < |v.data| && v.fat[c] == 0 && src != []
    ensures WriteLoop(v, cs, c, src) == Stored(v, cs, c, src)
  {
  }

  /** The write loop stores the buffer along the chain, zero-pads the last cluster it writes, and
      changes nothing else. */
  lemma {:induction false} WriteLoopExact(v: Vol, cs: nat, xs: seq<nat>, src: seq<byte>, i: nat)
    requires VolOk(v, cs) && IsChain(v.fat, xs) && i < |xs|
    ensures WriteLoop(v, cs, xs[0], src).data[xs[i]] == Piece(v.data[xs[i]], src, Blocks(i, cs))
    decreases |xs|
  {
    hide WriteLoop, Piece, InRange, Rest;
    if src == [] {
      WriteNothing(v, cs, xs[0], v.data[xs[i]], Blocks(i, cs));
    } else {
      WriteLoopStep(v, cs, xs, src);
      if i > 0 {
        WriteLoopExact(Stored(v, cs, xs[0], src), cs, xs[1..], Rest(cs, src), i - 1);
        PieceShift(v.data[xs[i]], src, cs, Blocks(i - 1, cs));
      } else {
        WriteFirst(v, cs, xs, src);
      }
    }
  }

  lemma WriteFirst(v: Vol, cs: nat, xs: seq<nat>, src: seq<byte>)
    requires VolOk(v, cs) && IsChain(v.fat, xs) && src != []
    ensures WriteLoop(v, cs, xs[0], src).data[xs[0]] == Piece(v.data[xs[0]], src, 0)
  {
    hide WriteLoop, Piece, InRange, Rest;
    WriteLoopStep(v, cs, xs, src);
    PieceFirst(v.data[xs[0]], src, cs);
    if |xs| > 1 {
      WriteLoopOther(Stored(v, cs, xs[0], src), cs, xs[1..], Rest(cs, src), xs[0]);
    }
  }

  lemma PieceFirst(before: seq<byte>, src: seq<byte>, cs: nat)
    requires |before| == cs && src != []
    ensures var chunk := if |src| > cs then cs else |src|;
            Piece(before, src, 0) == src[..chunk] + Zeros(cs - chunk)
  {
  }

  lemma PieceShift(before: seq<byte>, src: seq<byte>, cs: nat, at: nat)
    requires |before| == cs
    ensures Piece(before, Rest(cs, src), at) == Piece(before, src, cs + at)
  {
    if |src| > cs + at {
      assert src[cs..][at..] == src[cs + at..];
    }
  }

  lemma {:induction false} WriteLoopOther(v: Vol, cs: nat, xs: seq<nat>, src: seq<byte>, c: nat)
    requires VolOk(v, cs) && IsChain(v.fat, xs) && c < |v.data| && c !in xs
    ensures WriteLoop(v, cs, xs[0], src).data[c] == v.data[c]
    decreases |xs|
  {
    if src != [] {
      WriteLoopStep(v, cs, xs, src);
      hide WriteLoop, InRange;
      if |xs| > 1 {
        WriteLoopOther(Stored(v, cs, xs[0], src), cs, xs[1..], Rest(cs, src), c);
      }
    }
  }

  lemma WrittenByte(v: Vol, cs: nat, xs: seq<nat>, src: seq<byte>, p: nat)
    requires VolOk(v, cs) && IsChain(v.fat, xs) && p < |src| && p < Blocks(|xs|, cs)
    ensures p < |Content(WriteLoop(v, cs, xs[0], src).data, xs)|
    ensures Content(WriteLoop(v, cs, xs[0], src).data, xs)[p] == src[p]
  {
    var after := WriteLoop(v, cs, xs[0], src);
    var i := BlockOf(p, |xs|, cs);
    ChainSized(after, cs, xs);
    hide WriteLoop, InRange, Content, Sized;
    WriteLoopExact(v, cs, xs, src, i);
    ContentAt(after.data, xs, cs, i);
    assert Slice(Content(after.data, xs), Blocks(i, cs), cs)[p - Blocks(i, cs)] == src[p];
  }

  /** The chain then holds the buffer, as far as the chain goes. */
  lemma WrittenContent(v: Vol, cs: nat, xs: seq<nat>, src: seq<byte>)
    requires VolOk(v, cs) && IsChain(v.fat, xs)
    ensures var content := Content(WriteLoop(v, cs, xs[0], src).data, xs);
            && |content| == Blocks(|xs|, cs)
            && forall p :: 0 <= p < |src| && p < |content| ==> content[p] == src[p]
  {
    var after := WriteLoop(v, cs, xs[0], src);
    ChainSized(after, cs, xs);
    hide WriteLoop, InRange, Content;
    ContentAt(after.data, xs, cs, 0);
    forall p | 0 <= p < |src| && p < |Content(after.data, xs)|
      ensures Content(after.data, xs)[p] == src[p]
    {
      WrittenByte(v, cs, xs, src, p);
    }
  }

  lemma {:induction false} BlockOf(p: nat, n: nat, cs: nat) returns (i: nat)
    requires p < Blocks(n, cs)
    ensures i < n && Blocks(i, cs) <= p < Blocks(i, cs) + cs
    decreases n
  {
    if p >= Blocks(n - 1, cs) {
      i := n - 1;
    } else {
      i := BlockOf(p, n - 1, cs);
    }
  }
}
