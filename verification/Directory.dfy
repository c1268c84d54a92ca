/** Directory clusters: 32-byte slots, the driver's scans over them, and tidy directories. */
module Directory {
  import opened Bytes
  import opened Names

  const SLOT := 32
  const ATTR_DIRECTORY: byte := 0x10
  const ATTR_ARCHIVE: byte := 0x20
  const ATTR_LFN: byte := 0x0F

  function SlotAt(buf: seq<byte>, i: nat): (s: seq<byte>)
    requires SLOT * i + SLOT <= |buf|
    ensures |s| == SLOT
  {
    Slice(buf, SLOT * i, SLOT)
  }

  function PutSlot(buf: seq<byte>, i: nat, s: seq<byte>): (r: seq<byte>)
    requires SLOT * i + SLOT <= |buf| && |s| == SLOT
    ensures |r| == |buf|
  {
    Splice(buf, SLOT * i, s)
  }

  lemma SlotAfterPut(buf: seq<byte>, i: nat, s: seq<byte>, j: nat)
    requires SLOT * i + SLOT <= |buf| && SLOT * j + SLOT <= |buf| && |s| == SLOT
    ensures SlotAt(PutSlot(buf, i, s), j) == if i == j then s else SlotAt(buf, j)
  {
    SliceOfSplice(buf, SLOT * i, s, SLOT * j, SLOT);
  }

  function NameOf(s: seq<byte>): (r: seq<byte>)
    requires |s| == SLOT
    ensures |r| == 11
  {
    s[..11]
  }

  predicate IsDir(s: seq<byte>)
    requires |s| == SLOT
  {
    s[11] / 16 % 2 == 1
  }

  function First(s: seq<byte>): nat
    requires |s| == SLOT
  {
    0x1_0000 * U16At(s, 20) + U16At(s, 26)
  }

  function Size(s: seq<byte>): nat
    requires |s| == SLOT
  {
    U32At(s, 28)
  }

  /** A zeroed slot with name, attributes, first cluster and size filled in. */
  function MakeSlot(name: seq<byte>, attr: byte, first: nat, size: nat): (s: seq<byte>)
    requires |name| == 11 && first < 0x1_0000_0000 && size < 0x1_0000_0000
    ensures |s| == SLOT
  {
    name + [attr] + Zeros(8) + LE16(first / 0x1_0000) + Zeros(4) + LE16(first % 0x1_0000) + LE32(size)
  }

  lemma MadeSlot(name: seq<byte>, attr: byte, first: nat, size: nat)
    requires |name| == 11 && first < 0x1_0000_0000 && size < 0x1_0000_0000
    ensures var s := MakeSlot(name, attr, first, size);
            NameOf(s) == name && s[0] == name[0] && s[11] == attr && First(s) == first && Size(s) == size
  {
    var s := MakeSlot(name, attr, first, size);
    assert s[20..22] == LE16(first / 0x1_0000) && s[26..28] == LE16(first % 0x1_0000) && s[28..32] == LE32(size);
    assert s[20] == s[20..22][0] && s[21] == s[20..22][1] && s[26] == s[26..28][0] && s[27] == s[26..28][1];
    assert s[28] == s[28..32][0] && s[29] == s[28..32][1] && s[30] == s[28..32][2] && s[31] == s[28..32][3];
  }

  /** A slot after `fat32_delete`: marked, with its cluster, size and attributes cleared. */
  function Erased(s: seq<byte>): (r: seq<byte>)
    requires |s| == SLOT
    ensures |r| == SLOT && r[0] == DELETED && First(r) == 0
  {
    [DELETED] + s[1..11] + [0] + s[12..20] + [0, 0] + s[22..26] + Zeros(6)
  }

  predicate Skipped(s: seq<byte>)
    requires |s| == SLOT
  {
    s[0] == DELETED || s[11] == ATTR_LFN
  }

  predicate Live(s: seq<byte>)
    requires |s| == SLOT
  {
    s[0] != 0 && s[0] != DELETED
  }

  // ---- scans ----

  /** What a scan looks for: the 11 packed bytes, or a text matched case-insensitively. */
  datatype Key = Packed(name: seq<byte>) | Text(name: seq<byte>)

  predicate Hit(key: Key, s: seq<byte>)
    requires |s| == SLOT
  {
    match key
    case Packed(name) => NameOf(s) == name
    case Text(name) => Matches(NameOf(s), name)
  }

  /** The lookup loop shared by open, delete and path walking, from slot `i` of `n`. */
  function Scan(buf: seq<byte>, n: nat, i: nat, key: Key): (r: Option<nat>)
    requires SLOT * n <= |buf| && i <= n
    ensures r.Some? ==> i <= r.value < n && Hit(key, SlotAt(buf, r.value)) && !Skipped(SlotAt(buf, r.value)) && SlotAt(buf, r.value)[0] != 0
    decreases n - i
  {
    if i == n || SlotAt(buf, i)[0] == 0 then None
    else if !Skipped(SlotAt(buf, i)) && Hit(key, SlotAt(buf, i)) then Some(i)
    else Scan(buf, n, i + 1, key)
  }

  /** The loop of `fat32_write` that picks an existing entry or a free slot. */
  function ScanWrite(buf: seq<byte>, n: nat, i: nat, name: seq<byte>, free: Option<nat>): (r: Option<nat>)
    requires SLOT * n <= |buf| && i <= n && (free.Some? ==> free.value < n)
    ensures r.Some? ==> r.value < n
    decreases n - i
  {
    if i == n then free
    else
      var s := SlotAt(buf, i);
      if s[0] == 0 && free.None? then Some(i)
      else if Skipped(s) then ScanWrite(buf, n, i + 1, name, if free.None? then Some(i) else free)
      else if NameOf(s) == name then Some(i)
      else ScanWrite(buf, n, i + 1, name, free)
  }

  /** The loop of `fat32_mkdir` that picks a free slot. */
  function ScanFree(buf: seq<byte>, n: nat, i: nat): (r: Option<nat>)
    requires SLOT * n <= |buf| && i <= n
    ensures r.Some? ==> i <= r.value < n
    decreases n - i
  {
    if i == n then None
    else if SlotAt(buf, i)[0] == 0 || SlotAt(buf, i)[0] == DELETED then Some(i)
    else ScanFree(buf, n, i + 1)
  }

  // ---- tidy directories ----

  /** Slots past the end marker are zero, deleted slots hold no cluster, live slots are files or
      directories, and live names are distinct. */
  ghost predicate Tidy(buf: seq<byte>, n: nat) {
    && SLOT * n <= |buf|
    && (forall i :: 0 <= i < n ==> TidySlot(SlotAt(buf, i)))
    && (forall i, j :: 0 <= i < j < n && SlotAt(buf, i)[0] == 0 ==> SlotAt(buf, j)[0] == 0)
    && (forall i, j :: 0 <= i < j < n && Live(SlotAt(buf, i)) && Live(SlotAt(buf, j)) ==>
          NameOf(SlotAt(buf, i)) != NameOf(SlotAt(buf, j)))
  }

  ghost predicate TidySlot(s: seq<byte>)
    requires |s| == SLOT
  {
    && (s[0] == 0 ==> s == Zeros(SLOT))
    && (s[0] == DELETED ==> First(s) == 0)
    && (Live(s) ==> s[11] == ATTR_ARCHIVE || s[11] == ATTR_DIRECTORY)
  }

  /** A lookup finds nothing only if no live slot answers to the key. */
  lemma {:induction false} ScanMisses(buf: seq<byte>, n: nat, i: nat, key: Key, j: nat)
    requires Tidy(buf, n) && i <= j < n && Scan(buf, n, i, key).None? && Live(SlotAt(buf, j))
    ensures !Hit(key, SlotAt(buf, j))
    decreases n - i
  {
    hide SlotAt, First, Hit;
    assert TidySlot(SlotAt(buf, i)) && TidySlot(SlotAt(buf, j));
    if SlotAt(buf, i)[0] != 0 && i < j {
      ScanMisses(buf, n, i + 1, key, j);
    }
  }

  /** A live slot that alone answers to the key is the one a lookup finds. */
  lemma {:induction false} ScanHits(buf: seq<byte>, n: nat, i: nat, key: Key, j: nat)
    requires Tidy(buf, n) && i <= j < n && Live(SlotAt(buf, j)) && Hit(key, SlotAt(buf, j))
    requires forall k :: 0 <= k < n && k != j && Live(SlotAt(buf, k)) ==> !Hit(key, SlotAt(buf, k))
    ensures Scan(buf, n, i, key) == Some(j)
    decreases n - i
  {
    hide SlotAt, First, Hit;
    assert TidySlot(SlotAt(buf, i)) && TidySlot(SlotAt(buf, j));
    if i < j {
      ScanHits(buf, n, i + 1, key, j);
    }
  }

  /** `fat32_write` picks the live slot of that name; failing that the first free one. */
  lemma {:induction false} ScanWritePicks(buf: seq<byte>, n: nat, i: nat, name: seq<byte>, free: Option<nat>)
    requires Tidy(buf, n) && i <= n && |name| == 11 && name[0] != 0 && name[0] != DELETED
    requires free.Some? ==> free.value < i && SlotAt(buf, free.value)[0] == DELETED
    requires free.None? ==> forall k :: 0 <= k < i ==> Live(SlotAt(buf, k))
    requires forall k :: 0 <= k < i && Live(SlotAt(buf, k)) ==> NameOf(SlotAt(buf, k)) != name
    ensures Picked(buf, n, name, ScanWrite(buf, n, i, name, free))
    decreases n - i
  {
    hide SlotAt, First;
    if i < n {
      var s := SlotAt(buf, i);
      assert TidySlot(s);
      if s[0] == 0 && free.None? {
      } else if Skipped(s) {
        ScanWritePicks(buf, n, i + 1, name, if free.None? then Some(i) else free);
      } else if NameOf(s) != name {
        ScanWritePicks(buf, n, i + 1, name, free);
      } else {
        assert Live(s);
      }
    }
  }

  /** The slot a new entry called `name` may go into. */
  ghost predicate Picked(buf: seq<byte>, n: nat, name: seq<byte>, r: Option<nat>)
    requires SLOT * n <= |buf|
  {
    match r
    case None => forall k :: 0 <= k < n ==> Live(SlotAt(buf, k)) && NameOf(SlotAt(buf, k)) != name
    case Some(p) =>
      && p < n
      && (forall k :: 0 <= k < p ==> SlotAt(buf, k)[0] != 0)
      && (if Live(SlotAt(buf, p)) then NameOf(SlotAt(buf, p)) == name
          else forall k :: 0 <= k < n && Live(SlotAt(buf, k)) ==> NameOf(SlotAt(buf, k)) != name)
  }

  lemma {:induction false} ScanFreePicks(buf: seq<byte>, n: nat, i: nat)
    requires SLOT * n <= |buf| && i <= n
    requires forall k :: 0 <= k < i ==> Live(SlotAt(buf, k))
    ensures var r := ScanFree(buf, n, i);
            && (r.None? ==> forall k :: 0 <= k < n ==> Live(SlotAt(buf, k)))
            && (r.Some? ==> !Live(SlotAt(buf, r.value)) && forall k :: 0 <= k < r.value ==> Live(SlotAt(buf, k)))
    decreases n - i
  {
    if i < n && Live(SlotAt(buf, i)) {
      ScanFreePicks(buf, n, i + 1);
    }
  }

  /** A new entry in the picked slot keeps a directory tidy. */
  lemma TidyPut(buf: seq<byte>, n: nat, p: nat, s: seq<byte>)
    requires Tidy(buf, n) && |s| == SLOT && Live(s) && TidySlot(s) && Picked(buf, n, NameOf(s), Some(p))
    ensures Tidy(PutSlot(buf, p, s), n)
    ensures forall i :: 0 <= i < n ==> SlotAt(PutSlot(buf, p, s), i) == if i == p then s else SlotAt(buf, i)
  {
    var after := PutSlot(buf, p, s);
    forall i | 0 <= i < n
      ensures SlotAt(after, i) == if i == p then s else SlotAt(buf, i)
    {
      SlotAfterPut(buf, p, s, i);
    }
  }

  /** Erasing a live slot keeps a directory tidy. */
  lemma TidyErase(buf: seq<byte>, n: nat, p: nat)
    requires Tidy(buf, n) && p < n && Live(SlotAt(buf, p))
    ensures Tidy(PutSlot(buf, p, Erased(SlotAt(buf, p))), n)
    ensures forall i :: 0 <= i < n ==>
              SlotAt(PutSlot(buf, p, Erased(SlotAt(buf, p))), i) == if i == p then Erased(SlotAt(buf, p)) else SlotAt(buf, i)
  {
    var s := Erased(SlotAt(buf, p));
    forall i | 0 <= i < n
      ensures SlotAt(PutSlot(buf, p, s), i) == if i == p then s else SlotAt(buf, i)
    {
      SlotAfterPut(buf, p, s, i);
    }
  }

  /** Once its slot is erased, a name is not found in a tidy directory. */
  lemma ErasedMisses(buf: seq<byte>, n: nat, p: nat)
    requires Tidy(buf, n) && p < n && Live(SlotAt(buf, p))
    ensures Scan(PutSlot(buf, p, Erased(SlotAt(buf, p))), n, 0, Packed(NameOf(SlotAt(buf, p)))) == None
  {
    hide SlotAt, First, NameOf, PutSlot, Scan;
    TidyErase(buf, n, p);
  }
}
