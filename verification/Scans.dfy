/** The driver's scans over any directory, tidy or not, by the first bytes and attributes of its slots. */
module Scans {
  import opened Bytes
  import opened Names
  import opened Directory

  predicate Unused(s: seq<byte>)
    requires |s| == SLOT
  {
    s[0] == 0
  }

  /** Deleted slots and long-name slots are passed over. */
  predicate PassedOver(s: seq<byte>)
    requires |s| == SLOT
  {
    s[0] == 0xE5 || s[11] == 0x0F
  }

  ghost predicate Answers(buf: seq<byte>, n: nat, key: Key, p: int) {
    && SLOT * n <= |buf| && 0 <= p < n
    && !Unused(SlotAt(buf, p)) && !PassedOver(SlotAt(buf, p)) && Hit(key, SlotAt(buf, p))
  }

  /** A lookup finds slot `p` exactly if it answers, no slot before it does, and none before it is unused. */
  lemma {:induction false} ScanLaw(buf: seq<byte>, n: nat, i: nat, key: Key)
    requires SLOT * n <= |buf| && i <= n
    ensures forall p ::
              Scan(buf, n, i, key) == Some(p)
              <==> Answers(buf, n, key, p) && i <= p
                   && forall q :: i <= q < p ==> !Unused(SlotAt(buf, q)) && !Answers(buf, n, key, q)
    decreases n - i
  {
    hide SlotAt, Hit;
    if i < n {
      ScanLaw(buf, n, i + 1, key);
      if Unused(SlotAt(buf, i)) {
        assert Scan(buf, n, i, key) == None;
      } else if Answers(buf, n, key, i) {
        assert Scan(buf, n, i, key) == Some(i);
      } else {
        assert Scan(buf, n, i, key) == Scan(buf, n, i + 1, key);
      }
    }
  }

  /** Mkdir takes the first slot that is unused or deleted. */
  lemma {:induction false} ScanFreeLaw(buf: seq<byte>, n: nat, i: nat)
    requires SLOT * n <= |buf| && i <= n
    ensures forall p ::
              ScanFree(buf, n, i) == Some(p)
              <==> i <= p < n && SlotAt(buf, p)[0] in {0, 0xE5} && forall q :: i <= q < p ==> SlotAt(buf, q)[0] !in {0, 0xE5}
    decreases n - i
  {
    hide SlotAt;
    if i < n {
      ScanFreeLaw(buf, n, i + 1);
    }
  }

  /** Where a write can put a new entry. */
  predicate Available(s: seq<byte>)
    requires |s| == SLOT
  {
    Unused(s) || PassedOver(s)
  }

  /** The scan of a write ends at an unused slot unless it has seen an available one before. */
  ghost predicate Ends(buf: seq<byte>, n: nat, q: int) {
    && SLOT * n <= |buf| && 0 <= q < n && Unused(SlotAt(buf, q))
    && forall k :: 0 <= k < q ==> !Available(SlotAt(buf, k))
  }

  /** A write takes the first slot of that name before the scan ends; failing that the first available one. */
  lemma ScanWriteLaw(buf: seq<byte>, n: nat, name: seq<byte>)
    requires SLOT * n <= |buf| && |name| == 11 && name[0] != 0
    ensures forall p :: Answers(buf, n, Packed(name), p) && (forall q :: 0 <= q < p ==> !Ends(buf, n, q) && !Answers(buf, n, Packed(name), q))
              ==> ScanWrite(buf, n, 0, name, None) == Some(p)
    ensures (forall p :: Answers(buf, n, Packed(name), p) ==> exists q :: q < p && Ends(buf, n, q)) ==>
              forall p :: 0 <= p < n && Available(SlotAt(buf, p)) && (forall k :: 0 <= k < p ==> !Available(SlotAt(buf, k)))
                ==> ScanWrite(buf, n, 0, name, None) == Some(p)
    ensures (forall p :: 0 <= p < n ==> !Available(SlotAt(buf, p)) && !Answers(buf, n, Packed(name), p)) ==>
              ScanWrite(buf, n, 0, name, None) == None
  {
    hide SlotAt, ScanWrite, Hit;
    if forall p :: 0 <= p < n ==> !Available(SlotAt(buf, p)) && !Answers(buf, n, Packed(name), p) {
      WriteFails(buf, n, 0, name);
    }
    forall p | Answers(buf, n, Packed(name), p) && (forall q :: 0 <= q < p ==> !Ends(buf, n, q) && !Answers(buf, n, Packed(name), q))
      ensures ScanWrite(buf, n, 0, name, None) == Some(p)
    {
      WriteFinds(buf, n, 0, name, None, p);
    }
    if forall p :: Answers(buf, n, Packed(name), p) ==> exists q :: q < p && Ends(buf, n, q) {
      forall p | 0 <= p < n && Available(SlotAt(buf, p)) && (forall k :: 0 <= k < p ==> !Available(SlotAt(buf, k)))
        ensures ScanWrite(buf, n, 0, name, None) == Some(p)
      {
        WriteTakes(buf, n, 0, name, None, p);
      }
    }
  }

  /** The state of the scan at slot `i`: the first available slot so far. */
  ghost predicate Seen(buf: seq<byte>, n: nat, i: nat, free: Option<nat>) {
    && SLOT * n <= |buf| && i <= n
    && (free.None? ==> forall k :: 0 <= k < i ==> !Available(SlotAt(buf, k)))
    && (free.Some? ==> free.value < i && Available(SlotAt(buf, free.value)) && forall k :: 0 <= k < free.value ==> !Available(SlotAt(buf, k)))
  }

  lemma {:induction false} WriteFinds(buf: seq<byte>, n: nat, i: nat, name: seq<byte>, free: Option<nat>, p: nat)
    requires Seen(buf, n, i, free) && |name| == 11 && name[0] != 0 && i <= p
    requires Answers(buf, n, Packed(name), p) && forall q :: 0 <= q < p ==> !Ends(buf, n, q) && !Answers(buf, n, Packed(name), q)
    ensures ScanWrite(buf, n, i, name, free) == Some(p)
    decreases n - i
  {
    hide SlotAt;
    if i < p {
      assert !Ends(buf, n, i) && !Answers(buf, n, Packed(name), i);
      WriteFinds(buf, n, i + 1, name, if free.None? && Available(SlotAt(buf, i)) then Some(i) else free, p);
    }
  }

  lemma {:induction false} WriteTakes(buf: seq<byte>, n: nat, i: nat, name: seq<byte>, free: Option<nat>, p: nat)
    requires Seen(buf, n, i, free) && |name| == 11 && name[0] != 0
    requires p < n && Available(SlotAt(buf, p)) && forall k :: 0 <= k < p ==> !Available(SlotAt(buf, k))
    requires forall q :: Answers(buf, n, Packed(name), q) ==> exists e :: e < q && Ends(buf, n, e)
    requires forall e :: 0 <= e < i ==> !Ends(buf, n, e)
    ensures ScanWrite(buf, n, i, name, free) == Some(p)
    decreases n - i
  {
    hide SlotAt;
    if i < n {
      assert !Answers(buf, n, Packed(name), i);
      if !Ends(buf, n, i) {
        WriteTakes(buf, n, i + 1, name, if free.None? && Available(SlotAt(buf, i)) then Some(i) else free, p);
      }
    }
  }

  lemma {:induction false} WriteFails(buf: seq<byte>, n: nat, i: nat, name: seq<byte>)
    requires SLOT * n <= |buf| && i <= n && |name| == 11
    requires forall p :: 0 <= p < n ==> !Available(SlotAt(buf, p)) && !Answers(buf, n, Packed(name), p)
    ensures ScanWrite(buf, n, i, name, None) == None
    decreases n - i
  {
    hide SlotAt;
    if i < n {
      assert !Available(SlotAt(buf, i)) && !Answers(buf, n, Packed(name), i);
      WriteFails(buf, n, i + 1, name);
    }
  }
}
