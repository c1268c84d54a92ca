/** The Internet checksum of `net.c` (RFC 1071, sections 1 and 2) on little-endian 16-bit words. */
module Checksum {
  import opened Bytes

  const ONES := 0xFFFF

  /** The plain sum of the words; an odd last byte counts as the high byte of a word. */
  function WordSum(data: seq<byte>): (s: nat)
    ensures s <= ONES * ((|data| + 1) / 2)
    decreases |data|
  {
    if data == [] then 0
    else if |data| == 1 then 0x100 * (data[0] as int)
    else U16At(data, 0) + WordSum(data[2..])
  }

  /** End-around carry, repeated until 16 bits are left. */
  function Fold(s: nat): (r: nat)
    ensures r <= ONES
    decreases s
  {
    if s <= ONES then s else Fold(s % 0x1_0000 + s / 0x1_0000)
  }

  function Sum16(data: seq<byte>): (c: nat)
    ensures c <= ONES
  {
    ONES - Fold(WordSum(data))
  }

  lemma SumFits(data: seq<byte>)
    requires |data| < 0x1_0000
    ensures WordSum(data) < 0x8000_0000
  {
  }

  lemma SumStep(data: seq<byte>, i: nat)
    requires 2 * i <= |data|
    ensures 2 * i + 2 <= |data| ==> WordSum(data[2 * i..]) == U16At(data, 2 * i) + WordSum(data[2 * i + 2..])
    ensures 2 * i + 1 == |data| ==> WordSum(data[2 * i..]) == 0x100 * (data[2 * i] as int)
    ensures 2 * i == |data| ==> WordSum(data[2 * i..]) == 0
  {
    if 2 * i + 2 <= |data| {
      assert data[2 * i..][2..] == data[2 * i + 2..];
    }
  }

  /** `net_checksum`: the 32-bit accumulator never overflows. */
  method NetChecksum(data: seq<byte>) returns (c: nat)
    requires |data| < 0x1_0000
    ensures c == Sum16(data)
  {
    hide WordSum, U16At;
    SumFits(data);
    var sum, i := 0, 0;
    assert data[2 * i..] == data;
    while i < |data| / 2
      invariant 0 <= i <= |data| / 2 && 0 <= sum && WordSum(data) == sum + WordSum(data[2 * i..])
    {
      SumStep(data, i);
      sum := (sum + U16At(data, 2 * i)) % 0x1_0000_0000;
      i := i + 1;
    }
    SumStep(data, i);
    if |data| % 2 == 1 {
      sum := (sum + 0x100 * (data[|data| - 1] as int)) % 0x1_0000_0000;
    }
    while sum / 0x1_0000 != 0
      invariant 0 <= sum && Fold(sum) == Fold(WordSum(data))
      decreases sum
    {
      sum := sum % 0x1_0000 + sum / 0x1_0000;
    }
    c := ONES - sum;
  }

  // ---- arithmetic modulo 65535 ----

  /** The value of 16 one's complement bits that stands for `s`: only 0 folds to 0. */
  function Residue(s: nat): (r: nat)
    ensures r <= ONES && (r == 0 <==> s == 0)
  {
    if s == 0 then 0 else 1 + (s - 1) % ONES
  }

  lemma {:induction false} ModShift(a: nat, q: nat)
    ensures (a + ONES * q) % ONES == a % ONES
    decreases q
  {
    if q > 0 {
      ModShift(a + ONES, q - 1);
    }
  }

  /** Folding is reduction modulo 65535, with 65535 standing for the non-zero multiples. */
  lemma {:induction false} FoldIsResidue(s: nat)
    ensures Fold(s) == Residue(s)
    decreases s
  {
    if s > ONES {
      var q, r := s / 0x1_0000, s % 0x1_0000;
      assert s - 1 == (q + r - 1) + ONES * q;
      ModShift(q + r - 1, q);
      FoldIsResidue(q + r);
    }
  }

  /** Equal residues are congruence, for sums that are not zero. */
  lemma ResidueUnique(a: nat, b: nat, q: nat)
    requires a > 0 && b > 0 && a == b + ONES * q
    ensures Residue(a) == Residue(b)
  {
    ModShift(b - 1, q);
  }

  lemma ResidueOf(s: nat) returns (q: nat)
    ensures s == Residue(s) + ONES * q
  {
    q := if s == 0 then 0 else (s - 1) / ONES;
  }

  // ---- the field that makes the sum come out ----

  lemma {:induction false} SumOfSplice(data: seq<byte>, k: nat, w: nat)
    requires 2 * k + 2 <= |data| && w <= ONES
    ensures WordSum(Splice(data, 2 * k, LE16(w))) == WordSum(data) - U16At(data, 2 * k) + w
    decreases k
  {
    var t := Splice(data, 2 * k, LE16(w));
    if k == 0 {
      assert t[2..] == data[2..];
    } else {
      assert t[2..] == Splice(data[2..], 2 * (k - 1), LE16(w));
      SumOfSplice(data[2..], k - 1, w);
    }
  }

  /** Storing the checksum in a zeroed, aligned field makes the checksum of the whole 0. */
  lemma FilledFieldVerifies(data: seq<byte>, k: nat)
    requires 2 * k + 2 <= |data| && U16At(data, 2 * k) == 0
    ensures Sum16(Splice(data, 2 * k, LE16(Sum16(data)))) == 0
  {
    hide Fold, WordSum, Residue, Splice;
    var s, c := WordSum(data), Sum16(data);
    SumOfSplice(data, k, c);
    FoldIsResidue(s);
    FoldIsResidue(s + c);
    var q := ResidueOf(s);
    assert s + c == ONES + ONES * q;
    ResidueOfOnes(q);
  }

  lemma ResidueOfOnes(q: nat)
    ensures Residue(ONES + ONES * q) == ONES
  {
    ResidueUnique(ONES + ONES * q, ONES, q);
  }

  /** The checksum is 0 exactly when the words add up to a non-zero multiple of 65535. */
  lemma VerifiesIff(data: seq<byte>)
    ensures Sum16(data) == 0 <==> WordSum(data) > 0 && WordSum(data) % ONES == 0
  {
    hide Fold, WordSum;
    FoldIsResidue(WordSum(data));
  }

  // ---- byte order independence ----

  function Swap(w: nat): (r: nat)
    requires w <= ONES
    ensures r <= ONES
  {
    w / 0x100 + 0x100 * (w % 0x100)
  }

  /** The bytes of every word exchanged. */
  function Swapped(data: seq<byte>): (r: seq<byte>)
    requires |data| % 2 == 0
    ensures |r| == |data|
    decreases |data|
  {
    if data == [] then [] else [data[1], data[0]] + Swapped(data[2..])
  }

  /** Exchanging bytes multiplies the sum by 256, modulo 65535. */
  lemma {:induction false} SwappedSum(data: seq<byte>) returns (q: nat)
    requires |data| % 2 == 0
    ensures 0x100 * WordSum(data) == WordSum(Swapped(data)) + ONES * q
    decreases |data|
  {
    q := 0;
    if data != [] {
      var t := Swapped(data);
      assert t[2..] == Swapped(data[2..]);
      var p := SwappedSum(data[2..]);
      assert 0x100 * U16At(data, 0) == U16At(t, 0) + ONES * data[1];
      q := p + data[1];
    }
  }

  lemma SwapIsTimes256(w: nat)
    requires w <= ONES
    ensures 0x100 * w == Swap(w) + ONES * (w / 0x100) && (Swap(w) == 0 <==> w == 0)
  {
  }

  lemma ResidueSmall(w: nat)
    requires w <= ONES
    ensures Residue(w) == w
  {
  }

  /** Congruent sums of which both or neither are zero have the same residue. */
  lemma ResiduesAgree(a: nat, b: nat, p: nat, q: nat)
    requires a + ONES * p == b + ONES * q && (a == 0 <==> b == 0)
    ensures Residue(a) == Residue(b)
  {
    hide Residue;
    if a > 0 {
      if p >= q {
        ResidueUnique(b, a, p - q);
      } else {
        ResidueUnique(a, b, q - p);
      }
    }
  }

  lemma {:induction false} SwappedZero(data: seq<byte>)
    requires |data| % 2 == 0
    ensures WordSum(Swapped(data)) == 0 <==> WordSum(data) == 0
    decreases |data|
  {
    if data != [] {
      var t := Swapped(data);
      assert t[2..] == Swapped(data[2..]);
      SwappedZero(data[2..]);
    }
  }

  /** The checksum of the byte-swapped data is the byte-swapped checksum. */
  lemma SwapCommutes(data: seq<byte>)
    requires |data| % 2 == 0
    ensures Sum16(Swapped(data)) == Swap(Sum16(data))
  {
    hide Fold, WordSum, Residue, Swapped, Swap;
    var s, t := WordSum(data), WordSum(Swapped(data));
    FoldIsResidue(s);
    FoldIsResidue(t);
    SwappedZero(data);
    var f := Residue(s);
    var q := SwappedSum(data);
    var k := ResidueOf(s);
    SwapIsTimes256(f);
    assert t + ONES * q == Swap(f) + ONES * (f / 0x100 + 0x100 * k);
    ResiduesAgree(t, Swap(f), q, f / 0x100 + 0x100 * k);
    ResidueSmall(Swap(f));
    SwapComplement(f);
  }

  lemma SwapComplement(w: nat)
    requires w <= ONES
    ensures Swap(ONES - w) == ONES - Swap(w)
  {
    var a, b := w / 0x100, w % 0x100;
    assert ONES - w == 0x100 * (0xFF - a) + (0xFF - b);
  }

  // ---- odd lengths ----

  lemma {:induction false} PaddedSum(data: seq<byte>)
    requires |data| % 2 == 1
    ensures WordSum(data) == WordSum(data + [0]) + 0xFF * (data[|data| - 1] as int)
    ensures WordSum(data + [0]) >= data[|data| - 1]
    decreases |data|
  {
    var t := data + [0];
    if |data| > 1 {
      assert t[2..] == data[2..] + [0];
      PaddedSum(data[2..]);
    } else {
      assert t[2..] == [];
    }
  }

  /** RFC 1071 pads an odd length with a zero byte. The code agrees with that exactly when the last byte
      is zero; both of its callers pass even lengths. */
  lemma OddLengthAgrees(data: seq<byte>)
    requires |data| % 2 == 1
    ensures Sum16(data) == Sum16(data + [0]) <==> data[|data| - 1] == 0
  {
    hide Fold, WordSum, Residue;
    var a, b, last := WordSum(data), WordSum(data + [0]), data[|data| - 1] as int;
    PaddedSum(data);
    FoldIsResidue(a);
    FoldIsResidue(b);
    if Residue(a) == Residue(b) {
      var p := ResidueOf(a);
      var q := ResidueOf(b);
      assert 0xFF * last == ONES * (p - q);
    }
  }
}
