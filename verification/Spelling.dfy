/** 8.3 names byte by byte: which texts are accepted, what they are packed to, and that case does not matter. */
module Spelling {
  import opened Bytes
  import opened Names

  // ---- packing ----

  /** `n` is a stem of at most 8 bytes, or that with a dot and an extension of at most 3. */
  predicate Parts(n: seq<byte>, base: seq<byte>, ext: seq<byte>) {
    && |base| <= 8 && |ext| <= 3 && 0x2E !in base && 0x2E !in ext && 0x2F !in base && 0x2F !in ext
    && ((n == base && ext == []) || n == base + [0x2E] + ext)
  }

  /** The byte a letter is packed to: capitals for small letters, anything else as it is. */
  predicate PackedTo(c: byte, u: byte) {
    if 0x61 <= c <= 0x7A then u == c - 0x20 else u == c
  }

  /** The 11 bytes: the stem in the first 8, the extension in the last 3, spaces after each. */
  predicate Filled(r: seq<byte>, base: seq<byte>, ext: seq<byte>) {
    && |r| == 11 && |base| <= 8 && |ext| <= 3
    && (forall i :: 0 <= i < 8 ==> if i < |base| then PackedTo(base[i], r[i]) else r[i] == 0x20)
    && (forall i :: 0 <= i < 3 ==> if i < |ext| then PackedTo(ext[i], r[8 + i]) else r[8 + i] == 0x20)
  }

  lemma PartsOf(n: seq<byte>, base: seq<byte>, ext: seq<byte>)
    requires Parts(n, base, ext)
    ensures Base(n) == base && Ext(n) == ext && SLASH !in n
  {
    hide Find;
    FindUnique(n, DOT, |base|);
    if n != base {
      assert n[..|base|] == base && n[|base| + 1..] == ext;
    }
  }

  lemma PackFills(base: seq<byte>, ext: seq<byte>)
    requires |base| <= 8 && |ext| <= 3
    ensures Filled(Pack(base, ext), base, ext)
  {
  }

  /** A name in parts is packed like that, one leading slash of the path not counted. */
  lemma NamePacked(path: seq<byte>, n: seq<byte>, base: seq<byte>, ext: seq<byte>)
    requires (path == n && (n == [] || n[0] != 0x2F)) || path == [0x2F] + n
    requires n != [] && Parts(n, base, ext)
    ensures Name83(path).Some? && Filled(Name83(path).value, base, ext)
  {
    hide Find, Base, Ext, Pack, Filled;
    PartsOf(n, base, ext);
    PackFills(base, ext);
    assert StripSlash(path) == n;
  }

  /** And only such names are accepted. */
  lemma NameAccepted(path: seq<byte>)
    ensures var n := if path != [] && path[0] == 0x2F then path[1..] else path;
            Name83(path).Some? <==> n != [] && exists base, ext :: Parts(n, base, ext)
  {
    hide Find, Base, Ext, Pack;
    var n := if path != [] && path[0] == 0x2F then path[1..] else path;
    if Name83(path).Some? {
      PartsExist(n);
    }
    if base, ext :| Parts(n, base, ext) {
      PartsOf(n, base, ext);
    }
  }

  lemma PartsExist(n: seq<byte>)
    requires SLASH !in n && DOT !in Ext(n) && |Base(n)| <= 8 && |Ext(n)| <= 3
    ensures Parts(n, Base(n), Ext(n))
  {
    hide Find;
    NameParts(n);
    assert forall c :: c in Base(n) || c in Ext(n) ==> c in n;
    if Find(n, DOT) == |n| {
      assert n[..|n|] == n;
    }
  }

  /** No packed name holds a small letter. */
  lemma NoSmallLetters(path: seq<byte>)
    requires Name83(path).Some?
    ensures forall i :: 0 <= i < 11 ==> !(0x61 <= Name83(path).value[i] <= 0x7A)
  {
    hide Find, Base, Ext, StripSlash;
  }

  // ---- case ----

  /** The same text, apart from the case of letters. */
  predicate SameLetters(a: seq<byte>, b: seq<byte>) {
    && |a| == |b|
    && forall i :: 0 <= i < |a| ==>
         a[i] == b[i] || (0x41 <= a[i] <= 0x5A && b[i] == a[i] + 0x20) || (0x41 <= b[i] <= 0x5A && a[i] == b[i] + 0x20)
  }

  lemma SameUnderUpper(a: seq<byte>, b: seq<byte>)
    ensures SameLetters(a, b) <==> Upper(a) == Upper(b)
  {
    if Upper(a) == Upper(b) {
      assert |a| == |b|;
      assert forall i :: 0 <= i < |a| ==> Up(a[i]) == Upper(a)[i] == Upper(b)[i] == Up(b[i]);
    }
  }

  /** An entry answers to exactly the texts that differ from its own in case only. */
  lemma MatchLaw(e: seq<byte>, n: seq<byte>)
    requires |e| == 11 && 0 !in e
    ensures Matches(e, n) <==> SameLetters(Format(e), n)
  {
    hide Format;
    FormatNoZero(e);
    FindUnique(Format(e), 0, |Format(e)|);
    assert Format(e)[..|Format(e)|] == Format(e);
    SameUnderUpper(Format(e), n);
  }

  lemma FormatNoZero(e: seq<byte>)
    requires |e| == 11 && 0 !in e
    ensures 0 !in Format(e)
  {
    hide Format;
    if 0 in Format(e) {
      FormatBytes(e, 0);
      assert false;
    }
  }

  /** Names that differ in case only are packed alike and match the same entries... */
  lemma CaseBlind(a: seq<byte>, b: seq<byte>)
    requires SameLetters(a, b)
    ensures Name83(a) == Name83(b)
    ensures forall e :: |e| == 11 ==> (Matches(e, a) <==> Matches(e, b))
  {
    hide Name83, Find, Format;
    SameUnderUpper(a, b);
    PackIgnoresCase(a);
    PackIgnoresCase(b);
  }

  /** ... and canonical names that are packed alike differ in case only. */
  lemma OnlyCase(a: seq<byte>, b: seq<byte>)
    requires Canonical(a) && Canonical(b) && Name83(a) == Name83(b)
    ensures SameLetters(a, b)
  {
    hide Find, Pack, Format;
    FormatOfPlain(a);
    FormatOfPlain(b);
    SameUnderUpper(a, b);
  }

  /** The text of an entry: its stem and extension up to their first spaces, with a dot between if there is an
      extension. */
  lemma FormatLaw(base: seq<byte>, ext: seq<byte>)
    requires |base| <= 8 && |ext| <= 3 && 0x20 !in base && 0x20 !in ext
    ensures Format(base + Spaces(8 - |base|) + ext + Spaces(3 - |ext|)) == base + if ext == [] then [] else [0x2E] + ext
  {
    hide Find;
    var e := base + Spaces(8 - |base|) + ext + Spaces(3 - |ext|);
    assert e[..8] == base + Spaces(8 - |base|) && e[8..] == ext + Spaces(3 - |ext|);
    FindUnique(e[..8], SPACE, |base|);
    FindUnique(e[8..], SPACE, |ext|);
    assert e[..8][..|base|] == base && e[8..][..|ext|] == ext;
    if ext != [] {
      assert e[8..][0] == ext[0] && ext[0] in ext;
    }
  }
}
