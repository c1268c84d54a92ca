/** 8.3 names: packing a path component into the 11 bytes of a directory entry, formatting
    those bytes for display, and case-insensitive matching. */
module Names {
  import opened Bytes

  const SPACE: byte := 0x20
  const DOT: byte := 0x2E
  const SLASH: byte := 0x2F
  const DELETED: byte := 0xE5

  predicate IsLower(c: byte) {
    0x61 <= c <= 0x7A
  }

  function Up(c: byte): byte {
    if IsLower(c) then c - 32 else c
  }

  function Upper(s: seq<byte>): (r: seq<byte>)
    ensures |r| == |s| && forall i :: 0 <= i < |s| ==> r[i] == Up(s[i])
  {
    seq(|s|, i requires 0 <= i < |s| => Up(s[i]))
  }

  function Spaces(n: nat): (r: seq<byte>)
    ensures |r| == n && forall i :: 0 <= i < n ==> r[i] == SPACE
  {
    seq(n, _ => SPACE)
  }

  /** The index of the first `c` in `s`, or `|s|`. */
  function Find(s: seq<byte>, c: byte): (k: nat)
    ensures k <= |s| && c !in s[..k] && (k < |s| ==> s[k] == c)
    ensures k == |s| <==> c !in s
  {
    if s == [] || s[0] == c then 0
    else
      assert s == [s[0]] + s[1..];
      var k := 1 + Find(s[1..], c);
      assert s[..k] == [s[0]] + s[1..][..k - 1];
      k
  }

  lemma FindUnique(s: seq<byte>, c: byte, k: nat)
    requires k <= |s| && c !in s[..k] && (k < |s| ==> s[k] == c)
    ensures Find(s, c) == k
  {
    assert forall j :: 0 <= j < k ==> s[j] in s[..k];
    assert forall j :: 0 <= j < Find(s, c) ==> s[j] in s[..Find(s, c)];
  }

  function StripSlash(p: seq<byte>): seq<byte> {
    if p != [] && p[0] == SLASH then p[1..] else p
  }

  function Base(n: seq<byte>): seq<byte> {
    n[..Find(n, DOT)]
  }

  function Ext(n: seq<byte>): seq<byte> {
    if Find(n, DOT) < |n| then n[Find(n, DOT) + 1..] else []
  }

  function Pack(base: seq<byte>, ext: seq<byte>): (r: seq<byte>)
    requires |base| <= 8 && |ext| <= 3
    ensures |r| == 11
  {
    Upper(base) + Spaces(8 - |base|) + Upper(ext) + Spaces(3 - |ext|)
  }

  predicate Accepted(p: seq<byte>) {
    var n := StripSlash(p);
    n != [] && SLASH !in n && DOT !in Ext(n) && |Base(n)| <= 8 && |Ext(n)| <= 3
  }

  /** What `fat32_make_name83` computes. */
  function Name83(p: seq<byte>): (r: Option<seq<byte>>)
    ensures r.Some? ==> |r.value| == 11
  {
    if Accepted(p) then Some(Pack(Base(StripSlash(p)), Ext(StripSlash(p)))) else None
  }

  /** How far the packing loop has come: the bytes before the dot, and those after it. */
  ghost predicate Parsed(name: seq<byte>, i: nat, base: seq<byte>, ext: seq<byte>, sawDot: bool) {
    && i <= |name| && SLASH !in name[..i] && |base| <= 8 && |ext| <= 3
    && (!sawDot ==> base == name[..i] && ext == [] && DOT !in name[..i])
    && (sawDot ==> Find(name, DOT) < i && base == Base(name) && ext == name[Find(name, DOT) + 1..i] && DOT !in ext)
  }

  /** One byte of the loop: it either goes on or shows the name to be rejected. */
  lemma ParseByte(path: seq<byte>, i: nat, base: seq<byte>, ext: seq<byte>, sawDot: bool)
    requires Parsed(StripSlash(path), i, base, ext, sawDot) && i < |StripSlash(path)|
    ensures var c := StripSlash(path)[i];
            && (c == SLASH || (c == DOT && sawDot) || (c != DOT && if sawDot then |ext| == 3 else |base| == 8) ==> !Accepted(path))
            && (c == DOT && !sawDot ==> Parsed(StripSlash(path), i + 1, base, ext, true))
            && (c != SLASH && c != DOT && !sawDot && |base| < 8 ==> Parsed(StripSlash(path), i + 1, base + [c], ext, false))
            && (c != SLASH && c != DOT && sawDot && |ext| < 3 ==> Parsed(StripSlash(path), i + 1, base, ext + [c], true))
  {
    hide StripSlash;
    var name := StripSlash(path);
    var c := name[i];
    assert c in name && name[..i + 1] == name[..i] + [c];
    if c == DOT {
      if sawDot {
        assert Ext(name)[i - Find(name, DOT) - 1] == DOT;
      } else {
        FindUnique(name, DOT, i);
      }
    } else if !sawDot {
      assert forall j :: 0 <= j < i ==> name[j] in name[..i];
    }
  }

  lemma ParsedAll(path: seq<byte>, base: seq<byte>, ext: seq<byte>, sawDot: bool)
    requires var name := StripSlash(path); name != [] && Parsed(name, |name|, base, ext, sawDot)
    ensures Name83(path) == Some(Pack(base, ext))
  {
    hide StripSlash, Upper;
    var name := StripSlash(path);
    assert name[..|name|] == name;
    if !sawDot {
      FindUnique(name, DOT, |name|);
    }
  }

  /** `fat32_make_name83`: one pass over the path, filling `base` and `ext`. */
  method MakeName83(path: seq<byte>) returns (r: Option<seq<byte>>)
    ensures r == Name83(path)
  {
    hide Accepted, Pack, Find, Base, Ext;
    var name := StripSlash(path);
    if name == [] {
      NoName(path);
      return None;
    }
    var base, ext, sawDot := [], [], false;
    var i := 0;
    while i < |name|
      invariant Parsed(name, i, base, ext, sawDot)
    {
      var c := name[i];
      ParseByte(path, i, base, ext, sawDot);
      if c == SLASH {
        return None;
      }
      if c == DOT {
        if sawDot {
          return None;
        }
        sawDot := true;
      } else if !sawDot {
        if |base| >= 8 {
          return None;
        }
        base := base + [c];
      } else {
        if |ext| >= 3 {
          return None;
        }
        ext := ext + [c];
      }
      i := i + 1;
    }
    ParsedAll(path, base, ext, sawDot);
    r := Some(Pack(base, ext));
  }

  lemma NoName(path: seq<byte>)
    requires StripSlash(path) == []
    ensures !Accepted(path)
  {
  }

  lemma NoZeroPacked(p: seq<byte>)
    requires 0 !in p && Name83(p).Some?
    ensures 0 !in Name83(p).value
  {
    hide Find;
    var n := StripSlash(p);
    assert forall i :: 0 <= i < |Base(n)| ==> Base(n)[i] in n;
    assert forall i :: 0 <= i < |Ext(n)| ==> Ext(n)[i] in n;
  }

  /** The text `fat32_format_name` produces. */
  function Format(name: seq<byte>): (r: seq<byte>)
    requires |name| == 11
  {
    var base, ext := name[..8], name[8..];
    base[..Find(base, SPACE)] + if ext == Spaces(3) then [] else [DOT] + ext[..Find(ext, SPACE)]
  }

  /** `fat32_format_name` into a buffer that is large enough. */
  method FormatName(name: seq<byte>) returns (out: seq<byte>)
    requires |name| == 11
    ensures out == Format(name)
  {
    var base, ext := name[..8], name[8..];
    out := [];
    var i := 0;
    while i < 8 && name[i] != SPACE
      invariant 0 <= i <= 8 && out == name[..i] && SPACE !in name[..i]
    {
      out := out + [name[i]];
      i := i + 1;
    }
    assert base[..i] == name[..i];
    FindUnique(base, SPACE, i);
    var hasExt := false;
    i := 8;
    while i < 11 && !hasExt
      invariant 8 <= i <= 11
      invariant hasExt ==> i < 11 && name[i] != SPACE
      invariant !hasExt ==> forall j :: 8 <= j < i ==> name[j] == SPACE
      decreases 11 - i, !hasExt
    {
      if name[i] != SPACE {
        hasExt := true;
      } else {
        i := i + 1;
      }
    }
    if hasExt {
      assert ext[i - 8] != SPACE;
      out := out + [DOT];
      ghost var stem := out;
      i := 8;
      while i < 11 && name[i] != SPACE
        invariant 8 <= i <= 11 && out == stem + ext[..i - 8] && SPACE !in ext[..i - 8]
      {
        assert ext[i - 8] == name[i] && ext[..i - 7] == ext[..i - 8] + [name[i]];
        out := out + [name[i]];
        i := i + 1;
      }
      FindUnique(ext, SPACE, i - 8);
    } else {
      assert ext == Spaces(3);
    }
  }

  /** The C string in a buffer. */
  function CStr(s: seq<byte>): seq<byte> {
    s[..Find(s, 0)]
  }

  /** What `fat32_name_match` decides. */
  predicate Matches(entry: seq<byte>, name: seq<byte>)
    requires |entry| == 11
  {
    Upper(CStr(Format(entry))) == Upper(name)
  }

  /** `fat32_name_match`, for a C string `name`. */
  method NameMatch(entry: seq<byte>, name: seq<byte>) returns (r: bool)
    requires |entry| == 11 && 0 !in name
    ensures r == Matches(entry, name)
  {
    var text := FormatName(entry);
    ghost var t := CStr(text);
    var i := 0;
    while i < |text| && text[i] != 0 && i < |name|
      invariant 0 <= i <= |t| && i <= |name|
      invariant forall j :: 0 <= j < i ==> Up(t[j]) == Up(name[j])
    {
      assert i < |t|;
      if Up(text[i]) != Up(name[i]) {
        assert Upper(t)[i] != Upper(name)[i];
        return false;
      }
      i := i + 1;
    }
    assert i < |t| ==> text[i] in t;
    r := (i == |text| || text[i] == 0) && i == |name|;
  }

  // ---- what packing and formatting preserve ----

  /** A name that survives the round trip: no space, no leading slash, no trailing dot. */
  predicate Plain(n: seq<byte>) {
    n != [] && SPACE !in n && n[0] != SLASH && n[|n| - 1] != DOT
  }

  /** A plain accepted name with a stem that does not read as the deleted mark. */
  predicate Canonical(n: seq<byte>) {
    Plain(n) && Accepted(n) && n[0] != DOT && n[0] != DELETED && 0 !in n
  }

  /** The packed form of some canonical name. */
  ghost predicate CanonicalEntry(e: seq<byte>) {
    exists n :: Canonical(n) && Name83(n) == Some(e)
  }

  lemma NotInUpper(s: seq<byte>, c: byte)
    requires c < 0x40
    ensures c in Upper(s) <==> c in s
  {
    if c in s {
      var i :| 0 <= i < |s| && s[i] == c;
      assert Upper(s)[i] == c;
    }
    if c in Upper(s) {
      var i :| 0 <= i < |s| && Upper(s)[i] == c;
      assert s[i] == c;
    }
  }

  lemma FindInUpper(s: seq<byte>, c: byte)
    requires c < 0x40
    ensures Find(Upper(s), c) == Find(s, c)
  {
    var k := Find(s, c);
    assert Upper(s)[..k] == Upper(s[..k]);
    NotInUpper(s[..k], c);
    FindUnique(Upper(s), c, k);
  }

  /** Where a packed name keeps its parts. */
  lemma FormatOfPack(base: seq<byte>, ext: seq<byte>)
    requires |base| <= 8 && |ext| <= 3 && SPACE !in base && SPACE !in ext
    ensures Format(Pack(base, ext)) == Upper(base) + if ext == [] then [] else [DOT] + Upper(ext)
  {
    var p := Pack(base, ext);
    NotInUpper(base, SPACE);
    NotInUpper(ext, SPACE);
    assert p[..8][..|base|] == Upper(base);
    FindUnique(p[..8], SPACE, |base|);
    assert p[8..][..|ext|] == Upper(ext);
    FindUnique(p[8..], SPACE, |ext|);
    if ext == [] {
      assert p[8..] == Spaces(3);
    } else {
      assert p[8..][0] == Upper(ext)[0] && Upper(ext)[0] in Upper(ext);
    }
  }

  /** A name is its stem, then a dot and an extension if it has a dot. */
  lemma NameParts(n: seq<byte>)
    ensures n == Base(n) + if Find(n, DOT) < |n| then [DOT] + Ext(n) else []
  {
    hide Find;
    if Find(n, DOT) < |n| {
      SplitAt(n, Find(n, DOT));
    }
  }

  lemma SplitAt(n: seq<byte>, k: nat)
    requires k < |n|
    ensures n == n[..k] + ([n[k]] + n[k + 1..])
  {
  }

  lemma LastOfExt(n: seq<byte>)
    requires Find(n, DOT) < |n| - 1
    ensures Ext(n) != [] && n[|n| - 1] == Ext(n)[|Ext(n)| - 1]
  {
    hide Find;
  }

  lemma UpperOfParts(n: seq<byte>)
    ensures Upper(n) == Upper(Base(n)) + if Find(n, DOT) < |n| then [DOT] + Upper(Ext(n)) else []
  {
    assert Upper([DOT]) == [DOT];
    hide Find, Upper;
    NameParts(n);
    if Find(n, DOT) < |n| {
      UpperOfJoin(Base(n), [DOT] + Ext(n));
      UpperOfJoin([DOT], Ext(n));
    }
  }

  lemma UpperOfJoin(a: seq<byte>, b: seq<byte>)
    ensures Upper(a + b) == Upper(a) + Upper(b)
  {
  }

  /** Formatting never shows a space. */
  lemma FormatHasNoSpace(e: seq<byte>)
    requires |e| == 11
    ensures SPACE !in Format(e)
  {
  }

  lemma FormatOfPlain(n: seq<byte>)
    requires Accepted(n) && Plain(n)
    ensures Format(Name83(n).value) == Upper(n)
  {
    hide Find;
    assert StripSlash(n) == n;
    NameParts(n);
    UpperOfParts(n);
    assert forall c :: c in Base(n) || c in Ext(n) ==> c in n;
    FormatOfPack(Base(n), Ext(n));
    assert Find(n, DOT) != |n| - 1;
  }

  /** An accepted name formats to its upper-case form exactly when it is plain. */
  lemma FormatRoundTrip(n: seq<byte>)
    requires Accepted(n)
    ensures Format(Name83(n).value) == Upper(n) <==> Plain(n)
  {
    var e := Name83(n).value;
    if Plain(n) {
      FormatOfPlain(n);
    } else if n[0] == SLASH {
      NotInUpper(n, SLASH);
      NoSlashInFormat(n);
      assert SLASH in Upper(n);
    } else if SPACE in n {
      NotInUpper(n, SPACE);
      FormatHasNoSpace(e);
    } else {
      TrailingDot(n);
    }
  }

  lemma FormatBytes(e: seq<byte>, c: byte)
    requires |e| == 11 && c in Format(e)
    ensures c == DOT || c in e
  {
    hide Find;
  }

  lemma PackBytes(base: seq<byte>, ext: seq<byte>, c: byte)
    requires |base| <= 8 && |ext| <= 3 && c < 0x40 && c != SPACE && c !in base && c !in ext
    ensures c !in Pack(base, ext)
  {
    NotInUpper(base, c);
    NotInUpper(ext, c);
  }

  lemma NoSlashInFormat(n: seq<byte>)
    requires Accepted(n)
    ensures SLASH !in Format(Name83(n).value)
  {
    hide Find, Format, Pack;
    var m := StripSlash(n);
    assert SLASH !in Base(m) && SLASH !in Ext(m);
    PackBytes(Base(m), Ext(m), SLASH);
    if SLASH in Format(Name83(n).value) {
      FormatBytes(Name83(n).value, SLASH);
      assert false;
    }
  }

  lemma TrailingDot(n: seq<byte>)
    requires Accepted(n) && SPACE !in n && n[0] != SLASH && n[|n| - 1] == DOT
    ensures Format(Name83(n).value) != Upper(n)
  {
    hide Find;
    NameParts(n);
    UpperOfParts(n);
    assert forall c :: c in Base(n) || c in Ext(n) ==> c in n;
    assert DOT in n;
    if Find(n, DOT) < |n| - 1 {
      LastOfExt(n);
      assert false;
    }
    FormatOfPack(Base(n), Ext(n));
  }

  lemma CanonicalPacks(n: seq<byte>)
    requires Canonical(n)
    ensures Name83(n).Some? && CanonicalEntry(Name83(n).value)
  {
  }

  lemma CanonicalNotEmpty(n: seq<byte>)
    requires Canonical(n)
    ensures n != []
  {
  }

  lemma UpperTwice(s: seq<byte>)
    ensures Upper(Upper(s)) == Upper(s)
  {
  }

  lemma UpperParts(n: seq<byte>)
    ensures Base(Upper(n)) == Upper(Base(n)) && Ext(Upper(n)) == Upper(Ext(n))
  {
    FindInUpper(n, DOT);
  }

  lemma StripUpper(n: seq<byte>)
    ensures StripSlash(Upper(n)) == Upper(StripSlash(n))
  {
  }

  lemma AcceptedIgnoresCase(n: seq<byte>)
    ensures Accepted(Upper(n)) <==> Accepted(n)
  {
    hide Find, Base, Ext, StripSlash, Upper;
    var m := StripSlash(n);
    StripUpper(n);
    UpperParts(m);
    NotInUpper(m, SLASH);
    NotInUpper(Ext(m), DOT);
  }

  /** Case does not matter to packing. */
  lemma PackIgnoresCase(n: seq<byte>)
    ensures Name83(Upper(n)) == Name83(n)
  {
    hide Find, Base, Ext, StripSlash, Upper, Accepted;
    var m := StripSlash(n);
    AcceptedIgnoresCase(n);
    StripUpper(n);
    UpperParts(m);
    UpperTwice(Base(m));
    UpperTwice(Ext(m));
  }

  /** Packing a formatted canonical entry gives its 11 bytes back. */
  lemma PackOfFormat(e: seq<byte>)
    requires CanonicalEntry(e)
    ensures |e| == 11 && Name83(Format(e)) == Some(e)
  {
    var n :| Canonical(n) && Name83(n) == Some(e);
    FormatOfPlain(n);
    PackIgnoresCase(n);
  }

  /** Case-insensitive matching and packed comparison find the same entry. */
  lemma MatchIsPackedEquality(e: seq<byte>, n: seq<byte>)
    requires CanonicalEntry(e) && Canonical(n)
    ensures |e| == 11 && (Matches(e, n) <==> Name83(n) == Some(e))
  {
    hide Find, Base, Ext, Accepted, Pack, Format;
    var m :| Canonical(m) && Name83(m) == Some(e);
    FormatOfPlain(m);
    NotInUpper(m, 0);
    FindUnique(Format(e), 0, |Format(e)|);
    assert CStr(Format(e)) == Upper(m);
    UpperTwice(m);
    PackIgnoresCase(m);
    PackIgnoresCase(n);
    if Name83(n) == Some(e) {
      FormatOfPlain(n);
    }
  }

  /** Whatever text a canonical entry answers to is a canonical name. */
  lemma MatchedName(e: seq<byte>, n: seq<byte>)
    requires CanonicalEntry(e) && |e| == 11 && Matches(e, n)
    ensures Canonical(n)
  {
    hide Find, Base, Ext, Accepted, Pack, Format;
    var m :| Canonical(m) && Name83(m) == Some(e);
    FormatOfPlain(m);
    NotInUpper(m, 0);
    FindUnique(Format(e), 0, |Format(e)|);
    assert CStr(Format(e)) == Upper(m);
    UpperTwice(m);
    SameUpper(m, n);
  }

  lemma SameUpper(m: seq<byte>, n: seq<byte>)
    requires Canonical(m) && Upper(m) == Upper(n)
    ensures Canonical(n)
  {
    hide Find, Base, Ext, Accepted;
    assert |m| == |n|;
    NotInUpper(m, 0);
    NotInUpper(n, 0);
    NotInUpper(m, SPACE);
    NotInUpper(n, SPACE);
    AcceptedIgnoresCase(m);
    AcceptedIgnoresCase(n);
    assert forall i :: 0 <= i < |m| ==> Up(m[i]) == Upper(m)[i] == Upper(n)[i] == Up(n[i]);
  }

  // ---- the two entries every subdirectory starts with ----

  const DOT_ENTRY: seq<byte> := [DOT] + Spaces(10)
  const DOTDOT_ENTRY: seq<byte> := [DOT, DOT] + Spaces(9)

  lemma DotEntriesFormat()
    ensures Format(DOT_ENTRY) == [DOT] && Format(DOTDOT_ENTRY) == [DOT, DOT]
  {
    FindUnique(DOT_ENTRY[..8], SPACE, 1);
    FindUnique(DOTDOT_ENTRY[..8], SPACE, 2);
    assert DOT_ENTRY[8..] == Spaces(3) && DOTDOT_ENTRY[8..] == Spaces(3);
  }

  lemma DotMatches(n: seq<byte>)
    ensures Matches(DOT_ENTRY, n) <==> n == [DOT]
    ensures Matches(DOTDOT_ENTRY, n) <==> n == [DOT, DOT]
  {
    DotEntriesFormat();
    FindUnique([DOT], 0, 1);
    FindUnique([DOT, DOT], 0, 2);
    assert Upper([DOT]) == [DOT] && Upper([DOT, DOT]) == [DOT, DOT];
    if |n| == 1 && Upper(n)[0] == DOT {
      assert n[0] == DOT;
    }
    if |n| == 2 && Upper(n) == [DOT, DOT] {
      assert Upper(n)[0] == DOT && Upper(n)[1] == DOT;
    }
  }

  /** A canonical entry is live and is neither dot entry; it matches neither dot name. */
  lemma CanonicalEntryFirst(e: seq<byte>)
    requires CanonicalEntry(e)
    ensures |e| == 11 && e[0] !in {0, DOT, SPACE, DELETED}
    ensures !Matches(e, [DOT]) && !Matches(e, [DOT, DOT])
  {
    var n :| Canonical(n) && Name83(n) == Some(e);
    assert n[0] in n && StripSlash(n) == n && Base(n)[0] == n[0];
    assert e[0] == Up(n[0]);
    FormatOfPlain(n);
    NotInUpper(n, 0);
    FindUnique(Format(e), 0, |Format(e)|);
    assert Upper(CStr(Format(e)))[0] == e[0];
    assert Upper([DOT])[0] == DOT && Upper([DOT, DOT])[0] == DOT;
  }
}
