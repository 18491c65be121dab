/** Short file names: up to eight characters, and up to three more after a dot, made into the
    eleven bytes of a directory entry (Modules/SD/SdFile.cpp:263-301). */
module Names {
  import opened Bytes

  const DOT: byte := 0x2E
  const BLANK: byte := 0x20

  /** Printable, and none of | < > ^ + = ? / [ ] ; , * " \ */
  predicate IsLegal(c: byte) {
    && 0x21 <= c <= 0x7E
    && c !in [0x7C, 0x3C, 0x3E, 0x5E, 0x2B, 0x3D, 0x3F, 0x2F, 0x5B, 0x5D, 0x3B, 0x2C, 0x2A, 0x22, 0x5C]
  }

  function Upper(c: byte): byte {
    if 0x61 <= c <= 0x7A then c - 0x20 else c
  }

  /** The legal characters, listed apart: ! # to ) - . digits : @ letters _ ` { } ~ */
  lemma LegalAre(c: byte)
    ensures IsLegal(c) <==>
            c == 0x21 || 0x23 <= c <= 0x29 || c == 0x2D || c == 0x2E || 0x30 <= c <= 0x3A || 0x40 <= c <= 0x5A
            || 0x5F <= c <= 0x7B || c == 0x7D || c == 0x7E
  {
  }

  /** The 26 letters get their upper case form, everything else stays. */
  lemma UppersAre(i: nat, c: byte)
    ensures i < 26 ==> Upper("abcdefghijklmnopqrstuvwxyz"[i] as int) == "ABCDEFGHIJKLMNOPQRSTUVWXYZ"[i] as int
    ensures c as char !in "abcdefghijklmnopqrstuvwxyz" ==> Upper(c) == c
  {
  }

  /** A part of a name: legal characters and no dot, at most `n` of them. */
  predicate IsPart(s: seq<byte>, n: nat) {
    |s| <= n && forall i :: 0 <= i < |s| ==> IsLegal(s[i]) && s[i] != DOT
  }

  /** A part in upper case, filled up with blanks. */
  function Field(s: seq<byte>, n: nat): (f: seq<byte>)
    requires |s| <= n
    ensures |f| == n
  {
    seq(n, i requires 0 <= i < n => if i < |s| then Upper(s[i]) else BLANK)
  }

  /** Where the first dot is, or the end. */
  function FirstDot(s: seq<byte>): (d: nat)
    ensures d <= |s| && (d < |s| ==> s[d] == DOT)
    ensures forall i :: 0 <= i < d ==> s[i] != DOT
  {
    if s == [] || s[0] == DOT then 0 else 1 + FirstDot(s[1..])
  }

  function Base(s: seq<byte>): seq<byte> {
    s[..FirstDot(s)]
  }

  function Extension(s: seq<byte>): seq<byte> {
    if FirstDot(s) < |s| then s[FirstDot(s) + 1..] else []
  }

  /** An 8.3 name: a base, and an extension that may be missing. */
  predicate Is83(s: seq<byte>) {
    Base(s) != [] && IsPart(Base(s), 8) && IsPart(Extension(s), 3)
  }

  function EntryName(s: seq<byte>): (name: seq<byte>)
    requires Is83(s)
    ensures |name| == 11
  {
    Field(Base(s), 8) + Field(Extension(s), 3)
  }

  /** The name of an entry never starts like a free or deleted one, and has no lower case. */
  lemma NameIsLive(s: seq<byte>)
    requires Is83(s)
    ensures 0x21 <= EntryName(s)[0] <= 0x7E && EntryName(s)[0] != DOT
    ensures forall i :: 0 <= i < 11 ==> !(0x61 <= EntryName(s)[i] <= 0x7A)
  {
    assert IsLegal(Base(s)[0]);
  }

  /** Two spellings make the same name exactly if they differ in case and a final dot only. */
  lemma SameNameSpelling(s: seq<byte>, t: seq<byte>)
    requires Is83(s) && Is83(t)
    ensures EntryName(s) == EntryName(t) <==>
            Uppers(Base(s)) == Uppers(Base(t)) && Uppers(Extension(s)) == Uppers(Extension(t))
  {
    FieldIs(Base(s), Base(t), 8);
    FieldIs(Extension(s), Extension(t), 3);
    assert EntryName(s)[..8] == Field(Base(s), 8) && EntryName(s)[8..] == Field(Extension(s), 3);
    assert EntryName(t)[..8] == Field(Base(t), 8) && EntryName(t)[8..] == Field(Extension(t), 3);
  }

  function Uppers(s: seq<byte>): (u: seq<byte>)
    ensures |u| == |s| && forall i :: 0 <= i < |s| ==> u[i] == Upper(s[i])
  {
    seq(|s|, i requires 0 <= i < |s| => Upper(s[i]))
  }

  lemma FieldIs(s: seq<byte>, t: seq<byte>, n: nat)
    requires IsPart(s, n) && IsPart(t, n)
    ensures Field(s, n) == Field(t, n) <==> Uppers(s) == Uppers(t)
  {
    if Field(s, n) == Field(t, n) {
      FieldTells(s, t, n);
    }
    if Uppers(s) == Uppers(t) {
      FieldSame(s, t, n);
    }
  }

  lemma FieldTells(s: seq<byte>, t: seq<byte>, n: nat)
    requires IsPart(s, n) && IsPart(t, n) && Field(s, n) == Field(t, n)
    ensures Uppers(s) == Uppers(t)
  {
    FieldLength(s, t, n);
    FieldLength(t, s, n);
    forall i | 0 <= i < |s|
      ensures Uppers(s)[i] == Uppers(t)[i]
    {
      assert Field(s, n)[i] == Field(t, n)[i];
    }
  }

  lemma FieldSame(s: seq<byte>, t: seq<byte>, n: nat)
    requires |s| <= n && |t| <= n && Uppers(s) == Uppers(t)
    ensures Field(s, n) == Field(t, n)
  {
    forall i | 0 <= i < n
      ensures Field(s, n)[i] == Field(t, n)[i]
    {
      assert i < |s| ==> Uppers(s)[i] == Uppers(t)[i];
    }
  }

  /** No legal character becomes a blank. */
  lemma FieldLength(s: seq<byte>, t: seq<byte>, n: nat)
    requires IsPart(s, n) && IsPart(t, n) && Field(s, n) == Field(t, n)
    ensures |s| <= |t|
  {
    assert |t| < |s| ==> IsLegal(s[|t|]) && Field(s, n)[|t|] == Upper(s[|t|]);
    assert |t| < n ==> Field(t, n)[|t|] == BLANK;
  }

  lemma FirstDotIs(s: seq<byte>, d: nat)
    requires d <= |s| && (d < |s| ==> s[d] == DOT) && forall i :: 0 <= i < d ==> s[i] != DOT
    ensures FirstDot(s) == d
  {
  }

  /** "ReadMe.1st" makes the name of the entry "README  1ST". */
  lemma Spelling()
    ensures
      var s := [0x52, 0x65, 0x61, 0x64, 0x4D, 0x65, 0x2E, 0x31, 0x73, 0x74];
      Is83(s) && EntryName(s) == [0x52, 0x45, 0x41, 0x44, 0x4D, 0x45, 0x20, 0x20, 0x31, 0x53, 0x54]
  {
    hide Field, IsLegal, FirstDot;
    var base: seq<byte>, ext: seq<byte> := [0x52, 0x65, 0x61, 0x64, 0x4D, 0x65], [0x31, 0x73, 0x74];
    SpellingFields();
    var s := base + [DOT] + ext;
    FirstDotIs(s, 6);
    assert Base(s) == base && Extension(s) == ext;
    assert s == [0x52, 0x65, 0x61, 0x64, 0x4D, 0x65, 0x2E, 0x31, 0x73, 0x74];
  }

  lemma SpellingFields()
    ensures
      var base, ext := [0x52, 0x65, 0x61, 0x64, 0x4D, 0x65], [0x31, 0x73, 0x74];
      && IsPart(base, 8) && Field(base, 8) == [0x52, 0x45, 0x41, 0x44, 0x4D, 0x45, 0x20, 0x20]
      && IsPart(ext, 3) && Field(ext, 3) == [0x31, 0x53, 0x54]
  {
  }

  /** Neither "a.b.c" nor ".txt" makes one. */
  lemma NoSpelling()
    ensures !Is83([0x61, 0x2E, 0x62, 0x2E, 0x63]) && !Is83([0x2E, 0x74, 0x78, 0x74])
  {
    hide IsLegal, FirstDot;
    FirstDotIs([0x61, 0x2E, 0x62, 0x2E, 0x63], 1);
    assert Extension([0x61, 0x2E, 0x62, 0x2E, 0x63])[1] == DOT;
    FirstDotIs([0x2E, 0x74, 0x78, 0x74], 0);
  }

  /** The first `j` characters were put into a name, the next goes to `i`, and `n` is the last
      place for it. */
  predicate Made(str: seq<byte>, j: nat, n: nat, i: nat, name: seq<byte>) {
    var d := FirstDot(str);
    && j <= |str| && |name| == 11 && i <= n + 1
    && (if j <= d then n == 7 && i == j <= 8 && IsPart(str[..j], 8) && name == Field(str[..j], 8) + Field([], 3)
        else n == 10 && i == 8 + (j - d - 1) && d <= 8 && IsPart(Base(str), 8)
             && IsPart(str[d + 1..j], 3) && name == Field(Base(str), 8) + Field(str[d + 1..j], 3))
  }

  lemma MadeCharacter(str: seq<byte>, j: nat, n: nat, i: nat, name: seq<byte>)
    requires Made(str, j, n, i, name) && j < |str| && str[j] != DOT
    ensures !IsLegal(str[j]) || i > n ==> !Is83(str)
    ensures IsLegal(str[j]) && i <= n ==> i < 11 && Made(str, j + 1, n, i + 1, name[i := Upper(str[j])])
  {
    var d := FirstDot(str);
    if !IsLegal(str[j]) || i > n {
      Refuse(str, j, d);
    } else if j < d {
      FieldGrows(str[..j], str[j], 8);
      assert str[..j + 1] == str[..j] + [str[j]];
    } else {
      FieldGrows(str[d + 1..j], str[j], 3);
      assert str[d + 1..j + 1] == str[d + 1..j] + [str[j]];
    }
  }

  lemma MadeDot(str: seq<byte>, j: nat, n: nat, i: nat, name: seq<byte>)
    requires Made(str, j, n, i, name) && j < |str| && str[j] == DOT
    ensures n == 10 ==> !Is83(str)
    ensures n != 10 ==> Made(str, j + 1, 10, 8, name)
  {
    var d := FirstDot(str);
    if n == 10 {
      assert Extension(str)[j - d - 1] == DOT;
    } else {
      assert str[d + 1..j + 1] == [];
    }
  }

  lemma MadeAll(str: seq<byte>, n: nat, i: nat, name: seq<byte>)
    requires Made(str, |str|, n, i, name)
    ensures name[0] != BLANK <==> Is83(str)
    ensures Is83(str) ==> name == EntryName(str)
  {
    var d := FirstDot(str);
    assert d < |str| ==> str[d + 1..|str|] == Extension(str);
    assert d == |str| ==> str[..|str|] == str == Base(str);
    assert Base(str) != [] && IsPart(Base(str), 8) ==> IsLegal(Base(str)[0]);
  }

  /** Make an entry name of a string. It succeeds exactly on 8.3 names. */
  method Make83Name(str: seq<byte>, name: array<byte>) returns (ok: bool)
    requires name.Length == 11
    modifies name
    ensures ok <==> Is83(str)
    ensures ok ==> name[..] == EntryName(str)
  {
    for i := 0 to 11
      invariant forall k :: 0 <= k < i ==> name[k] == BLANK
    {
      name[i] := BLANK;
    }
    assert name[..] == Field([], 8) + Field([], 3);
    hide Is83, EntryName;
    var n, i := 7, 0;
    var j := 0;
    assert str[..0] == [];
    while j < |str|
      invariant 0 <= j <= |str| && 0 <= i && Made(str, j, n, i, name[..])
    {
      hide Made, IsLegal;
      var c := str[j];
      if c == DOT {
        MadeDot(str, j, n, i, name[..]);
        if n == 10 {
          return false;
        }
        n, i := 10, 8;
      } else {
        MadeCharacter(str, j, n, i, name[..]);
        if !IsLegal(c) || i > n {
          return false;
        }
        ghost var next := name[..][i := Upper(c)];
        name[i] := Upper(c);
        assert name[..] == next;
        i := i + 1;
      }
      j := j + 1;
    }
    MadeAll(str, n, i, name[..]);
    ok := name[0] != BLANK;
  }

  lemma FieldGrows(s: seq<byte>, c: byte, n: nat)
    requires |s| < n
    ensures Field(s + [c], n) == Field(s, n)[|s| := Upper(c)]
  {
  }

  lemma Refuse(str: seq<byte>, j: nat, d: nat)
    requires j < |str| && d == FirstDot(str) && str[j] != DOT
    requires !IsLegal(str[j]) || (if j < d then j >= 8 else j - d - 1 >= 3)
    ensures !Is83(str)
  {
    if j < d {
      assert Base(str)[j] == str[j];
    } else {
      assert Extension(str)[j - d - 1] == str[j];
    }
  }
}
