/** A directory as bytes: its 32-byte entries, and what looking a name up, creating an entry
    and deleting one mean (Modules/SD/SdFile.cpp:421-507, 850-868; Modules/SD/FatStructs.h:325-390;
    fatgen103, "FAT Directory Structure"). */
module Entries {
  import opened Bytes
  import opened FileModel
  import opened Slots

  predicate IsDirectory(b: seq<byte>) {
    |b| % ENTRY_SIZE == 0
  }

  function Count(b: seq<byte>): nat {
    |b| / ENTRY_SIZE
  }

  function Mark(b: seq<byte>, k: nat): byte
    requires k < Count(b)
  {
    b[ENTRY_SIZE * k]
  }

  /** Byte `i` of entry `k`. */
  function EntryByte(b: seq<byte>, k: nat, i: nat): byte
    requires k < Count(b) && i < ENTRY_SIZE
  {
    b[ENTRY_SIZE * k + i]
  }

  function NameAt(b: seq<byte>, k: nat): (name: seq<byte>)
    requires k < Count(b)
    ensures |name| == NAME_SIZE
  {
    b[ENTRY_SIZE * k..ENTRY_SIZE * k + NAME_SIZE]
  }

  predicate IsFree(b: seq<byte>, k: nat)
    requires k < Count(b)
  {
    Mark(b, k) == NAME_FREE
  }

  /** An entry in use. */
  predicate IsLive(b: seq<byte>, k: nat)
    requires k < Count(b)
  {
    Mark(b, k) != NAME_FREE && Mark(b, k) != NAME_DELETED
  }

  const NAME_DOT: byte := 0x2E

  /** A name that a file can be given: not one of the entries "." and ".." that every
      subdirectory starts with. */
  predicate IsName(name: seq<byte>) {
    |name| == NAME_SIZE && name[0] != NAME_FREE && name[0] != NAME_DELETED && name[0] != NAME_DOT
  }

  // attribute bits
  predicate IsReadOnly(attr: byte) {
    attr % 2 == 1
  }

  predicate IsVolumeLabel(attr: byte) {
    attr / 8 % 2 == 1
  }

  predicate IsDirectoryEntry(attr: byte) {
    attr / 16 % 2 == 1
  }

  /** The attribute byte bit by bit, the lowest first. */
  datatype AttributeBits = AttributeBits(readOnly: bool, hidden: bool, system: bool, volumeLabel: bool,
                                         directory: bool, archive: bool, bit6: bool, bit7: bool)
  {
    function Byte(): byte {
      Bit(readOnly) + 2 * Bit(hidden) + 4 * Bit(system) + 8 * Bit(volumeLabel) + 16 * Bit(directory) + 32 * Bit(archive)
      + 64 * Bit(bit6) + 128 * Bit(bit7)
    }
  }

  function Bit(b: bool): (n: nat)
    ensures n <= 1
  {
    if b then 1 else 0
  }

  /** Which bits are looked at. */
  lemma AttributesAreBits(a: AttributeBits)
    ensures IsReadOnly(a.Byte()) <==> a.readOnly
    ensures IsVolumeLabel(a.Byte()) <==> a.volumeLabel
    ensures IsDirectoryEntry(a.Byte()) <==> a.directory
  {
    var high := Bit(a.archive) + 2 * Bit(a.bit6) + 4 * Bit(a.bit7);
    assert a.Byte() / 16 == Bit(a.directory) + 2 * high;
    assert a.Byte() / 8 == Bit(a.volumeLabel) + 2 * Bit(a.directory) + 4 * high;
  }

  /** And every byte is made of bits. */
  lemma ByteHasBits(attr: byte) returns (a: AttributeBits)
    ensures a.Byte() == attr
  {
    var b0, b1, b2, b3 := FourBits(attr % 16);
    var b4, b5, b6, b7 := FourBits(attr / 16);
    a := AttributeBits(b0, b1, b2, b3, b4, b5, b6, b7);
  }

  lemma FourBits(n: nat) returns (b0: bool, b1: bool, b2: bool, b3: bool)
    requires n < 16
    ensures n == Bit(b0) + 2 * Bit(b1) + 4 * Bit(b2) + 8 * Bit(b3)
  {
    b3, b2, b1, b0 := n >= 8, n % 8 >= 4, n % 4 >= 2, n % 2 == 1;
  }

  /** A live entry of a file or a subdirectory in this directory: not a label, not part of a
      long name (attribute 0x0F), and not "." or "..", which are elsewhere. */
  predicate IsMember(b: seq<byte>, k: nat)
    requires k < Count(b)
  {
    IsLive(b, k) && Mark(b, k) != NAME_DOT && !IsVolumeLabel(EntryByte(b, k, OFF_ATTR))
  }

  /** Nothing follows the first free entry. */
  predicate FreeTail(b: seq<byte>) {
    forall j, k :: 0 <= j < k < Count(b) && IsFree(b, j) ==> IsFree(b, k)
  }

  /** Two live entries with the same name. */
  predicate Twins(b: seq<byte>, j: nat, k: nat)
    requires j < Count(b) && k < Count(b)
  {
    IsLive(b, j) && IsLive(b, k) && NameAt(b, j) == NameAt(b, k)
  }

  predicate NamesDiffer(b: seq<byte>) {
    forall j, k :: 0 <= j < k < Count(b) ==> !Twins(b, j, k)
  }

  /** Whatever live entries have the same name now had it before. */
  predicate NoNewTwins(b: seq<byte>, b': seq<byte>) {
    forall j, k :: 0 <= j < k < Count(b') && Twins(b', j, k) ==> k < Count(b) && Twins(b, j, k)
  }

  /** Entry `k` is the only live one with the name. */
  predicate Only(b: seq<byte>, name: seq<byte>, k: nat)
    requires k < Count(b)
  {
    && IsLive(b, k) && NameAt(b, k) == name
    && forall j :: 0 <= j < Count(b) && j != k && IsLive(b, j) ==> NameAt(b, j) != name
  }

  predicate HasOnce(b: seq<byte>, name: seq<byte>) {
    exists k :: 0 <= k < Count(b) && Only(b, name, k)
  }

  /** In particular a directory in which no name is there twice stays so. */
  lemma NoTwinsStay(b: seq<byte>, b': seq<byte>)
    requires NamesDiffer(b) && NoNewTwins(b, b')
    ensures NamesDiffer(b')
  {
    hide Twins;
  }

  lemma NoNewTwinsTrans(b0: seq<byte>, b1: seq<byte>, b2: seq<byte>)
    requires NoNewTwins(b0, b1) && NoNewTwins(b1, b2)
    ensures NoNewTwins(b0, b2)
  {
    hide Twins;
  }

  // ---- Looking a name up ---------------------------------------------------------------

  predicate Stops(b: seq<byte>, name: seq<byte>, k: nat)
    requires k < Count(b)
  {
    IsFree(b, k) || (IsLive(b, k) && NameAt(b, k) == name)
  }

  /** Where a search from entry `k` on ends: at a free entry, at one with the name, or at the
      end of the directory. */
  function StopAt(b: seq<byte>, name: seq<byte>, k: nat): (i: nat)
    requires k <= Count(b)
    ensures k <= i <= Count(b) && (i < Count(b) ==> Stops(b, name, i))
    ensures forall j :: k <= j < i ==> !Stops(b, name, j)
    decreases Count(b) - k
  {
    if k == Count(b) || Stops(b, name, k) then k else StopAt(b, name, k + 1)
  }

  /** The first entry from `k` on that can be reused, or the end of the directory. */
  function VacantAt(b: seq<byte>, k: nat): (i: nat)
    requires k <= Count(b)
    ensures k <= i <= Count(b) && (i < Count(b) ==> !IsLive(b, i))
    ensures forall j :: k <= j < i ==> IsLive(b, j)
    decreases Count(b) - k
  {
    if k == Count(b) || !IsLive(b, k) then k else VacantAt(b, k + 1)
  }

  /** The name is in the directory. */
  predicate Has(b: seq<byte>, name: seq<byte>) {
    exists k :: 0 <= k < Count(b) && IsLive(b, k) && NameAt(b, k) == name
  }

  /** Entry `k` is the first live one with that name. */
  predicate IsFirst(b: seq<byte>, name: seq<byte>, k: nat) {
    && k < Count(b) && IsLive(b, k) && NameAt(b, k) == name
    && forall j :: 0 <= j < k ==> !(IsLive(b, j) && NameAt(b, j) == name)
  }

  /** Stopping at a free entry misses nothing: the search ends at a live entry exactly if
      the name is there, and then at its first entry. */
  lemma SearchIsComplete(b: seq<byte>, name: seq<byte>)
    requires FreeTail(b)
    ensures
      var i := StopAt(b, name, 0);
      (i < Count(b) && IsLive(b, i)) <==> Has(b, name)
  {
    var i := StopAt(b, name, 0);
    forall k | 0 <= k < Count(b) && IsLive(b, k) && NameAt(b, k) == name
      ensures i <= k && IsLive(b, i)
    {
      assert Stops(b, name, k);
      if i < k {
        NotBehindFree(b, i, k);
      }
    }
  }

  lemma NotBehindFree(b: seq<byte>, i: nat, k: nat)
    requires FreeTail(b) && i < k < Count(b) && IsLive(b, k)
    ensures !IsFree(b, i)
  {
    assert !IsFree(b, k);
  }

  lemma VacantIs(b: seq<byte>, v: nat)
    requires v <= Count(b) && (v < Count(b) ==> !IsLive(b, v)) && forall j :: 0 <= j < v ==> IsLive(b, j)
    ensures VacantAt(b, 0) == v
  {
    var i := VacantAt(b, 0);
    assert i < v || i >= v;
  }

  /** If the name is nowhere, the slot to be used is the first one that is not live, and the
      search has come at least that far. */
  lemma VacantIsSeen(b: seq<byte>, name: seq<byte>)
    ensures
      var i := StopAt(b, name, 0);
      !(i < Count(b) && IsLive(b, i)) ==> VacantAt(b, 0) <= i
  {
    var i := StopAt(b, name, 0);
    assert i < VacantAt(b, 0) ==> IsLive(b, i);
  }

  // ---- Creating and deleting -----------------------------------------------------------

  /** A directory with entry `k` replaced. */
  function WithEntry(b: seq<byte>, k: nat, e: seq<byte>): (b': seq<byte>)
    requires k < Count(b) && |e| == ENTRY_SIZE
    ensures |b'| == |b|
  {
    Patch(b, ENTRY_SIZE * k, e)
  }

  lemma WithEntryReads(b: seq<byte>, k: nat, e: seq<byte>, j: nat)
    requires k < Count(b) && |e| == ENTRY_SIZE && j < Count(b)
    ensures Mark(WithEntry(b, k, e), j) == if j == k then e[0] else Mark(b, j)
    ensures NameAt(WithEntry(b, k, e), j) == if j == k then e[..NAME_SIZE] else NameAt(b, j)
    ensures EntryByte(WithEntry(b, k, e), j, OFF_ATTR) == if j == k then e[OFF_ATTR] else EntryByte(b, j, OFF_ATTR)
  {
    var b' := WithEntry(b, k, e);
    forall i | 0 <= i <= OFF_ATTR
      ensures b'[ENTRY_SIZE * j + i] == if j == k then e[i] else b[ENTRY_SIZE * j + i]
    {
      if j < k {
        assert ENTRY_SIZE * j + i < ENTRY_SIZE * k;
      } else if j > k {
        assert ENTRY_SIZE * j + i >= ENTRY_SIZE * k + ENTRY_SIZE;
      }
    }
  }

  /** Creating an entry with a name that is not there, in the first slot that is not live:
      the name is there once, no other name gets a twin, and nothing gets behind the first
      free entry. */
  lemma CreateKeeps(b: seq<byte>, e: seq<byte>)
    requires FreeTail(b)
    requires VacantAt(b, 0) < Count(b) && |e| == ENTRY_SIZE && IsName(e[..NAME_SIZE]) && !Has(b, e[..NAME_SIZE])
    ensures FreeTail(WithEntry(b, VacantAt(b, 0), e)) && NoNewTwins(b, WithEntry(b, VacantAt(b, 0), e))
    ensures HasOnce(WithEntry(b, VacantAt(b, 0), e), e[..NAME_SIZE])
  {
    hide WithEntry;
    var v := VacantAt(b, 0);
    var b' := WithEntry(b, v, e);
    forall j | 0 <= j < Count(b)
      ensures Mark(b', j) == if j == v then e[0] else Mark(b, j)
      ensures NameAt(b', j) == if j == v then e[..NAME_SIZE] else NameAt(b, j)
    {
      WithEntryReads(b, v, e, j);
    }
    assert IsLive(b', v);
    FreeTailFilled(b, b', v);
    forall j | 0 <= j < Count(b') && j != v && IsLive(b', j)
      ensures IsLive(b, j) && NameAt(b', j) != e[..NAME_SIZE]
    {
    }
    assert Only(b', e[..NAME_SIZE], v);
    forall j, k | 0 <= j < k < Count(b') && Twins(b', j, k)
      ensures Twins(b, j, k)
    {
      assert j != v && k != v;
    }
  }

  lemma FreeTailFilled(b: seq<byte>, b': seq<byte>, v: nat)
    requires FreeTail(b) && v < Count(b) == Count(b') && IsLive(b', v)
    requires forall j :: 0 <= j < v ==> IsLive(b, j)
    requires forall j :: 0 <= j < Count(b) && j != v ==> Mark(b', j) == Mark(b, j)
    ensures FreeTail(b')
  {
    hide Mark;
    forall j, k | 0 <= j < k < Count(b') && IsFree(b', j)
      ensures IsFree(b', k)
    {
      assert !IsLive(b', j);
      assert j != v ==> IsLive(b, j) == IsLive(b', j);
      assert IsFree(b, j) && IsFree(b, k);
    }
  }

  /** Marking an entry deleted keeps all this, and takes the name out if it was there once. */
  lemma DeletedOne(b: seq<byte>, b': seq<byte>, k: nat)
    requires FreeTail(b) && k < Count(b) == Count(b') && IsLive(b, k) && Mark(b', k) == NAME_DELETED
    requires forall j :: 0 <= j < Count(b) && j != k ==> Mark(b', j) == Mark(b, j) && NameAt(b', j) == NameAt(b, j)
    ensures FreeTail(b') && NoNewTwins(b, b')
    ensures Has(b', NameAt(b, k)) <==> !Only(b, NameAt(b, k), k)
  {
    hide NameAt, Mark;
    forall i, j | 0 <= i < j < Count(b') && IsFree(b', i)
      ensures IsFree(b', j)
    {
      assert IsFree(b, i) ==> IsFree(b, j);
    }
    forall i, j | 0 <= i < j < Count(b') && Twins(b', i, j)
      ensures Twins(b, i, j)
    {
      assert IsLive(b, i) && IsLive(b, j);
    }
    forall j | 0 <= j < Count(b)
      ensures IsLive(b', j) <==> IsLive(b, j) && j != k
    {
    }
    if !Only(b, NameAt(b, k), k) {
      var j :| 0 <= j < Count(b) && j != k && IsLive(b, j) && NameAt(b, j) == NameAt(b, k);
      assert IsLive(b', j) && NameAt(b', j) == NameAt(b, k);
    }
  }

  /** A directory that is full goes on with a cluster of anything: nothing is behind a free entry
      exactly if that is so in the new part, and no name gets a twin exactly if the new part has
      none and repeats no name. */
  lemma ExtendedOrder(b: seq<byte>, more: seq<byte>)
    requires IsDirectory(b) && VacantAt(b, 0) == Count(b)
    ensures FreeTail(b + more) <==> FreeTail(more)
    ensures NoNewTwins(b, b + more) <==>
            NamesDiffer(more) && forall k :: 0 <= k < Count(more) && IsLive(more, k) ==> !Has(b, NameAt(more, k))
  {
    hide VacantAt, Has, NamesDiffer;
    var c, n := b + more, Count(b);
    Appended(b, more);
    if FreeTail(c) {
      forall j, k | 0 <= j < k < Count(more) && IsFree(more, j)
        ensures IsFree(more, k)
      {
        assert IsFree(c, n + j) && IsFree(c, n + k);
      }
    }
    if FreeTail(more) {
      forall j, k | 0 <= j < k < Count(c) && IsFree(c, j)
        ensures IsFree(c, k)
      {
        assert j < n ==> IsLive(b, j);
        assert IsFree(more, j - n) && IsFree(more, k - n);
      }
    }
    ExtendedTwins(b, more);
  }

  lemma Appended(b: seq<byte>, more: seq<byte>)
    requires IsDirectory(b)
    ensures Count(b + more) == Count(b) + Count(more)
    ensures forall k :: 0 <= k < Count(b) ==> Mark(b + more, k) == Mark(b, k) && NameAt(b + more, k) == NameAt(b, k)
    ensures forall k :: 0 <= k < Count(more) ==>
              Mark(b + more, Count(b) + k) == Mark(more, k) && NameAt(b + more, Count(b) + k) == NameAt(more, k)
  {
    assert |b| == ENTRY_SIZE * Count(b);
    forall k | 0 <= k < Count(more)
      ensures ENTRY_SIZE * (Count(b) + k) == |b| + ENTRY_SIZE * k
    {
    }
  }

  lemma ExtendedTwins(b: seq<byte>, more: seq<byte>)
    requires IsDirectory(b)
    ensures NoNewTwins(b, b + more) <==>
            NamesDiffer(more) && forall k :: 0 <= k < Count(more) && IsLive(more, k) ==> !Has(b, NameAt(more, k))
  {
    hide NameAt, Mark;
    var c, n := b + more, Count(b);
    Appended(b, more);
    forall k | 0 <= k < Count(more)
      ensures IsLive(c, n + k) == IsLive(more, k)
    {
    }
    if NoNewTwins(b, c) {
      forall j, k | 0 <= j < k < Count(more)
        ensures !Twins(more, j, k)
      {
        assert !Twins(c, n + j, n + k);
      }
      forall k | 0 <= k < Count(more) && IsLive(more, k)
        ensures !Has(b, NameAt(more, k))
      {
        forall j | 0 <= j < n && IsLive(b, j)
          ensures NameAt(b, j) != NameAt(more, k)
        {
          assert !Twins(c, j, n + k);
        }
      }
    }
    if NamesDiffer(more) && forall k :: 0 <= k < Count(more) && IsLive(more, k) ==> !Has(b, NameAt(more, k)) {
      forall j, k | 0 <= j < k < Count(c) && n <= k
        ensures !Twins(c, j, k)
      {
        if n <= j {
          assert !Twins(more, j - n, k - n);
        } else if IsLive(more, k - n) {
          assert !Has(b, NameAt(more, k - n));
          assert IsLive(b, j) ==> NameAt(b, j) != NameAt(more, k - n);
        }
      }
      forall j, k | 0 <= j < k < n
        ensures Twins(c, j, k) == Twins(b, j, k)
      {
      }
    }
  }

  /** So it goes on in order with a cluster of zeros. */
  lemma ExtendKeeps(b: seq<byte>, zeros: seq<byte>)
    requires IsDirectory(b) && IsDirectory(zeros) && |zeros| > 0
    requires VacantAt(b, 0) == Count(b) && forall i :: 0 <= i < |zeros| ==> zeros[i] == 0
    ensures FreeTail(b + zeros) && NoNewTwins(b, b + zeros)
    ensures VacantAt(b + zeros, 0) == Count(b) < Count(b + zeros)
    ensures forall name :: Has(b + zeros, name) <==> Has(b, name)
  {
    hide VacantAt, NoNewTwins, FreeTail;
    forall k | 0 <= k < Count(zeros)
      ensures IsFree(zeros, k)
    {
    }
    assert FreeTail(zeros) && NamesDiffer(zeros) by {
      AllAreFree(zeros);
    }
    ExtendedOrder(b, zeros);
    Appended(b, zeros);
    ExtendedFacts(b, b + zeros);
  }

  lemma AllAreFree(b: seq<byte>)
    requires forall k :: 0 <= k < Count(b) ==> IsFree(b, k)
    ensures FreeTail(b) && NamesDiffer(b)
  {
    forall j, k | 0 <= j < k < Count(b)
      ensures !Twins(b, j, k)
    {
      assert IsFree(b, j);
    }
  }

  lemma ExtendedFacts(b: seq<byte>, c: seq<byte>)
    requires Count(b) < Count(c) && VacantAt(b, 0) == Count(b)
    requires forall k :: 0 <= k < Count(b) ==> Mark(c, k) == Mark(b, k) && NameAt(c, k) == NameAt(b, k)
    requires forall k :: Count(b) <= k < Count(c) ==> IsFree(c, k)
    ensures VacantAt(c, 0) == Count(b)
    ensures forall name :: Has(c, name) <==> Has(b, name)
  {
    hide NameAt, Mark, VacantAt;
    forall k | 0 <= k < Count(b)
      ensures IsLive(c, k)
    {
      assert IsLive(b, k);
    }
    assert IsFree(c, Count(b));
    VacantIs(c, Count(b));
    forall name
      ensures Has(c, name) <==> Has(b, name)
    {
      if k :| 0 <= k < Count(c) && IsLive(c, k) && NameAt(c, k) == name {
        assert k >= Count(b) ==> IsFree(c, k);
        assert IsLive(b, k) && NameAt(b, k) == name;
      }
      if k :| 0 <= k < Count(b) && IsLive(b, k) && NameAt(b, k) == name {
        assert IsLive(c, k) && NameAt(c, k) == name;
      }
    }
  }

  /** The same entries under the same names with the same attributes, whatever else is in them. */
  predicate SameNames(b: seq<byte>, b': seq<byte>) {
    |b'| == |b| && forall k :: 0 <= k < Count(b) ==> SameNameAt(b, b', k)
  }

  predicate SameNameAt(b: seq<byte>, b': seq<byte>, k: nat)
    requires k < Count(b) && k < Count(b')
  {
    && Mark(b', k) == Mark(b, k) && NameAt(b', k) == NameAt(b, k)
    && EntryByte(b', k, OFF_ATTR) == EntryByte(b, k, OFF_ATTR)
  }

  lemma SameName(b: seq<byte>, b': seq<byte>, k: nat)
    requires |b'| == |b| && k < Count(b)
    requires forall i :: 0 <= i <= OFF_ATTR ==> EntryByte(b', k, i) == EntryByte(b, k, i)
    ensures SameNameAt(b, b', k)
  {
    assert EntryByte(b', k, 0) == EntryByte(b, k, 0);
    assert forall i :: 0 <= i < NAME_SIZE ==> NameAt(b', k)[i] == EntryByte(b', k, i);
  }

  lemma SameNamesKeep(b: seq<byte>, b': seq<byte>, name: seq<byte>)
    requires SameNames(b, b') && FreeTail(b)
    ensures FreeTail(b') && NoNewTwins(b, b')
    ensures Has(b, name) ==> Has(b', name)
    ensures HasOnce(b, name) ==> HasOnce(b', name)
  {
    hide NameAt, Mark, EntryByte;
    forall k | 0 <= k < Count(b)
      ensures IsFree(b', k) == IsFree(b, k) && IsLive(b', k) == IsLive(b, k) && NameAt(b', k) == NameAt(b, k)
    {
      assert SameNameAt(b, b', k);
    }
    if k :| 0 <= k < Count(b) && IsLive(b, k) && NameAt(b, k) == name {
      assert IsLive(b', k) && NameAt(b', k) == name;
    }
    if k :| 0 <= k < Count(b) && Only(b, name, k) {
      assert Only(b', name, k);
    }
  }
}
