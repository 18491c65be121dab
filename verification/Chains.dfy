/** The file allocation table as a linked-list allocator, seen as a plain sequence of
    entries: chains, what makes a table well formed, and what freeing and allocating do
    to it (Modules/SD/SdVolume.cpp:31-103, 211-228; fatgen103, "FAT Data Structure").

    Entry 0 means "free", an entry of at least `eoc` ends a chain, and any other entry is
    the number of the next cluster. Clusters are numbered from 2. */
module Chains {

  /** `ch` follows the links of the table from its first cluster to an end-of-chain mark. */
  ghost predicate IsChain(fat: seq<nat>, eoc: nat, ch: seq<nat>) {
    && |ch| > 0
    && (forall i :: 0 <= i < |ch| ==> 2 <= ch[i] < |fat|)
    && (forall i {:trigger fat[ch[i]]} :: 0 <= i < |ch| - 1 ==> fat[ch[i]] == ch[i + 1])
    && fat[ch[|ch| - 1]] >= eoc
  }

  /** `ch` follows the links from its first number as far as they lead: to an end-of-chain mark,
      or to a number that is not a cluster of the table. */
  ghost predicate Leads(fat: seq<nat>, eoc: nat, ch: seq<nat>)
    ensures Leads(fat, eoc, ch) ==> |ch| > 0
  {
    && |ch| > 0
    && (forall i {:trigger ch[i]} :: 0 <= i < |ch| - 1 ==> ch[i] < |fat| && fat[ch[i]] == ch[i + 1] < eoc)
    && (ch[|ch| - 1] < |fat| ==> fat[ch[|ch| - 1]] >= eoc)
  }

  lemma ChainLeads(fat: seq<nat>, eoc: nat, ch: seq<nat>)
    requires |fat| <= eoc && IsChain(fat, eoc, ch)
    ensures Leads(fat, eoc, ch) && ch[|ch| - 1] < |fat|
  {
    forall i | 0 <= i < |ch| - 1
      ensures fat[ch[i]] == ch[i + 1]
    {
    }
  }

  lemma LeadsOn(fat: seq<nat>, eoc: nat, ch: seq<nat>, i: nat)
    requires Leads(fat, eoc, ch) && i < |ch|
    ensures ch[i] >= |fat| ==> i == |ch| - 1
    ensures ch[i] < |fat| ==> (fat[ch[i]] >= eoc <==> i == |ch| - 1)
    ensures ch[i] < |fat| && i < |ch| - 1 ==> fat[ch[i]] == ch[i + 1]
  {
  }

  predicate Unique(ch: seq<nat>) {
    forall i, j :: 0 <= i < j < |ch| ==> ch[i] != ch[j]
  }

  predicate Disjoint(a: seq<nat>, b: seq<nat>) {
    forall i, j :: 0 <= i < |a| && 0 <= j < |b| ==> a[i] != b[j]
  }

  lemma ChainTail(fat: seq<nat>, eoc: nat, ch: seq<nat>, i: nat)
    requires IsChain(fat, eoc, ch) && i < |ch|
    ensures IsChain(fat, eoc, ch[i..])
  {
  }

  lemma ChainStep(fat: seq<nat>, eoc: nat, ch: seq<nat>)
    requires |fat| <= eoc && IsChain(fat, eoc, ch)
    ensures |ch| > 1 <==> fat[ch[0]] < eoc
    ensures |ch| > 1 ==> ch[1] == fat[ch[0]]
  {
  }

  /** A cluster starts at most one chain. */
  lemma {:induction false} ChainUnique(fat: seq<nat>, eoc: nat, a: seq<nat>, b: seq<nat>)
    requires |fat| <= eoc && IsChain(fat, eoc, a) && IsChain(fat, eoc, b) && a[0] == b[0]
    ensures a == b
    decreases |a|
  {
    ChainStep(fat, eoc, a);
    ChainStep(fat, eoc, b);
    if |a| > 1 {
      ChainTail(fat, eoc, a, 1);
      ChainTail(fat, eoc, b, 1);
      ChainUnique(fat, eoc, a[1..], b[1..]);
    }
  }

  /** A chain that reaches its end never visits a cluster twice. */
  lemma ChainDistinct(fat: seq<nat>, eoc: nat, ch: seq<nat>)
    requires |fat| <= eoc && IsChain(fat, eoc, ch)
    ensures Unique(ch)
  {
    forall i, j | 0 <= i < j < |ch|
      ensures ch[i] != ch[j]
    {
      if ch[i] == ch[j] {
        ChainTail(fat, eoc, ch, i);
        ChainTail(fat, eoc, ch, j);
        ChainUnique(fat, eoc, ch[i..], ch[j..]);
      }
    }
  }

  /** A chain survives any change to entries outside it. */
  lemma ChainKept(fat: seq<nat>, fat': seq<nat>, eoc: nat, ch: seq<nat>)
    requires IsChain(fat, eoc, ch) && |fat'| == |fat|
    requires forall i :: 0 <= i < |ch| ==> fat'[ch[i]] == fat[ch[i]]
    ensures IsChain(fat', eoc, ch)
  {
  }

  /** The clusters of a chain are in use. */
  lemma ChainAvoidsFree(fat: seq<nat>, eoc: nat, ch: seq<nat>)
    requires |fat| <= eoc && IsChain(fat, eoc, ch)
    ensures forall i :: 0 <= i < |ch| ==> fat[ch[i]] != 0
  {
    forall i | 0 <= i < |ch|
      ensures fat[ch[i]] != 0
    {
      assert i < |ch| - 1 ==> fat[ch[i]] == ch[i + 1];
    }
  }

  // ---- Well-formed tables ------------------------------------------------------

  ghost predicate Starts(fat: seq<nat>, eoc: nat, c: nat) {
    exists ch :: IsChain(fat, eoc, ch) && ch[0] == c
  }

  /** Nothing links to cluster `c`. */
  predicate IsHead(fat: seq<nat>, c: nat) {
    forall d :: 2 <= d < |fat| ==> fat[d] != c
  }

  /** Every entry in use lies on a chain that ends. */
  ghost predicate Covered(fat: seq<nat>, eoc: nat) {
    forall c {:trigger Starts(fat, eoc, c)} :: 2 <= c < |fat| && fat[c] != 0 ==> Starts(fat, eoc, c)
  }

  predicate Apart(fat: seq<nat>, eoc: nat, c: nat, d: nat)
    requires c < |fat| && d < |fat|
  {
    0 < fat[c] < eoc ==> fat[c] != fat[d]
  }

  /** No two chains run into each other. */
  predicate NoSharing(fat: seq<nat>, eoc: nat) {
    forall c, d :: 2 <= c < d < |fat| ==> Apart(fat, eoc, c, d)
  }

  ghost predicate WellFormed(fat: seq<nat>, eoc: nat) {
    |fat| <= eoc && Covered(fat, eoc) && NoSharing(fat, eoc)
  }

  /** Nothing links to a free cluster. */
  lemma FreeIsHead(fat: seq<nat>, eoc: nat, c: nat)
    requires WellFormed(fat, eoc) && 2 <= c < |fat| && fat[c] == 0
    ensures IsHead(fat, c)
  {
    forall d | 2 <= d < |fat|
      ensures fat[d] != c
    {
      if fat[d] == c {
        assert Starts(fat, eoc, d);
        var ch :| IsChain(fat, eoc, ch) && ch[0] == d;
        assert |ch| > 1 && ch[1] == c;
        ChainAvoidsFree(fat, eoc, ch);
      }
    }
  }

  /** In a well-formed table chains that nothing links to are disjoint. */
  lemma HeadsDisjoint(fat: seq<nat>, eoc: nat, a: seq<nat>, b: seq<nat>)
    requires WellFormed(fat, eoc) && IsChain(fat, eoc, a) && IsChain(fat, eoc, b)
    requires IsHead(fat, a[0]) && IsHead(fat, b[0]) && a[0] != b[0]
    ensures Disjoint(a, b)
  {
    forall i, j | 0 <= i < |a| && 0 <= j < |b|
      ensures a[i] != b[j]
    {
      HeadsApart(fat, eoc, a, i, b, j);
    }
  }

  lemma {:induction false} HeadsApart(fat: seq<nat>, eoc: nat, a: seq<nat>, i: nat, b: seq<nat>, j: nat)
    requires WellFormed(fat, eoc) && IsChain(fat, eoc, a) && IsChain(fat, eoc, b)
    requires IsHead(fat, a[0]) && IsHead(fat, b[0]) && a[0] != b[0] && i < |a| && j < |b|
    ensures a[i] != b[j]
  {
    if i > 0 && j > 0 {
      HeadsApart(fat, eoc, a, i - 1, b, j - 1);
      assert fat[a[i - 1]] == a[i] && fat[b[j - 1]] == b[j];
      if a[i - 1] < b[j - 1] {
        assert Apart(fat, eoc, a[i - 1], b[j - 1]);
      } else {
        assert Apart(fat, eoc, b[j - 1], a[i - 1]);
      }
    } else if i > 0 {
      assert fat[a[i - 1]] == a[i];
    } else if j > 0 {
      assert fat[b[j - 1]] == b[j];
    }
  }

  /** Giving a free or last entry `c` a new value keeps the table well formed when the
      value is an end mark or the head of a chain that does not contain `c`. */
  lemma LinkKeepsWellFormed(fat: seq<nat>, eoc: nat, c: nat, v: nat, tail: seq<nat>)
    requires WellFormed(fat, eoc) && 2 <= c < |fat|
    requires fat[c] == 0 || fat[c] >= eoc
    requires (v >= eoc && tail == [])
             || (IsChain(fat, eoc, tail) && tail[0] == v && IsHead(fat, v) && c !in tail)
    ensures WellFormed(fat[c := v], eoc)
    ensures IsChain(fat[c := v], eoc, [c] + tail)
  {
    var fat' := fat[c := v];
    if tail != [] {
      ChainKept(fat, fat', eoc, tail);
    }
    assert IsChain(fat', eoc, [c] + tail);
    LinkNoSharing(fat, eoc, c, v);
    forall e | 2 <= e < |fat'| && fat'[e] != 0
      ensures Starts(fat', eoc, e)
    {
      if e == c {
        assert ([c] + tail)[0] == c;
      } else {
        LinkStarts(fat, eoc, c, v, tail, e);
      }
    }
  }

  lemma LinkNoSharing(fat: seq<nat>, eoc: nat, c: nat, v: nat)
    requires NoSharing(fat, eoc) && 2 <= c < |fat| && (v >= eoc || IsHead(fat, v))
    ensures NoSharing(fat[c := v], eoc)
  {
    var fat' := fat[c := v];
    forall x, y | 2 <= x < y < |fat|
      ensures Apart(fat', eoc, x, y)
    {
      assert Apart(fat, eoc, x, y);
    }
  }

  lemma LinkStarts(fat: seq<nat>, eoc: nat, c: nat, v: nat, tail: seq<nat>, e: nat)
    requires |fat| <= eoc && 2 <= c < |fat| && (fat[c] == 0 || fat[c] >= eoc)
    requires (v >= eoc && tail == []) || (IsChain(fat, eoc, tail) && tail[0] == v && c !in tail)
    requires Starts(fat, eoc, e)
    ensures Starts(fat[c := v], eoc, e)
  {
    var ch :| IsChain(fat, eoc, ch) && ch[0] == e;
    LinkExtends(fat, eoc, c, v, tail, ch);
    var ch' := if ch[|ch| - 1] == c then ch + tail else ch;
    assert ch'[0] == e;
  }

  /** Linking a list of clusters behind `c` lengthens the chain that ended in `c` and
      leaves every other chain as it was. */
  lemma LinkExtends(fat: seq<nat>, eoc: nat, c: nat, v: nat, tail: seq<nat>, ch: seq<nat>)
    requires |fat| <= eoc && 2 <= c < |fat| && (fat[c] == 0 || fat[c] >= eoc)
    requires (v >= eoc && tail == []) || (IsChain(fat, eoc, tail) && tail[0] == v && c !in tail)
    requires IsChain(fat, eoc, ch)
    ensures IsChain(fat[c := v], eoc, if ch[|ch| - 1] == c then ch + tail else ch)
  {
    var fat' := fat[c := v];
    forall i | 0 <= i < |ch| - 1
      ensures ch[i] != c && fat'[ch[i]] == ch[i + 1]
    {
      assert fat[ch[i]] == ch[i + 1] && 2 <= ch[i + 1] < eoc;
    }
    if tail != [] {
      forall i | 0 <= i < |tail|
        ensures fat'[tail[i]] == fat[tail[i]]
      {
        assert tail[i] in tail;
      }
    }
  }

  /** Freeing the first cluster of a chain keeps the table well formed. */
  lemma UnlinkKeepsWellFormed(fat: seq<nat>, eoc: nat, c: nat)
    requires WellFormed(fat, eoc) && 2 <= c < |fat| && IsHead(fat, c)
    ensures WellFormed(fat[c := 0], eoc)
    ensures forall ch :: IsChain(fat, eoc, ch) && ch[0] != c ==> IsChain(fat[c := 0], eoc, ch)
    ensures fat[c] < eoc ==> IsHead(fat[c := 0], fat[c]) || fat[c] == 0
  {
    var fat' := fat[c := 0];
    forall d | 2 <= d < |fat| && d != c && 0 < fat[c] < eoc
      ensures fat[d] != fat[c]
    {
      assert Apart(fat, eoc, if d < c then d else c, if d < c then c else d);
    }
    forall ch | IsChain(fat, eoc, ch) && ch[0] != c
      ensures IsChain(fat', eoc, ch)
    {
      forall i | 0 <= i < |ch|
        ensures ch[i] != c
      {
        if i > 0 {
          assert fat[ch[i - 1]] == ch[i];
        }
      }
      ChainKept(fat, fat', eoc, ch);
    }
    forall x, y | 2 <= x < y < |fat|
      ensures Apart(fat', eoc, x, y)
    {
      assert Apart(fat, eoc, x, y);
    }
    forall e | 2 <= e < |fat| && fat'[e] != 0
      ensures Starts(fat', eoc, e)
    {
      assert Starts(fat, eoc, e);
      var ch :| IsChain(fat, eoc, ch) && ch[0] == e;
      assert IsChain(fat', eoc, ch);
    }
  }

  // ---- Freeing a chain -----------------------------------------------------------

  function Free(fat: seq<nat>): (s: set<nat>) {
    set c | 2 <= c < |fat| && fat[c] == 0
  }

  function Used(fat: seq<nat>): (s: set<nat>) {
    set c | 2 <= c < |fat| && fat[c] != 0
  }

  function Elems(ch: seq<nat>): (s: set<nat>) {
    set c | c in ch
  }

  /** The table with the entries of a list of clusters cleared. */
  function ZeroAll(fat: seq<nat>, ch: seq<nat>): (r: seq<nat>)
    ensures |r| == |fat|
    ensures forall c :: 0 <= c < |fat| ==> r[c] == if c in ch then 0 else fat[c]
  {
    seq(|fat|, c requires 0 <= c < |fat| => if c in ch then 0 else fat[c])
  }

  /** What freeing does on any table whatever, well formed or not: entries are cleared one
      after the other along the links. It ends at an end mark (true), or at a number that
      is not a cluster (false). A loop in the links leads back to a cleared entry and from
      there to cluster 0, so it always ends: each step clears an entry or reaches 0. */
  function FreeWalk(fat: seq<nat>, eoc: nat, c: nat): (r: (seq<nat>, bool))
    ensures |r.0| == |fat|
    decreases Used(fat), if c < 2 then 0 else 1
  {
    if c < 2 || c >= |fat| then (fat, false)
    else
      var fat' := fat[c := 0];
      assert Used(fat') == Used(fat) - {c};
      if fat[c] >= eoc then (fat', true) else FreeWalk(fat', eoc, fat[c])
  }

  /** The table after `k` clusters were freed, whatever the links are, and the number that the
      last link led to. */
  function FreedAfter(fat: seq<nat>, c: nat, k: nat): (r: (seq<nat>, nat))
    ensures |r.0| == |fat|
  {
    if k == 0 then (fat, c)
    else
      var (now, d) := FreedAfter(fat, c, k - 1);
      if 2 <= d < |now| then (now[d := 0], now[d]) else (now, d)
  }

  lemma FreedAtFirst(fat: seq<nat>, c: nat)
    ensures FreedAfter(fat, c, 0) == (fat, c)
  {
  }

  lemma FreedAfterNext(fat: seq<nat>, first: nat, k: nat, now: seq<nat>, c: nat)
    requires FreedAfter(fat, first, k) == (now, c) && 2 <= c < |now|
    ensures FreedAfter(fat, first, k + 1) == (now[c := 0], now[c])
  {
  }

  /** On a chain, freeing succeeds and clears exactly the clusters of the chain. */
  lemma {:induction false} FreeWalkOnChain(fat: seq<nat>, eoc: nat, ch: seq<nat>)
    requires |fat| <= eoc && IsChain(fat, eoc, ch)
    ensures FreeWalk(fat, eoc, ch[0]) == (ZeroAll(fat, ch), true)
    decreases |ch|
  {
    var fat' := fat[ch[0] := 0];
    ChainDistinct(fat, eoc, ch);
    if |ch| == 1 {
      assert fat' == ZeroAll(fat, ch);
    } else {
      ChainTail(fat, eoc, ch, 1);
      ChainKept(fat, fat', eoc, ch[1..]);
      FreeWalkOnChain(fat', eoc, ch[1..]);
      assert ZeroAll(fat', ch[1..]) == ZeroAll(fat, ch);
    }
  }

  /** Freeing succeeds only on a chain: on any other start it reports failure. */
  lemma {:induction false} FreeWalkOnlyOnChain(fat: seq<nat>, eoc: nat, c: nat) returns (ch: seq<nat>)
    requires |fat| <= eoc && FreeWalk(fat, eoc, c).1
    ensures IsChain(fat, eoc, ch) && ch[0] == c
    decreases Used(fat), if c < 2 then 0 else 1
  {
    var fat' := fat[c := 0];
    assert Used(fat') == Used(fat) - {c};
    if fat[c] >= eoc {
      ch := [c];
    } else {
      var rest := FreeWalkOnlyOnChain(fat', eoc, fat[c]);
      assert c !in rest by {
        if c in rest {
          var i :| 0 <= i < |rest| && rest[i] == c;
          ChainAvoidsFree(fat', eoc, rest);
        }
      }
      ch := [c] + rest;
      forall i | 0 <= i < |ch| - 1
        ensures fat[ch[i]] == ch[i + 1]
      {
        if i > 0 {
          assert ch[i] == rest[i - 1] && rest[i - 1] in rest;
          assert fat'[rest[i - 1]] == rest[i];
        }
      }
      assert rest[|rest| - 1] in rest;
    }
  }

  /** Freeing has got as far as cluster `c`, `k` clusters along the chain that starts at
      `first`, if there is such a chain. */
  ghost predicate FreedSome(fat: seq<nat>, eoc: nat, first: nat, now: seq<nat>, k: nat, c: nat) {
    forall ch :: IsChain(fat, eoc, ch) && ch[0] == first ==>
      k < |ch| && c == ch[k] && now == ZeroAll(fat, ch[..k])
  }

  /** The outcome of freeing: `k` clusters of the chain that starts at `first` are cleared
      and nothing else, and it is done exactly when those are all. */
  ghost predicate FreedPart(fat: seq<nat>, eoc: nat, first: nat, now: seq<nat>, k: nat, done: bool) {
    forall ch :: IsChain(fat, eoc, ch) && ch[0] == first ==>
      k <= |ch| && now == ZeroAll(fat, ch[..k]) && (done <==> k == |ch|)
  }

  lemma FreedNone(fat: seq<nat>, eoc: nat, first: nat)
    ensures FreedSome(fat, eoc, first, fat, 0, first)
  {
    forall ch | IsChain(fat, eoc, ch)
      ensures ZeroAll(fat, ch[..0]) == fat
    {
    }
  }

  lemma FreedSoFar(fat: seq<nat>, eoc: nat, first: nat, now: seq<nat>, k: nat, c: nat)
    requires FreedSome(fat, eoc, first, now, k, c)
    ensures FreedPart(fat, eoc, first, now, k, false)
  {
  }

  lemma FreedOneMore(fat: seq<nat>, eoc: nat, first: nat, now: seq<nat>, k: nat, c: nat)
    requires |fat| <= eoc && |now| == |fat| && c < |fat| && FreedSome(fat, eoc, first, now, k, c)
    ensures now[c] < eoc ==> FreedSome(fat, eoc, first, now[c := 0], k + 1, now[c])
    ensures now[c] >= eoc ==> FreedPart(fat, eoc, first, now[c := 0], k + 1, true)
  {
    forall ch | IsChain(fat, eoc, ch) && ch[0] == first
      ensures k < |ch| && now[c := 0] == ZeroAll(fat, ch[..k + 1])
      ensures if k + 1 == |ch| then now[c] >= eoc else now[c] < eoc && now[c] == ch[k + 1]
    {
      ZeroOneMore(fat, eoc, ch, k);
    }
  }

  lemma ZeroOneMore(fat: seq<nat>, eoc: nat, ch: seq<nat>, k: nat)
    requires |fat| <= eoc && IsChain(fat, eoc, ch) && k < |ch|
    ensures ZeroAll(fat, ch[..k])[ch[k] := 0] == ZeroAll(fat, ch[..k + 1])
    ensures ZeroAll(fat, ch[..k])[ch[k]] == fat[ch[k]]
    ensures if k + 1 == |ch| then fat[ch[k]] >= eoc else fat[ch[k]] == ch[k + 1] < eoc
  {
    ChainDistinct(fat, eoc, ch);
    assert ch[..k + 1] == ch[..k] + [ch[k]];
  }

  lemma FreeWalkStep(fat: seq<nat>, eoc: nat, c: nat)
    requires 0 < eoc
    ensures c < 2 || c >= |fat| ==> FreeWalk(fat, eoc, c) == (fat, false)
    ensures 2 <= c < |fat| ==> Used(fat[c := 0]) == Used(fat) - {c} && (c in Used(fat) <==> fat[c] != 0)
    ensures 2 <= c < |fat| && fat[c] >= eoc ==> FreeWalk(fat, eoc, c) == (fat[c := 0], true)
    ensures 2 <= c < |fat| && fat[c] < eoc ==> FreeWalk(fat, eoc, c) == FreeWalk(fat[c := 0], eoc, fat[c])
  {
  }

  /** Clearing a duplicate-free list of used clusters adds exactly that many free ones. */
  lemma ZeroAllFrees(fat: seq<nat>, ch: seq<nat>)
    requires Unique(ch)
    requires forall i :: 0 <= i < |ch| ==> 2 <= ch[i] < |fat| && fat[ch[i]] != 0
    ensures Free(ZeroAll(fat, ch)) == Free(fat) + Elems(ch)
    ensures |Free(ZeroAll(fat, ch))| == |Free(fat)| + |ch|
  {
    var now := ZeroAll(fat, ch);
    forall c
      ensures c in Free(now) <==> c in Free(fat) + Elems(ch)
    {
    }
    assert Free(now) == Free(fat) + Elems(ch);
    assert Free(fat) !! Elems(ch);
    ElemsCount(ch);
  }

  lemma {:induction false} ElemsCount(ch: seq<nat>)
    requires Unique(ch)
    ensures |Elems(ch)| == |ch|
  {
    if |ch| > 0 {
      ElemsCount(ch[1..]);
      assert Elems(ch) == Elems(ch[1..]) + {ch[0]};
    }
  }

  /** Cutting a chain after its first `keep` clusters: the rest is cleared, and the last
      cluster kept becomes the end of the chain. */
  function Cut(fat: seq<nat>, ch: seq<nat>, keep: nat, mark: nat): (r: seq<nat>)
    requires keep <= |ch| && forall i :: 0 <= i < |ch| ==> 2 <= ch[i] < |fat|
    ensures |r| == |fat|
  {
    var zeroed := ZeroAll(fat, ch[keep..]);
    if keep == 0 || keep == |ch| then zeroed else zeroed[ch[keep - 1] := mark]
  }

  /** Cutting leaves a chain of the clusters kept and gives back exactly the others. */
  lemma CutChain(fat: seq<nat>, eoc: nat, ch: seq<nat>, keep: nat, mark: nat)
    requires 0 < |fat| <= eoc <= mark && IsChain(fat, eoc, ch) && keep <= |ch|
    ensures keep > 0 ==> IsChain(Cut(fat, ch, keep, mark), eoc, ch[..keep])
    ensures |Free(Cut(fat, ch, keep, mark))| == |Free(fat)| + |ch| - keep
    ensures forall c :: 0 <= c < |fat| && c !in ch ==> Cut(fat, ch, keep, mark)[c] == fat[c]
  {
    hide Cut;
    ChainDistinct(fat, eoc, ch);
    ChainAvoidsFree(fat, eoc, ch);
    CutCounts(fat, ch, keep, mark);
    CutElsewhere(fat, ch, keep, mark);
    if 0 < keep {
      CutKept(fat, eoc, ch, keep, mark);
    }
  }

  lemma CutCounts(fat: seq<nat>, ch: seq<nat>, keep: nat, mark: nat)
    requires keep <= |ch| && Unique(ch) && mark > 0
    requires forall i :: 0 <= i < |ch| ==> 2 <= ch[i] < |fat| && fat[ch[i]] != 0
    ensures |Free(Cut(fat, ch, keep, mark))| == |Free(fat)| + |ch| - keep
  {
    hide Free;
    ZeroAllFrees(fat, ch[keep..]);
    if 0 < keep {
      CutFree(fat, ch, keep, mark);
    }
  }

  lemma CutElsewhere(fat: seq<nat>, ch: seq<nat>, keep: nat, mark: nat)
    requires keep <= |ch| && forall i :: 0 <= i < |ch| ==> 2 <= ch[i] < |fat|
    ensures forall c :: 0 <= c < |fat| && c !in ch ==> Cut(fat, ch, keep, mark)[c] == fat[c]
  {
  }

  lemma CutFree(fat: seq<nat>, ch: seq<nat>, keep: nat, mark: nat)
    requires 0 < keep <= |ch| && Unique(ch) && mark > 0
    requires forall i :: 0 <= i < |ch| ==> 2 <= ch[i] < |fat| && fat[ch[i]] != 0
    ensures Free(Cut(fat, ch, keep, mark)) == Free(ZeroAll(fat, ch[keep..]))
  {
    var zeroed := ZeroAll(fat, ch[keep..]);
    var last := ch[keep - 1];
    assert last !in ch[keep..] && zeroed[last] != 0;
    var now := zeroed[last := mark];
    forall c
      ensures c in Free(now) <==> c in Free(zeroed)
    {
    }
  }

  lemma CutKept(fat: seq<nat>, eoc: nat, ch: seq<nat>, keep: nat, mark: nat)
    requires |fat| <= eoc <= mark && IsChain(fat, eoc, ch) && 0 < keep <= |ch| && Unique(ch)
    ensures IsChain(Cut(fat, ch, keep, mark), eoc, ch[..keep])
  {
    var cut, kept := Cut(fat, ch, keep, mark), ch[..keep];
    forall i | 0 <= i < keep
      ensures cut[kept[i]] == if i < keep - 1 || keep == |ch| then fat[ch[i]] else mark
    {
      CutAt(fat, ch, keep, mark, i);
    }
    forall i | 0 <= i < keep - 1
      ensures cut[kept[i]] == kept[i + 1]
    {
      assert fat[ch[i]] == ch[i + 1];
    }
  }

  lemma CutAt(fat: seq<nat>, ch: seq<nat>, keep: nat, mark: nat, i: nat)
    requires i < keep <= |ch| && Unique(ch) && forall j :: 0 <= j < |ch| ==> 2 <= ch[j] < |fat|
    ensures Cut(fat, ch, keep, mark)[ch[i]] == if i < keep - 1 || keep == |ch| then fat[ch[i]] else mark
  {
    assert ch[i] !in ch[keep..];
  }

  /** Cutting keeps the table well formed, if no other chain runs into what is cut. */
  lemma CutWellFormed(fat: seq<nat>, eoc: nat, ch: seq<nat>, keep: nat, mark: nat)
    requires WellFormed(fat, eoc) && |fat| <= eoc <= mark && IsChain(fat, eoc, ch) && keep <= |ch|
    requires IsHead(fat, ch[0])
    ensures WellFormed(Cut(fat, ch, keep, mark), eoc)
    ensures IsHead(Cut(fat, ch, keep, mark), ch[0])
  {
    hide WellFormed;
    if keep == 0 {
      ZeroWellFormed(fat, eoc, ch);
    } else if keep < |ch| {
      CutMiddle(fat, eoc, ch, keep, mark);
    } else {
      assert Cut(fat, ch, keep, mark) == fat;
    }
  }

  lemma CutMiddle(fat: seq<nat>, eoc: nat, ch: seq<nat>, keep: nat, mark: nat)
    requires WellFormed(fat, eoc) && |fat| <= eoc <= mark && IsChain(fat, eoc, ch) && 0 < keep < |ch|
    ensures WellFormed(Cut(fat, ch, keep, mark), eoc)
  {
    hide WellFormed, IsHead;
    var ended := fat[ch[keep - 1] := mark];
    assert fat[ch[keep - 1]] == ch[keep];
    EndWellFormed(fat, eoc, ch[keep - 1], mark);
    CutOrder(fat, eoc, ch, keep, mark);
    ZeroWellFormed(ended, eoc, ch[keep..]);
  }

  /** Ending the chain first and freeing the rest then comes to the same. */
  lemma CutOrder(fat: seq<nat>, eoc: nat, ch: seq<nat>, keep: nat, mark: nat)
    requires |fat| <= eoc <= mark && IsChain(fat, eoc, ch) && 0 < keep < |ch|
    ensures IsChain(fat[ch[keep - 1] := mark], eoc, ch[keep..])
    ensures Cut(fat, ch, keep, mark) == ZeroAll(fat[ch[keep - 1] := mark], ch[keep..])
  {
    var ended := fat[ch[keep - 1] := mark];
    ChainDistinct(fat, eoc, ch);
    ChainTail(fat, eoc, ch, keep);
    ChainKept(fat, ended, eoc, ch[keep..]);
    assert ch[keep - 1] !in ch[keep..];
  }

  /** Ending a chain early leaves the rest as a chain of its own. */
  lemma EndWellFormed(fat: seq<nat>, eoc: nat, c: nat, mark: nat)
    requires WellFormed(fat, eoc) && eoc <= mark && 2 <= c < |fat| && 0 < fat[c] < eoc
    ensures WellFormed(fat[c := mark], eoc) && IsHead(fat[c := mark], fat[c])
  {
    var fat' := fat[c := mark];
    forall x, y | 2 <= x < y < |fat|
      ensures Apart(fat', eoc, x, y)
    {
      assert Apart(fat, eoc, x, y);
    }
    forall d | 2 <= d < |fat| && d != c
      ensures fat[d] != fat[c]
    {
      assert Apart(fat, eoc, if d < c then d else c, if d < c then c else d);
    }
    forall e | 2 <= e < |fat| && fat'[e] != 0
      ensures Starts(fat', eoc, e)
    {
      assert Starts(fat, eoc, e);
      var ch :| IsChain(fat, eoc, ch) && ch[0] == e;
      EndedChain(fat, eoc, c, mark, ch);
    }
  }

  lemma EndedChain(fat: seq<nat>, eoc: nat, c: nat, mark: nat, ch: seq<nat>)
    requires |fat| <= eoc <= mark && c < |fat| && IsChain(fat, eoc, ch)
    ensures Starts(fat[c := mark], eoc, ch[0])
  {
    ChainDistinct(fat, eoc, ch);
    if i :| 0 <= i < |ch| && ch[i] == c {
      assert IsChain(fat[c := mark], eoc, ch[..i + 1]);
    } else {
      ChainKept(fat, fat[c := mark], eoc, ch);
    }
  }

  /** Freeing a whole chain that nothing links to keeps the table well formed. */
  lemma ZeroWellFormed(fat: seq<nat>, eoc: nat, ch: seq<nat>)
    requires WellFormed(fat, eoc) && IsChain(fat, eoc, ch) && IsHead(fat, ch[0])
    ensures WellFormed(ZeroAll(fat, ch), eoc)
  {
    ZeroFrontWellFormed(fat, eoc, ch, |ch|);
    assert ch[..|ch|] == ch;
  }

  /** So does freeing only the first clusters of it. */
  lemma {:induction false} ZeroFrontWellFormed(fat: seq<nat>, eoc: nat, ch: seq<nat>, k: nat)
    requires WellFormed(fat, eoc) && IsChain(fat, eoc, ch) && IsHead(fat, ch[0]) && k <= |ch|
    ensures WellFormed(ZeroAll(fat, ch[..k]), eoc)
    decreases |ch|
  {
    hide WellFormed, ZeroAll;
    if k == 0 {
      assert ZeroAll(fat, ch[..0]) == fat;
    } else {
      var fat' := fat[ch[0] := 0];
      UnlinkKeepsWellFormed(fat, eoc, ch[0]);
      if |ch| > 1 {
        ChainDistinct(fat, eoc, ch);
        ChainTail(fat, eoc, ch, 1);
        ChainKept(fat, fat', eoc, ch[1..]);
        assert fat[ch[0]] == ch[1];
        ZeroFrontWellFormed(fat', eoc, ch[1..], k - 1);
      }
      ZeroFirst(fat, ch, k);
    }
  }

  lemma ZeroFirst(fat: seq<nat>, ch: seq<nat>, k: nat)
    requires 0 < k <= |ch| && ch[0] < |fat|
    ensures ZeroAll(fat[ch[0] := 0], ch[1..][..k - 1]) == ZeroAll(fat, ch[..k])
    ensures k == 1 ==> ZeroAll(fat, ch[..k]) == fat[ch[0] := 0]
  {
    assert ch[..k] == [ch[0]] + ch[1..][..k - 1];
  }

  /** A link to a free cluster is in no chain that ends. */
  lemma LinkToFree(fat: seq<nat>, eoc: nat, c: nat)
    requires |fat| <= eoc && 2 <= c < |fat| && 2 <= fat[c] < |fat| && fat[fat[c]] == 0
    ensures !WellFormed(fat, eoc)
  {
    if WellFormed(fat, eoc) {
      assert Starts(fat, eoc, c);
      var ch :| IsChain(fat, eoc, ch) && ch[0] == c;
      assert |ch| > 1 && ch[1] == fat[c];
      ChainAvoidsFree(fat, eoc, ch);
      assert false;
    }
  }

  /** A cut that has freed `k` of the clusters behind the first `keep`, and has not marked the last
      of those as the end. */
  ghost predicate PartFreed(fat: seq<nat>, fat': seq<nat>, ch: seq<nat>, keep: nat, k: nat) {
    keep + k <= |ch| && fat' == ZeroAll(fat, ch[keep..keep + k])
  }

  ghost predicate CutStopped(fat: seq<nat>, fat': seq<nat>, ch: seq<nat>, keep: nat) {
    exists k: nat :: PartFreed(fat, fat', ch, keep, k)
  }

  lemma NothingFreed(fat: seq<nat>, ch: seq<nat>, keep: nat)
    requires keep <= |ch|
    ensures CutStopped(fat, fat, ch, keep)
  {
    assert PartFreed(fat, fat, ch, keep, 0);
  }

  /** It leaves the table well formed exactly if it has freed nothing or keeps nothing; otherwise the
      last cluster kept links to a free one. */
  lemma PartFreedForm(fat: seq<nat>, fat': seq<nat>, eoc: nat, ch: seq<nat>, keep: nat, k: nat)
    requires WellFormed(fat, eoc) && IsChain(fat, eoc, ch) && IsHead(fat, ch[0]) && PartFreed(fat, fat', ch, keep, k)
    ensures WellFormed(fat', eoc) <==> keep == 0 || k == 0
  {
    if k == 0 {
      assert fat' == fat;
    } else if keep == 0 {
      assert ch[0..k] == ch[..k];
      ZeroFrontWellFormed(fat, eoc, ch, k);
    } else {
      var c, d := ch[keep - 1], ch[keep];
      ChainDistinct(fat, eoc, ch);
      assert fat[c] == d && d == ch[keep..keep + k][0] && fat'[d] == 0 && fat'[c] == d != 0;
      LinkToFree(fat', eoc, c);
    }
  }

  /** Every cluster below `n` is in use. */
  predicate InUseBelow(fat: seq<nat>, n: nat) {
    forall c :: 2 <= c < n && c < |fat| ==> fat[c] != 0
  }

  /** No cluster is free. */
  predicate AllInUse(fat: seq<nat>) {
    forall c :: 2 <= c < |fat| ==> fat[c] != 0
  }

  // ---- Allocating a run ------------------------------------------------------------

  /** `n` consecutive clusters from `b`. */
  function Run(b: nat, n: nat): (ch: seq<nat>)
    ensures |ch| == n && forall i :: 0 <= i < n ==> ch[i] == b + i
  {
    seq(n, i => b + i)
  }

  predicate AllFree(fat: seq<nat>, b: nat, n: nat) {
    2 <= b && b + n <= |fat| && forall c :: b <= c < b + n ==> fat[c] == 0
  }

  /** The table with clusters `b .. b + n` linked in order and closed by an end mark. */
  function LinkRun(fat: seq<nat>, b: nat, n: nat, mark: nat): (r: seq<nat>)
    ensures |r| == |fat|
    ensures forall c :: 0 <= c < |fat| ==>
              r[c] == if b <= c < b + n then (if c + 1 == b + n then mark else c + 1) else fat[c]
  {
    seq(|fat|, c requires 0 <= c < |fat| =>
      if b <= c < b + n then (if c + 1 == b + n then mark else c + 1) else fat[c])
  }

  /** A run is linked back to front; each step puts one more cluster before the rest. */
  lemma LinkRunStep(fat: seq<nat>, b: nat, n: nat, mark: nat)
    requires 0 < b && b + n <= |fat| && n > 0
    ensures LinkRun(fat, b, n, mark)[b - 1 := b] == LinkRun(fat, b - 1, n + 1, mark)
  {
  }

  /** After every single store made while a run is linked the table is well formed. */
  lemma {:induction false} LinkRunWellFormed(fat: seq<nat>, eoc: nat, b: nat, n: nat, mark: nat)
    requires WellFormed(fat, eoc) && eoc <= mark && AllFree(fat, b, n) && n > 0
    ensures WellFormed(LinkRun(fat, b, n, mark), eoc)
    decreases n
  {
    if n == 1 {
      assert LinkRun(fat, b, n, mark) == fat[b := mark];
      LinkKeepsWellFormed(fat, eoc, b, mark, []);
    } else {
      LinkRunWellFormed(fat, eoc, b + 1, n - 1, mark);
      LinkRunIsChain(fat, eoc, b + 1, n - 1, mark);
      LinkRunGrows(fat, eoc, b, n, mark);
    }
  }

  lemma LinkRunGrows(fat: seq<nat>, eoc: nat, b: nat, n: nat, mark: nat)
    requires AllFree(fat, b, n) && n > 1
    requires WellFormed(LinkRun(fat, b + 1, n - 1, mark), eoc)
    requires IsChain(LinkRun(fat, b + 1, n - 1, mark), eoc, Run(b + 1, n - 1))
    requires IsHead(LinkRun(fat, b + 1, n - 1, mark), b + 1)
    ensures WellFormed(LinkRun(fat, b, n, mark), eoc)
  {
    var run := Run(b + 1, n - 1);
    LinkRunStep(fat, b + 1, n - 1, mark);
    assert b !in run && run[0] == b + 1;
    LinkKeepsWellFormed(LinkRun(fat, b + 1, n - 1, mark), eoc, b, b + 1, run);
  }

  /** The clusters linked so far are a chain that nothing links to. */
  lemma LinkRunIsChain(fat: seq<nat>, eoc: nat, b: nat, n: nat, mark: nat)
    requires WellFormed(fat, eoc) && eoc <= mark && AllFree(fat, b, n) && n > 0
    ensures IsChain(LinkRun(fat, b, n, mark), eoc, Run(b, n)) && IsHead(LinkRun(fat, b, n, mark), b)
  {
    FreeIsHead(fat, eoc, b);
    LinkRunHead(fat, eoc, b, n, mark);
  }

  lemma LinkRunHead(fat: seq<nat>, eoc: nat, b: nat, n: nat, mark: nat)
    requires |fat| <= eoc <= mark && AllFree(fat, b, n) && n > 0 && IsHead(fat, b)
    ensures IsChain(LinkRun(fat, b, n, mark), eoc, Run(b, n)) && IsHead(LinkRun(fat, b, n, mark), b)
  {
  }

  /** Linking a run of free clusters leaves every chain as it was, and apart from the run. */
  lemma LinkRunKeeps(fat: seq<nat>, eoc: nat, b: nat, n: nat, mark: nat, ch: seq<nat>)
    requires |fat| <= eoc && AllFree(fat, b, n) && IsChain(fat, eoc, ch)
    ensures IsChain(LinkRun(fat, b, n, mark), eoc, ch) && Disjoint(ch, Run(b, n))
  {
    ChainAvoidsFree(fat, eoc, ch);
    ChainKept(fat, LinkRun(fat, b, n, mark), eoc, ch);
  }

  /** The table after a run was allocated and joined to the chain that ends in `cur`. */
  function Allocated(fat: seq<nat>, cur: nat, b: nat, n: nat, mark: nat): (r: seq<nat>)
    requires cur < |fat|
    ensures |r| == |fat|
  {
    if cur == 0 then LinkRun(fat, b, n, mark) else LinkRun(fat, b, n, mark)[cur := b]
  }

  lemma AllocatedInUse(fat: seq<nat>, b: nat, mark: nat)
    requires InUseBelow(fat, b) && b < |fat| && mark > 0
    ensures InUseBelow(Allocated(fat, 0, b, 1, mark), b + 1)
  {
  }

  /** Allocation keeps the table well formed. */
  lemma AllocatedWellFormed(fat: seq<nat>, eoc: nat, cur: nat, b: nat, n: nat, mark: nat)
    requires WellFormed(fat, eoc) && eoc <= mark && AllFree(fat, b, n) && n > 0
    requires cur == 0 || (2 <= cur < |fat| && fat[cur] >= eoc)
    ensures WellFormed(Allocated(fat, cur, b, n, mark), eoc)
  {
    LinkRunWellFormed(fat, eoc, b, n, mark);
    if cur != 0 {
      LinkRunIsChain(fat, eoc, b, n, mark);
      assert Run(b, n)[0] == b;
      assert cur !in Run(b, n);
      LinkKeepsWellFormed(LinkRun(fat, b, n, mark), eoc, cur, b, Run(b, n));
    }
  }

  /** Allocation changes no chain but the one that ended in `cur`. */
  lemma AllocatedKeeps(fat: seq<nat>, eoc: nat, cur: nat, b: nat, n: nat, mark: nat, ch: seq<nat>)
    requires |fat| <= eoc && AllFree(fat, b, n) && IsChain(fat, eoc, ch) && cur !in ch && cur < |fat|
    ensures IsChain(Allocated(fat, cur, b, n, mark), eoc, ch) && Disjoint(ch, Run(b, n))
  {
    LinkRunKeeps(fat, eoc, b, n, mark, ch);
    ChainKept(LinkRun(fat, b, n, mark), Allocated(fat, cur, b, n, mark), eoc, ch);
  }

  /** Allocation is an append: the chain that ended in `cur` goes on with the run. */
  lemma AllocatedExtends(fat: seq<nat>, eoc: nat, ch: seq<nat>, b: nat, n: nat, mark: nat)
    requires |fat| <= eoc <= mark && AllFree(fat, b, n) && n > 0
    requires ch == [] || IsChain(fat, eoc, ch)
    ensures
      var cur := if ch == [] then 0 else ch[|ch| - 1];
      IsChain(Allocated(fat, cur, b, n, mark), eoc, ch + Run(b, n))
  {
    var cur := if ch == [] then 0 else ch[|ch| - 1];
    var now := Allocated(fat, cur, b, n, mark);
    var all := ch + Run(b, n);
    if ch != [] {
      ChainAvoidsFree(fat, eoc, ch);
      ChainDistinct(fat, eoc, ch);
    }
    forall i | 0 <= i < |all| - 1
      ensures now[all[i]] == all[i + 1]
    {
    }
  }

  /** Each of the clusters `b .. c` links to the next number. */
  predicate Consecutive(fat: seq<nat>, b: nat, c: nat) {
    c <= |fat| && forall x :: b <= x < c ==> fat[x] == x + 1
  }

  /** Following consecutive links to an end mark finds a chain that is one run. */
  lemma RunFound(fat: seq<nat>, eoc: nat, b: nat, c: nat)
    requires 2 <= b <= c < |fat| && Consecutive(fat, b, c) && fat[c] >= eoc
    ensures IsChain(fat, eoc, Run(b, c - b + 1))
  {
  }

  lemma NoRunOutside(fat: seq<nat>, eoc: nat, b: nat)
    requires b < 2 || |fat| <= b
    ensures forall n: nat :: !IsChain(fat, eoc, Run(b, n))
  {
    forall n: nat
      ensures !IsChain(fat, eoc, Run(b, n))
    {
      assert n > 0 ==> Run(b, n)[0] == b;
    }
  }

  lemma NoRunAnywhere(fat: seq<nat>, eoc: nat, b: nat, c: nat)
    requires |fat| < eoc && 2 <= b <= c && Consecutive(fat, b, c)
    requires c == |fat| || (c < |fat| && fat[c] != c + 1 && fat[c] < eoc)
    ensures forall n: nat :: !IsChain(fat, eoc, Run(b, n))
  {
    forall n: nat
      ensures !IsChain(fat, eoc, Run(b, n))
    {
      NoRunThere(fat, eoc, b, c, n);
    }
  }

  lemma ConsecutiveNext(fat: seq<nat>, b: nat, c: nat)
    requires Consecutive(fat, b, c) && c < |fat| && fat[c] == c + 1
    ensures Consecutive(fat, b, c + 1)
  {
  }

  lemma ConsecutiveNone(fat: seq<nat>, b: nat)
    ensures b <= |fat| ==> Consecutive(fat, b, b)
  {
  }

  /** Any other outcome means that the chain is not one run. */
  lemma NoRunThere(fat: seq<nat>, eoc: nat, b: nat, c: nat, n: nat)
    requires |fat| < eoc && 2 <= b <= c && Consecutive(fat, b, c)
    requires c == |fat| || (c < |fat| && fat[c] != c + 1 && fat[c] < eoc)
    ensures !IsChain(fat, eoc, Run(b, n))
  {
    if IsChain(fat, eoc, Run(b, n)) {
      RunEnds(fat, eoc, b, c, n);
    }
  }

  lemma RunEnds(fat: seq<nat>, eoc: nat, b: nat, c: nat, n: nat)
    requires |fat| < eoc && 2 <= b <= c && Consecutive(fat, b, c) && IsChain(fat, eoc, Run(b, n))
    ensures c < |fat| && c < b + n && (fat[c] == c + 1 || fat[c] >= eoc)
  {
    var ch := Run(b, n);
    var last := ch[n - 1];
    assert last == b + n - 1 && fat[last] >= eoc;
    assert c <= last;
    assert ch[c - b] == c;
    assert c < last ==> fat[ch[c - b]] == ch[c - b + 1];
  }

  /** No `count` consecutive free clusters in `lo .. hi`. */
  ghost predicate NoRun(fat: seq<nat>, lo: nat, hi: nat, count: nat) {
    forall b: nat {:trigger AllFree(fat, b, count)} :: lo <= b && b + count <= hi ==> !AllFree(fat, b, count)
  }

  /** The state of the search for a run: `b .. end` is free and too short, and no run was
      missed in the part searched so far, which starts at `start` or, after the wrap, at 2. */
  ghost predicate Searched(fat: seq<nat>, start: nat, count: nat, wrapped: bool, b: nat, end: nat) {
    var lo := if wrapped then 2 else start;
    && 2 <= lo <= b <= end <= |fat| && end - b < count
    && (wrapped ==> NoRun(fat, start, |fat|, count))
    && AllFree(fat, b, end - b) && (b == lo || fat[b - 1] != 0)
    && NoRun(fat, lo, end, count)
  }

  lemma SearchStarts(fat: seq<nat>, start: nat, count: nat)
    requires 2 <= start <= |fat| && count >= 1
    ensures Searched(fat, start, count, false, start, start)
  {
  }

  lemma SearchWraps(fat: seq<nat>, start: nat, count: nat, b: nat, end: nat)
    requires Searched(fat, start, count, false, b, end) && end == |fat| && count >= 1
    ensures Searched(fat, start, count, true, 2, 2)
  {
  }

  /** Looking at one more entry. */
  lemma SearchNext(fat: seq<nat>, start: nat, count: nat, wrapped: bool, b: nat, end: nat)
    requires Searched(fat, start, count, wrapped, b, end) && end < |fat| && (wrapped ==> end < start)
    requires 2 <= start
    ensures fat[end] != 0 ==> Searched(fat, start, count, wrapped, end + 1, end + 1)
    ensures fat[end] == 0 && end - b + 1 < count ==> Searched(fat, start, count, wrapped, b, end + 1)
    ensures fat[end] == 0 && end - b + 1 >= count ==>
              FirstRun(fat, start, count, b) && end - b + 1 == count
  {
    var lo := if wrapped then 2 else start;
    forall x: nat | lo <= x && x + count <= end + 1 && (fat[end] != 0 || end - b + 1 < count)
      ensures !AllFree(fat, x, count)
    {
      if x + count <= end {
        assert !AllFree(fat, x, count);
      } else if fat[end] == 0 {
        assert x <= b - 1 < x + count;
      }
    }
  }

  /** `b` starts the first run at or after `start` or, if there is none, the first one that
      ends before `start`. */
  ghost predicate FirstRun(fat: seq<nat>, start: nat, count: nat, b: nat) {
    && AllFree(fat, b, count)
    && (b >= start ==> NoRun(fat, start, b + count - 1, count))
    && (b < start ==> b + count <= start && NoRun(fat, start, |fat|, count) && NoRun(fat, 2, b + count - 1, count))
  }

  /** There is no run that does not cross `start`. */
  ghost predicate NoRunFrom(fat: seq<nat>, start: nat, count: nat) {
    NoRun(fat, start, |fat|, count) && NoRun(fat, 2, start, count)
  }

  lemma SearchFails(fat: seq<nat>, start: nat, count: nat, wrapped: bool, b: nat, end: nat)
    requires Searched(fat, start, count, wrapped, b, end) && 2 <= start <= |fat|
    requires if wrapped then end >= start else end == |fat| && start == 2
    ensures NoRunFrom(fat, start, count)
  {
  }

  /** The cluster before the start of a search is in use, or there is none: then no run crosses
      the start, and a search that fails has missed nothing. */
  lemma NothingMissed(fat: seq<nat>, start: nat, count: nat)
    requires 2 <= start <= |fat| && count >= 1 && (start == 2 || fat[start - 1] != 0)
    ensures NoRunFrom(fat, start, count) <==> NoRun(fat, 2, |fat|, count)
  {
    if NoRunFrom(fat, start, count) {
      forall b: nat | 2 <= b && b + count <= |fat|
        ensures !AllFree(fat, b, count)
      {
        assert b < start < b + count ==> fat[start - 1] != 0;
      }
    }
  }

  /** When everything below the start of the search is in use, as it is below the hint, the
      search is first fit: it finds the lowest run there is. */
  lemma FirstFit(fat: seq<nat>, start: nat, count: nat)
    requires InUseBelow(fat, start) && 2 <= start && count >= 1
    ensures forall b: nat :: FirstRun(fat, start, count, b) ==>
              b >= start && NoRun(fat, 2, b + count - 1, count) && (count == 1 ==> InUseBelow(fat, b))
  {
    forall b: nat | FirstRun(fat, start, count, b)
      ensures b >= start && NoRun(fat, 2, b + count - 1, count)
    {
      assert fat[b] == 0;
      forall x: nat | 2 <= x && x + count <= b + count - 1
        ensures !AllFree(fat, x, count)
      {
        assert x < start ==> fat[x] != 0;
      }
    }
    forall b: nat, c | FirstRun(fat, start, 1, b) && start <= c < b
      ensures fat[c] != 0
    {
      assert !AllFree(fat, c, 1);
    }
  }

  /** There is no run of one cluster exactly if all clusters are in use. */
  lemma NoneIsFree(fat: seq<nat>)
    ensures NoRun(fat, 2, |fat|, 1) <==> AllInUse(fat)
  {
    if NoRun(fat, 2, |fat|, 1) {
      forall c | 2 <= c < |fat|
        ensures fat[c] != 0
      {
        assert !AllFree(fat, c, 1);
      }
    }
    if AllInUse(fat) {
      forall b: nat | 2 <= b && b + 1 <= |fat|
        ensures !AllFree(fat, b, 1)
      {
        assert fat[b] != 0;
      }
    }
  }
}
