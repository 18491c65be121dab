/** What a program sees of the files it has open: a byte sequence and a position for each,
    whatever is in the cache, on the card or in a table (Modules/SD/SdFat.h:131-246;
    Modules/SD/SdFile.cpp:723-781, 1009-1079, 1157-1207, 1225-1327). */
module Scripts {
  import opened Bytes
  import opened Layouts
  import opened Chains
  import opened Cache
  import opened Volume
  import opened FileModel
  import opened WriteModel
  import opened TruncateModel
  import opened Slots

  /** An open file as a program sees it. */
  datatype Content = Content(data: seq<byte>, pos: nat)

  /** How a file was opened. */
  datatype Mode = Mode(read: bool, write: bool, append: bool, sync: bool)

  datatype Command =
    | ReadCmd(file: nat, count: nat)
    | WriteCmd(file: nat, src: seq<byte>)
    | SeekCmd(file: nat, pos: nat)
    | TruncateCmd(file: nat, length: nat)
    | SyncCmd(file: nat)
    | RemoveCmd(file: nat)

  function Least(a: nat, b: nat): nat {
    if a < b then a else b
  }

  /** Where a write goes. */
  function Target(c: Content, append: bool): nat {
    if append then |c.data| else c.pos
  }

  /** What a command that succeeds does to its file, if it leaves the file there. */
  function Apply(c: Content, append: bool, cmd: Command): Content {
    match cmd
    case ReadCmd(_, count) => if c.pos <= |c.data| then c.(pos := Least(c.pos + count, |c.data|)) else c
    case WriteCmd(_, src) =>
      var at := Target(c, append);
      if at <= |c.data| then Content(Splice(c.data, at, src), at + |src|) else c
    case SeekCmd(_, pos) => c.(pos := pos)
    case TruncateCmd(_, length) => Content(c.data[..Least(length, |c.data|)], Least(c.pos, length))
    case SyncCmd(_) => c
    case RemoveCmd(_) => c
  }

  /** What it gives back. */
  function Output(c: Content, cmd: Command): seq<byte> {
    if cmd.ReadCmd? && c.pos <= |c.data| then c.data[c.pos..Least(c.pos + cmd.count, |c.data|)] else []
  }

  /** A write that does not start at the end of the file. */
  predicate Overwrites(c: Content, append: bool, cmd: Command) {
    cmd.WriteCmd? && Target(c, append) != |c.data|
  }

  /** Afterwards everything is on the card: a sync, a write to a file that was opened for synchronized
      writes, or a truncation of a file that was not empty. */
  predicate Saves(c: Content, mode: Mode, cmd: Command) {
    cmd.SyncCmd? || (cmd.WriteCmd? && mode.sync) || (cmd.TruncateCmd? && c.data != [])
  }

  /** The command is one that a file in this state and mode can be given: it may be read or
      written, the target exists, and counts and sizes fit the source's 16 and 32 bits. */
  predicate Allowed(c: Content, mode: Mode, cmd: Command) {
    match cmd
    case ReadCmd(_, count) => mode.read && count < TWO_16
    && (c.pos <= |c.data| ==> Least(count, |c.data| - c.pos) < 0x8000)
    case WriteCmd(_, src) => mode.write && |src| < TWO_16 && Target(c, mode.append) + |src| < TWO_32
    case SeekCmd(_, pos) => pos <= |c.data|
    case TruncateCmd(_, length) => mode.write && length <= |c.data|
    case SyncCmd(_) => true
    case RemoveCmd(_) => mode.write
  }

  /** A list without its element `i`. */
  function Drop<T>(s: seq<T>, i: nat): (r: seq<T>)
    requires i < |s|
    ensures |r| == |s| - 1 && forall j :: 0 <= j < |r| ==> r[j] == if j < i then s[j] else s[j + 1]
    ensures forall x :: x in r ==> x in s
  {
    s[..i] + s[i + 1..]
  }

  /** How many of `n` files are open after the first `k` commands: a file that is removed leaves
      the list, and the ones behind it move up. */
  function Left(n: int, script: seq<Command>, k: nat): int
    requires k <= |script|
  {
    if k == 0 then n else Left(n, script, k - 1) - if script[k - 1].RemoveCmd? then 1 else 0
  }

  /** Every command is for a file that is in the list when its turn comes. */
  predicate Addresses(script: seq<Command>, n: nat) {
    forall k :: 0 <= k < |script| ==> script[k].file < Left(n, script, k)
  }

  /** All files after a command that succeeded. */
  function Advance(cs: seq<Content>, modes: seq<Mode>, cmd: Command): (r: seq<Content>)
    requires |modes| == |cs| && cmd.file < |cs|
  {
    if cmd.RemoveCmd? then Drop(cs, cmd.file)
    else cs[cmd.file := Apply(cs[cmd.file], modes[cmd.file].append, cmd)]
  }

  function Remaining(modes: seq<Mode>, cmd: Command): (r: seq<Mode>)
    requires cmd.file < |modes|
  {
    if cmd.RemoveCmd? then Drop(modes, cmd.file) else modes
  }

  /** The modes of the files that are left after the first `k` commands of a script. */
  function ModesAfter(modes: seq<Mode>, script: seq<Command>, k: nat): (r: seq<Mode>)
    requires Addresses(script, |modes|) && k <= |script|
    ensures |r| == Left(|modes|, script, k)
  {
    if k == 0 then modes else Remaining(ModesAfter(modes, script, k - 1), script[k - 1])
  }

  /** All files after the first `k` commands, if they all succeeded. */
  function After(cs: seq<Content>, modes: seq<Mode>, script: seq<Command>, k: nat): (r: seq<Content>)
    requires |modes| == |cs| && Addresses(script, |cs|) && k <= |script|
    ensures |r| == Left(|cs|, script, k)
  {
    if k == 0 then cs
    else Advance(After(cs, modes, script, k - 1), ModesAfter(modes, script, k - 1), script[k - 1])
  }

  /** What they gave back, in order. */
  function Outputs(cs: seq<Content>, modes: seq<Mode>, script: seq<Command>, k: nat): (r: seq<seq<byte>>)
    requires |modes| == |cs| && Addresses(script, |cs|) && k <= |script|
    ensures |r| == k
  {
    if k == 0 then []
    else
      var cmd := script[k - 1];
      Outputs(cs, modes, script, k - 1) + [Output(After(cs, modes, script, k - 1)[cmd.file], cmd)]
  }

  /** Every write among them is at the end of its file. */
  predicate AppendsOnly(cs: seq<Content>, modes: seq<Mode>, script: seq<Command>, k: nat)
    requires |modes| == |cs| && Addresses(script, |cs|) && k <= |script|
  {
    k == 0 ||
    var cmd := script[k - 1];
    AppendsOnly(cs, modes, script, k - 1)
    && !Overwrites(After(cs, modes, script, k - 1)[cmd.file], ModesAfter(modes, script, k - 1)[cmd.file].append, cmd)
  }

  /** The last of the first `k` commands leaves everything on the card. */
  predicate LastSaves(cs: seq<Content>, modes: seq<Mode>, script: seq<Command>, k: nat)
    requires |modes| == |cs| && Addresses(script, |cs|) && 0 < k <= |script|
  {
    var cmd := script[k - 1];
    Saves(After(cs, modes, script, k - 1)[cmd.file], ModesAfter(modes, script, k - 1)[cmd.file], cmd)
  }

  lemma ScriptStart(cs: seq<Content>, modes: seq<Mode>, script: seq<Command>)
    requires |modes| == |cs| && Addresses(script, |cs|)
    ensures After(cs, modes, script, 0) == cs && ModesAfter(modes, script, 0) == modes
    ensures Outputs(cs, modes, script, 0) == [] && AppendsOnly(cs, modes, script, 0)
  {
  }

  lemma ScriptNext(cs: seq<Content>, modes: seq<Mode>, script: seq<Command>, k: nat)
    requires |modes| == |cs| && Addresses(script, |cs|) && k < |script|
    ensures
      var before, ms, i := After(cs, modes, script, k), ModesAfter(modes, script, k), script[k].file;
      && i < |before| == |ms|
      && After(cs, modes, script, k + 1) == Advance(before, ms, script[k])
      && ModesAfter(modes, script, k + 1) == Remaining(ms, script[k])
      && Outputs(cs, modes, script, k + 1) == Outputs(cs, modes, script, k) + [Output(before[i], script[k])]
      && (AppendsOnly(cs, modes, script, k + 1) <==>
            AppendsOnly(cs, modes, script, k) && !Overwrites(before[i], ms[i].append, script[k]))
  {
  }

  lemma SavesNext(cs: seq<Content>, modes: seq<Mode>, script: seq<Command>, k: nat)
    requires |modes| == |cs| && Addresses(script, |cs|) && k < |script|
    ensures
      var before, ms, i := After(cs, modes, script, k), ModesAfter(modes, script, k), script[k].file;
      && i < |before| == |ms|
      && (LastSaves(cs, modes, script, k + 1) <==> Saves(before[i], ms[i], script[k]))
  {
    hide After, ModesAfter, Saves;
  }

  // ---- Many open files on one volume -------------------------------------------------------

  ghost predicate SameSlots(f: FileState, f': FileState) {
    f'.block == f.block && f'.index == f.index
  }

  ghost predicate Apartness(g: Layout, fs: seq<FileState>)
    requires g.blocksPerCluster > 0
  {
    forall i, j :: 0 <= i < |fs| && 0 <= j < |fs| && i != j ==> Separate(g, fs[i], fs[j])
  }

  /** Every file is good and its chain a root, and no two share anything. */
  ghost predicate Together(g: Layout, s: CacheState, fs: seq<FileState>)
    requires g.Fits(|s.disk|)
    ensures Together(g, s, fs) ==> forall i :: 0 <= i < |fs| ==> Good(g, s, fs[i])
  {
    && WellFormed(Fat(g, s.disk), g.EocMin())
    && (forall i :: 0 <= i < |fs| ==> Good(g, s, fs[i]) && Rooted(Fat(g, s.disk), fs[i].chain))
    && Apartness(g, fs)
  }

  ghost function ContentOf(g: Layout, d: Disk, f: FileState): Content
    requires g.Fits(|d|) && InRange(g, f.chain) && Room(g, f.chain, f.size)
  {
    Content(FileBytes(g, d, f.chain, f.size), f.pos)
  }

  ghost function Views(g: Layout, d: Disk, fs: seq<FileState>): (cs: seq<Content>)
    requires g.Fits(|d|)
    requires forall i :: 0 <= i < |fs| ==> InRange(g, fs[i].chain) && Room(g, fs[i].chain, fs[i].size)
    ensures |cs| == |fs| && forall i :: 0 <= i < |fs| ==> cs[i] == ContentOf(g, d, fs[i])
  {
    seq(|fs|, i requires 0 <= i < |fs| => ContentOf(g, d, fs[i]))
  }

  lemma SeparateBothWays(g: Layout, f: FileState, h: FileState)
    requires g.blocksPerCluster > 0 && Separate(g, f, h)
    ensures Separate(g, h, f)
  {
  }

  lemma Apart2(g: Layout, fs: seq<FileState>, i: nat, j: nat)
    requires g.blocksPerCluster > 0 && Apartness(g, fs) && i < |fs| && j < |fs| && i != j
    ensures Separate(g, fs[i], fs[j])
  {
  }

  /** An operation on one file keeps all of them together, and only that one changes. */
  lemma StepTogether(g: Layout, s: CacheState, s': CacheState, fs: seq<FileState>, i: nat, f': FileState)
    requires g.Fits(|s.disk|) && Together(g, s, fs) && i < |fs| && |s'.disk| == |s.disk|
    requires Confined(g, s, s', fs[i].chain, f'.chain, fs[i].block, fs[i].index)
    requires Good(g, s', f') && SameSlots(fs[i], f')
    ensures Together(g, s', fs[i := f'])
    ensures forall j :: 0 <= j < |fs| && j != i ==> ContentOf(g, s'.disk, fs[j]) == ContentOf(g, s.disk, fs[j])
  {
    hide Fat, Layout.Fits, FileBytes, Isolated, Good, Rooted, Separate, WellFormed, Apartness;
    forall j | 0 <= j < |fs| && j != i
      ensures Good(g, s', fs[j]) && Rooted(Fat(g, s'.disk), fs[j].chain)
      ensures Separate(g, f', fs[j]) && Separate(g, fs[j], f')
      ensures ContentOf(g, s'.disk, fs[j]) == ContentOf(g, s.disk, fs[j])
    {
      Apart2(g, fs, i, j);
      OtherFileKept(g, s, s', fs[i], f', fs[j]);
      SeparateBothWays(g, f', fs[j]);
    }
    ApartAgain(g, fs, i, f');
  }

  lemma ApartAgain(g: Layout, fs: seq<FileState>, i: nat, f': FileState)
    requires g.blocksPerCluster > 0 && Apartness(g, fs) && i < |fs|
    requires forall j :: 0 <= j < |fs| && j != i ==> Separate(g, f', fs[j]) && Separate(g, fs[j], f')
    ensures Apartness(g, fs[i := f'])
  {
    hide Separate;
  }

  /** An operation on one file that failed half way spares the others. */
  lemma StepSpares(g: Layout, s: CacheState, s': CacheState, fs: seq<FileState>, i: nat)
    requires g.Fits(|s.disk|) && Together(g, s, fs) && i < |fs| && |s'.disk| == |s.disk|
    requires Spares(g, s, s', fs[i])
    ensures forall j :: 0 <= j < |fs| && j != i ==>
              Good(g, s', fs[j]) && ContentOf(g, s'.disk, fs[j]) == ContentOf(g, s.disk, fs[j])
  {
    hide Fat, Layout.Fits, FileBytes, Good, Rooted, Separate, WellFormed, Apartness;
    forall j | 0 <= j < |fs| && j != i
      ensures Spared(g, s, s', fs[j])
    {
      Apart2(g, fs, i, j);
    }
  }

  /** After a file was removed the others are still together, and as they were. */
  lemma RemoveTogether(g: Layout, s: CacheState, s': CacheState, fs: seq<FileState>, i: nat)
    requires g.Fits(|s.disk|) && Together(g, s, fs) && i < |fs|
    requires Spares(g, s, s', fs[i]) && Removed(g, s, s', fs[i])
    ensures Together(g, s', Drop(fs, i))
    ensures Views(g, s'.disk, Drop(fs, i)) == Drop(Views(g, s.disk, fs), i)
  {
    hide Fat, Layout.Fits, FileBytes, Good, Rooted, Separate, WellFormed, Apartness, Removed, ContentOf;
    GoodIsUsable(g, s, fs[i]);
    RemovedWellFormed(g, s, s', fs[i], fs[i].size);
    forall j | 0 <= j < |fs| && j != i
      ensures Good(g, s', fs[j]) && Rooted(Fat(g, s'.disk), fs[j].chain)
      ensures ContentOf(g, s'.disk, fs[j]) == ContentOf(g, s.disk, fs[j])
    {
      Apart2(g, fs, i, j);
      assert Spared(g, s, s', fs[j]);
      SparedContent(g, s, s', fs[j]);
    }
    ApartWithout(g, fs, i);
    forall j | 0 <= j < |Drop(fs, i)|
      ensures Good(g, s', Drop(fs, i)[j]) && Rooted(Fat(g, s'.disk), Drop(fs, i)[j].chain)
    {
      assert Drop(fs, i)[j] == fs[if j < i then j else j + 1];
    }
    var was, now := Views(g, s.disk, fs), Views(g, s'.disk, Drop(fs, i));
    forall j | 0 <= j < |now|
      ensures now[j] == Drop(was, i)[j]
    {
      var j' := if j < i then j else j + 1;
      assert Drop(fs, i)[j] == fs[j'];
      assert now[j] == ContentOf(g, s'.disk, fs[j']) && was[j'] == ContentOf(g, s.disk, fs[j']);
    }
    assert now == Drop(was, i);
  }

  lemma SparedContent(g: Layout, s: CacheState, s': CacheState, f: FileState)
    requires g.Fits(|s.disk|) && |s'.disk| == |s.disk| && Good(g, s, f) && Spared(g, s, s', f)
    ensures Good(g, s', f) && ContentOf(g, s'.disk, f) == ContentOf(g, s.disk, f)
    ensures Rooted(Fat(g, s.disk), f.chain) ==> Rooted(Fat(g, s'.disk), f.chain)
  {
    hide Fat, Layout.Fits, FileBytes, Good, Rooted;
  }

  lemma ApartWithout(g: Layout, fs: seq<FileState>, i: nat)
    requires g.blocksPerCluster > 0 && Apartness(g, fs) && i < |fs|
    ensures Apartness(g, Drop(fs, i))
  {
    hide Separate;
    var less := Drop(fs, i);
    forall j, k | 0 <= j < |less| && 0 <= k < |less| && j != k
      ensures Separate(g, less[j], less[k])
    {
      var j', k' := if j < i then j else j + 1, if k < i then k else k + 1;
      assert less[j] == fs[j'] && less[k] == fs[k'];
      Apart2(g, fs, j', k');
    }
  }

  /** A command on one file succeeded. */
  ghost predicate StepDone(g: Layout, s: CacheState, s': CacheState, f: FileState, f': FileState,
                           mode: Mode, cmd: Command, out: seq<byte>)
    requires g.Fits(|s.disk|) && Good(g, s, f)
    ensures StepDone(g, s, s', f, f', mode, cmd, out) ==>
              |s'.disk| == |s.disk| && Good(g, s', f') && SameSlots(f, f')
              && Confined(g, s, s', f.chain, f'.chain, f.block, f.index)
  {
    && |s'.disk| == |s.disk| && Good(g, s', f') && SameSlots(f, f')
    && Confined(g, s, s', f.chain, f'.chain, f.block, f.index)
    && ContentOf(g, s'.disk, f') == Apply(ContentOf(g, s.disk, f), mode.append, cmd)
    && out == Output(ContentOf(g, s.disk, f), cmd)
    && (s'.Stranded() ==> s.Stranded() || Overwrites(ContentOf(g, s.disk, f), mode.append, cmd))
    && (Saves(ContentOf(g, s.disk, f), mode, cmd) ==> !s'.dirty && !f'.dirDirty)
  }

  lemma ReadStep(g: Layout, s: CacheState, s': CacheState, f: FileState, f': FileState, mode: Mode, cmd: Command,
                 out: seq<byte>)
    requires g.Fits(|s.disk|) && Good(g, s, f) && cmd.ReadCmd? && s'.disk == s.disk && FatOnly(g, s, s')
    requires f' == f.(pos := f'.pos, cur := f'.cur) && f'.pos == Least(f.pos + cmd.count, f.size)
    requires CursorOn(g, f.chain, f'.pos, f'.cur)
    requires out == FileBytes(g, s.disk, f.chain, f.size)[f.pos..f'.pos]
    ensures StepDone(g, s, s', f, f', mode, cmd, out)
  {
    hide Fat, Layout.Fits, FileBytes, Confined, Good, CursorOn, FatOnly;
    GoodAfterSeek(g, s, s', f, f');
    SeekIsConfined(g, s, s', f.chain, f.block, f.index);
  }

  lemma SeekStep(g: Layout, s: CacheState, s': CacheState, f: FileState, f': FileState, mode: Mode, cmd: Command)
    requires g.Fits(|s.disk|) && Good(g, s, f) && cmd.SeekCmd? && s'.disk == s.disk && FatOnly(g, s, s')
    requires f' == f.(pos := cmd.pos, cur := f'.cur) && Good(g, s', f')
    ensures StepDone(g, s, s', f, f', mode, cmd, [])
  {
    hide Fat, Layout.Fits, FileBytes, Confined, Good, FatOnly;
    SeekIsConfined(g, s, s', f.chain, f.block, f.index);
  }

  lemma WriteStep(g: Layout, s: CacheState, s': CacheState, f: FileState, f': FileState, mode: Mode, cmd: Command)
    requires g.Fits(|s.disk|) && Good(g, s, f) && cmd.WriteCmd? && SameSlots(f, f')
    requires Written(g, s, s', f, f', if mode.append then f.size else f.pos, cmd.src)
    requires mode.sync ==> !s'.dirty && !f'.dirDirty
    requires Confined(g, s, s', f.chain, f'.chain, f.block, f.index)
    ensures StepDone(g, s, s', f, f', mode, cmd, [])
  {
    hide Fat, Layout.Fits, FileBytes, Confined, Sound, CursorOn, TailClean, Hits, Splice;
    AppendNeverHits(g, s, f.chain, f.size, |cmd.src|);
  }

  lemma TruncateStep(g: Layout, s: CacheState, s': CacheState, f: FileState, f': FileState, mode: Mode, cmd: Command)
    requires g.Fits(|s.disk|) && Good(g, s, f) && cmd.TruncateCmd? && SameSlots(f, f') && f'.size == cmd.length
    requires if f.size == 0 then s' == s && f' == f
             else f'.pos == Least(f.pos, cmd.length) && Truncated(g, s, s', f.chain, f.size, f')
                  && !s'.dirty && !f'.dirDirty
    ensures StepDone(g, s, s', f, f', mode, cmd, [])
  {
    hide Fat, Layout.Fits, FileBytes, Confined, Sound, CursorOn, TailClean, Cut;
    if f.size == 0 {
      ConfinedQuiet(g, s, s, f.chain, f.block, f.index);
    }
  }

  lemma SyncStep(g: Layout, s: CacheState, s': CacheState, f: FileState, f': FileState, mode: Mode, cmd: Command)
    requires g.Fits(|s.disk|) && Good(g, s, f) && cmd.SyncCmd? && f' == f.(dirDirty := false) && !s'.dirty
    requires Confined(g, s, s', f.chain, f.chain, f.block, f.index) && Good(g, s', f')
    requires FileBytes(g, s'.disk, f.chain, f.size) == FileBytes(g, s.disk, f.chain, f.size)
    ensures StepDone(g, s, s', f, f', mode, cmd, [])
  {
    hide Fat, Layout.Fits, FileBytes, Confined, Good;
  }
}
