/** Whole runs: a program that reads, writes, seeks, truncates and synchronizes the files it
    has open on a volume, in any order. The files behave like byte sequences with positions. */
module Session {
  import opened Bytes
  import opened Layouts
  import opened Chains
  import opened Cache
  import opened Volume
  import opened FileModel
  import opened WriteModel
  import opened TruncateModel
  import opened Slots
  import opened Scripts
  import opened File

  /** The mode of a handle. */
  function ModeOf(f: SdFile): Mode
    reads f
  {
    Mode(f.canRead, f.canWrite, f.append, f.syncWrites)
  }

  /** Read into a buffer, and give back what arrived. */
  method PerformRead(f: SdFile, cmd: Command) returns (ok: bool, out: seq<byte>)
    requires f.Valid() && f.fileType == Normal && cmd.ReadCmd?
    modifies f`curCluster, f`curPosition, f.vol.cache.Repr()
    ensures f.vol.Valid() && Spares(f.vol.g, old(f.vol.cache.State()), f.vol.cache.State(), old(f.Snap()))
    ensures ok ==> f.Valid() && StepDone(f.vol.g, old(f.vol.cache.State()), f.vol.cache.State(),
                                         old(f.Snap()), f.Snap(), old(ModeOf(f)), cmd, out)
    ensures f.vol.cache.card.faults >= old(f.vol.cache.card.faults)
    ensures !ok ==>
              f.vol.cache.Excused(old(f.vol.cache.card.faults))
              || !Allowed(ContentOf(f.vol.g, old(f.vol.cache.disk), old(f.Snap())), old(ModeOf(f)), cmd)
  {
    hide Fat, Layout.Fits, SdVolume.Valid, BlockCache.Valid, FatOnly, Good, CursorOn, FileBytes, Isolated, Confined,
      Spares, StepDone, Patch, Readable, BlockCache.Excused, Contents, HasBytes, Separate;
    assert f !in f.vol.Repr();
    ghost var g, s, was := f.vol.g, f.vol.cache.State(), f.Snap();
    SeekIsConfined(g, s, s, f.chain, f.dirBlock, f.dirIndex);
    IsolatedSpares(g, s, s, was, was);
    out := [];
    if cmd.count >= TWO_16 {
      return false, out;
    }
    var buf := new byte[cmd.count];
    GoodIsReadable(g, s, was);
    ghost var blank := buf[..];
    var r;
    ghost var done;
    r, done := f.Read(buf, cmd.count);
    SeekIsConfined(g, s, f.vol.cache.State(), f.chain, f.dirBlock, f.dirIndex);
    IsolatedSpares(g, s, f.vol.cache.State(), was, was);
    if r < 0 {
      return false, out;
    }
    ghost var piece := FileBytes(g, s.disk, was.chain, was.size)[was.pos..f.curPosition];
    assert r == |piece| <= cmd.count && buf[..] == Patch(blank, 0, piece);
    ok, out := true, buf[..r];
    PatchFront(blank, piece);
    assert buf[..r] == buf[..][..r];
    ReadStep(g, s, f.vol.cache.State(), was, f.Snap(), ModeOf(f), cmd, out);
  }

  method PerformSeek(f: SdFile, cmd: Command) returns (ok: bool)
    requires f.Valid() && f.fileType == Normal && cmd.SeekCmd?
    modifies f`curCluster, f`curPosition, f.vol.cache.Repr()
    ensures f.vol.Valid() && Spares(f.vol.g, old(f.vol.cache.State()), f.vol.cache.State(), old(f.Snap()))
    ensures ok ==> f.Valid() && StepDone(f.vol.g, old(f.vol.cache.State()), f.vol.cache.State(),
                                         old(f.Snap()), f.Snap(), old(ModeOf(f)), cmd, [])
    ensures f.vol.cache.card.faults >= old(f.vol.cache.card.faults)
    ensures !ok ==>
              f.vol.cache.Excused(old(f.vol.cache.card.faults))
              || !Allowed(ContentOf(f.vol.g, old(f.vol.cache.disk), old(f.Snap())), old(ModeOf(f)), cmd)
  {
    hide Fat, Layout.Fits, SdVolume.Valid, BlockCache.Valid, FatOnly, Good, CursorOn, CursorLoose, Sound, FileBytes,
      Isolated, Confined, Spares, StepDone;
    assert f !in f.vol.Repr();
    ghost var g, s, was := f.vol.g, f.vol.cache.State(), f.Snap();
    f.ValidIsUsable();
    ok := f.SeekSet(cmd.pos);
    SeekIsConfined(g, s, f.vol.cache.State(), f.chain, f.dirBlock, f.dirIndex);
    IsolatedSpares(g, s, f.vol.cache.State(), was, was);
    if ok {
      SeekStep(g, s, f.vol.cache.State(), was, f.Snap(), ModeOf(f), cmd);
    }
  }

  /** The source's sizes are 32-bit, and its byte counts 16-bit: a write that does not fit in
      them is not made. */
  method PerformWrite(f: SdFile, cmd: Command) returns (ok: bool)
    requires f.Valid() && f.fileType == Normal && cmd.WriteCmd?
    modifies f, f.vol`allocSearchStart, f.vol.cache.Repr()
    ensures f.vol.Valid() && Spares(f.vol.g, old(f.vol.cache.State()), f.vol.cache.State(), old(f.Snap()))
    ensures f.fileType == Normal && ModeOf(f) == old(ModeOf(f))
    ensures ok ==> f.Valid() && StepDone(f.vol.g, old(f.vol.cache.State()), f.vol.cache.State(),
                                         old(f.Snap()), f.Snap(), old(ModeOf(f)), cmd, [])
    ensures f.vol.cache.card.faults >= old(f.vol.cache.card.faults)
    ensures !ok ==>
              f.vol.cache.Excused(old(f.vol.cache.card.faults)) || AllInUse(Fat(f.vol.g, f.vol.cache.disk))
              || !Allowed(ContentOf(f.vol.g, old(f.vol.cache.disk), old(f.Snap())), old(ModeOf(f)), cmd)
  {
    hide Fat, Layout.Fits, SdVolume.Valid, BlockCache.Valid, Good, CursorOn, CursorLoose, Sound, FileBytes, Isolated,
      Confined, Spares, StepDone, Written;
    assert f !in f.vol.Repr();
    ghost var g, s, was := f.vol.g, f.vol.cache.State(), f.Snap();
    ConfinedQuiet(g, s, s, f.chain, f.dirBlock, f.dirIndex);
    IsolatedSpares(g, s, s, was, was);
    if |cmd.src| >= TWO_16 || (if f.append then f.fileSize else f.curPosition) + |cmd.src| >= TWO_32 {
      return false;
    }
    var r := f.Write(cmd.src);
    IsolatedSpares(g, s, f.vol.cache.State(), was, f.Snap());
    ok := r == Going;
    if ok {
      WriteStep(g, s, f.vol.cache.State(), was, f.Snap(), ModeOf(f), cmd);
    }
  }

  method PerformTruncate(f: SdFile, cmd: Command) returns (ok: bool)
    requires f.Valid() && f.fileType == Normal && cmd.TruncateCmd?
    modifies f, f.vol`allocSearchStart, f.vol.cache.Repr()
    ensures f.vol.Valid() && Spares(f.vol.g, old(f.vol.cache.State()), f.vol.cache.State(), old(f.Snap()))
    ensures f.fileType == Normal && ModeOf(f) == old(ModeOf(f))
    ensures ok ==> f.Valid() && StepDone(f.vol.g, old(f.vol.cache.State()), f.vol.cache.State(),
                                         old(f.Snap()), f.Snap(), old(ModeOf(f)), cmd, [])
    ensures f.vol.cache.card.faults >= old(f.vol.cache.card.faults)
    ensures !ok ==>
              f.vol.cache.Excused(old(f.vol.cache.card.faults))
              || !Allowed(ContentOf(f.vol.g, old(f.vol.cache.disk), old(f.Snap())), old(ModeOf(f)), cmd)
  {
    hide Fat, Layout.Fits, SdVolume.Valid, BlockCache.Valid, Good, CursorOn, CursorLoose, Sound, FileBytes, Isolated,
      Confined, Spares, StepDone, Truncated;
    assert f !in f.vol.Repr();
    ghost var g, s, was := f.vol.g, f.vol.cache.State(), f.Snap();
    f.ValidIsUsable();
    ok := f.Truncate(cmd.length);
    IsolatedSpares(g, s, f.vol.cache.State(), was, f.Snap());
    if ok {
      TruncateStep(g, s, f.vol.cache.State(), was, f.Snap(), ModeOf(f), cmd);
    }
  }

  method PerformSync(f: SdFile, cmd: Command) returns (ok: bool)
    requires f.Valid() && f.fileType == Normal && cmd.SyncCmd?
    modifies f`dirDirty, f.vol.cache.Repr()
    ensures f.vol.Valid() && Spares(f.vol.g, old(f.vol.cache.State()), f.vol.cache.State(), old(f.Snap()))
    ensures ok ==> f.Valid() && StepDone(f.vol.g, old(f.vol.cache.State()), f.vol.cache.State(),
                                         old(f.Snap()), f.Snap(), old(ModeOf(f)), cmd, [])
    ensures f.vol.cache.card.faults >= old(f.vol.cache.card.faults)
    ensures !ok ==>
              f.vol.cache.Excused(old(f.vol.cache.card.faults))
              || !Allowed(ContentOf(f.vol.g, old(f.vol.cache.disk), old(f.Snap())), old(ModeOf(f)), cmd)
  {
    hide Fat, Layout.Fits, SdVolume.Valid, BlockCache.Valid, CursorOn, CursorLoose, Sound, TailClean, FileBytes,
      Isolated, Confined, Spares, StepDone, OnCard;
    assert f !in f.vol.Repr();
    ghost var g, s, was := f.vol.g, f.vol.cache.State(), f.Snap();
    ok := f.Sync();
    IsolatedSpares(g, s, f.vol.cache.State(), was, was);
    if ok {
      SyncStep(g, s, f.vol.cache.State(), was, f.Snap(), ModeOf(f), cmd);
    }
  }

  method PerformRemove(f: SdFile, cmd: Command) returns (ok: bool)
    requires f.Valid() && f.fileType == Normal && cmd.RemoveCmd?
    modifies f, f.vol`allocSearchStart, f.vol.cache.Repr()
    ensures f.vol.Valid() && Spares(f.vol.g, old(f.vol.cache.State()), f.vol.cache.State(), old(f.Snap()))
    ensures ok ==> f.fileType == Closed && !f.vol.cache.dirty
                   && Removed(f.vol.g, old(f.vol.cache.State()), f.vol.cache.State(), old(f.Snap()))
    ensures f.vol.cache.card.faults >= old(f.vol.cache.card.faults)
    ensures !ok ==>
              f.vol.cache.Excused(old(f.vol.cache.card.faults))
              || !Allowed(ContentOf(f.vol.g, old(f.vol.cache.disk), old(f.Snap())), old(ModeOf(f)), cmd)
  {
    hide Fat, Layout.Fits, SdVolume.Valid, BlockCache.Valid, CursorOn, Sound, TailClean, FileBytes, Spares, Removed;
    assert f !in f.vol.Repr();
    f.ValidIsUsable();
    ok := f.Remove();
  }

  /** Carry out one command on a file that leaves it there. */
  method Perform(f: SdFile, cmd: Command) returns (ok: bool, out: seq<byte>)
    requires f.Valid() && f.fileType == Normal && !cmd.RemoveCmd?
    modifies f, f.vol`allocSearchStart, f.vol.cache.Repr()
    ensures f.vol.Valid() && Spares(f.vol.g, old(f.vol.cache.State()), f.vol.cache.State(), old(f.Snap()))
    ensures f.fileType == Normal && ModeOf(f) == old(ModeOf(f))
    ensures ok ==> f.Valid() && StepDone(f.vol.g, old(f.vol.cache.State()), f.vol.cache.State(),
                                         old(f.Snap()), f.Snap(), old(ModeOf(f)), cmd, out)
    ensures f.vol.cache.card.faults >= old(f.vol.cache.card.faults)
    ensures !ok ==>
              f.vol.cache.Excused(old(f.vol.cache.card.faults)) || AllInUse(Fat(f.vol.g, f.vol.cache.disk))
              || !Allowed(ContentOf(f.vol.g, old(f.vol.cache.disk), old(f.Snap())), old(ModeOf(f)), cmd)
  {
    hide Fat, Layout.Fits, SdVolume.Valid, Good, Spares, StepDone;
    assert f !in f.vol.Repr();
    out := [];
    match cmd
    case ReadCmd(_, _) => ok, out := PerformRead(f, cmd);
    case WriteCmd(_, _) => ok := PerformWrite(f, cmd);
    case SeekCmd(_, _) => ok := PerformSeek(f, cmd);
    case TruncateCmd(_, _) => ok := PerformTruncate(f, cmd);
    case SyncCmd(_) => ok := PerformSync(f, cmd);
  }

  /** A program with some files open, all different and on the same volume. A file that is removed
      leaves the list. */
  class Program {
    const vol: SdVolume
    var files: seq<SdFile>

    ghost predicate Wired()
      reads this
    {
      && (forall i, j :: 0 <= i < |files| && 0 <= j < |files| && i != j ==> files[i] != files[j])
      && (forall i :: 0 <= i < |files| ==> files[i].vol == vol)
    }

    ghost function Objects(): set<object>
      reads this
    {
      set f | f in files
    }

    ghost function States(): (fs: seq<FileState>)
      reads this, Objects()
      ensures |fs| == |files| && forall i :: 0 <= i < |files| ==> fs[i] == files[i].Snap()
    {
      seq(|files|, i requires 0 <= i < |files| reads this, Objects() => files[i].Snap())
    }

    /** How the files were opened. */
    ghost function Modes(): (ms: seq<Mode>)
      reads this, Objects()
      ensures |ms| == |files| && forall i :: 0 <= i < |files| ==> ms[i] == ModeOf(files[i])
    {
      seq(|files|, i requires 0 <= i < |files| reads this, Objects() => ModeOf(files[i]))
    }

    ghost predicate Valid()
      reads this, Objects(), vol.Repr()
      ensures Valid() ==> vol.Valid() && Wired()
    {
      && Wired() && vol.Valid() && (forall i :: 0 <= i < |files| ==> files[i].fileType == Normal)
      && Together(vol.g, vol.cache.State(), States())
    }

    /** The files as the program sees them. */
    ghost function View(): (cs: seq<Content>)
      requires Valid()
      reads this, Objects(), vol.Repr()
      ensures |cs| == |files|
    {
      Views(vol.g, vol.cache.disk, States())
    }

    constructor (volume: SdVolume, handles: seq<SdFile>, ghost fs: seq<FileState>)
      requires volume.Valid()
      requires forall i, j :: 0 <= i < |handles| && 0 <= j < |handles| && i != j ==> handles[i] != handles[j]
      requires forall i :: 0 <= i < |handles| ==> handles[i].vol == volume && handles[i].fileType == Normal
      requires |fs| == |handles| && forall i :: 0 <= i < |handles| ==> fs[i] == handles[i].Snap()
      requires Together(volume.g, volume.cache.State(), fs)
      ensures Valid() && vol == volume && files == handles
    {
      vol, files := volume, handles;
      new;
      hide Fat, Layout.Fits, SdVolume.Valid, Together;
      assert States() == fs;
    }

    /** All files but number `i` are good and as the program should see them. */
    ghost predicate OthersAre(cs: seq<Content>, i: nat)
      requires vol.Valid() && |cs| == |files|
      reads this, Objects(), vol.Repr()
    {
      forall j :: 0 <= j < |files| && j != i ==>
        Good(vol.g, vol.cache.State(), files[j].Snap()) && ContentOf(vol.g, vol.cache.disk, files[j].Snap()) == cs[j]
    }

    /** The card alone, without the cache, holds these bytes as file number `i`. */
    ghost predicate OnCardAs(i: nat, data: seq<byte>)
      requires i < |files|
      reads this, Objects(), vol.Repr()
    {
      var f := files[i];
      && vol.g.Fits(|vol.cache.card.blocks|) && f.dirBlock < |vol.cache.card.blocks| && f.dirIndex < 16
      && OnCard(vol.g, vol.cache.card.blocks, f.dirBlock, f.dirIndex, data)
    }

    ghost predicate CardHolds(i: nat)
      requires Valid()
      reads this, Objects(), vol.Repr()
    {
      i < |files| && OnCardAs(i, View()[i].data)
    }

    lemma HeldOnCard(i: nat)
      requires Valid() && CardHolds(i)
      ensures i < |files| && OnCardAs(i, View()[i].data)
    {
      hide Fat, Layout.Fits, SdVolume.Valid, Program.Valid, Program.OnCardAs;
    }

    lemma SyncedFile(i: nat)
      requires Valid() && i < |files| && !vol.cache.dirty && !files[i].dirDirty
      ensures OnCardAs(i, View()[i].data)
    {
      hide Fat, Layout.Fits, SdVolume.Valid, OnCard, FileBytes, Sound;
      files[i].ClosedOut();
      SyncedIsOnCard(vol.g, vol.cache.disk, files[i].Snap(), files[i].fileSize);
    }

    /** Carry out one command that leaves its file there. */
    method StepOn(cmd: Command) returns (ok: bool, out: seq<byte>)
      requires Valid() && cmd.file < |files| && !cmd.RemoveCmd?
      modifies Objects(), vol`allocSearchStart, vol.cache.Repr()
      ensures vol.Valid() && Modes() == old(Modes())
      ensures ok ==>
        && Valid() && View() == old(View())[cmd.file := Apply(old(View())[cmd.file], old(Modes())[cmd.file].append,
                                                              cmd)]
        && out == Output(old(View())[cmd.file], cmd)
        && (vol.cache.Stranded() ==>
              old(vol.cache.Stranded()) || Overwrites(old(View())[cmd.file], old(Modes())[cmd.file].append, cmd))
        && (Saves(old(View())[cmd.file], old(Modes())[cmd.file], cmd) ==>
              OnCardAs(cmd.file, View()[cmd.file].data))
      ensures !ok ==> OthersAre(old(View()), cmd.file)
      ensures vol.cache.card.faults >= old(vol.cache.card.faults)
      ensures !ok ==>
                vol.cache.Excused(old(vol.cache.card.faults)) || AllInUse(Fat(vol.g, vol.cache.disk))
                || !Allowed(old(View())[cmd.file], old(Modes())[cmd.file], cmd)
    {
      hide Fat, Layout.Fits, SdVolume.Valid, Good, Spares, Confined, Isolated, ContentOf, Together, SdVolume.Repr,
        Program.OnCardAs, Saves, Overwrites, Apply, Output, Allowed, BlockCache.Excused, AllInUse;
      var f := files[cmd.file];
      ghost var g, s, fs, mode := vol.g, vol.cache.State(), States(), ModeOf(f);
      ghost var c := ContentOf(g, s.disk, fs[cmd.file]);
      ok, out := Perform(f, cmd);
      ghost var s' := vol.cache.State();
      StepSpares(g, s, s', fs, cmd.file);
      forall j | 0 <= j < |files| && j != cmd.file
        ensures files[j].Snap() == fs[j] && ModeOf(files[j]) == old(ModeOf(files[j])) && files[j].fileType == Normal
      {
        assert files[j] != f;
      }
      assert States() == fs[cmd.file := f.Snap()];
      assert Modes() == old(Modes());
      if ok {
        StepTogether(g, s, s', fs, cmd.file, f.Snap());
        if Saves(c, mode, cmd) {
          SyncedFile(cmd.file);
        }
      }
    }

    lemma NotInVolume()
      ensures this !in vol.Repr()
    {
    }

    /** Remove a file. */
    method StepRemove(cmd: Command) returns (ok: bool)
      requires Valid() && cmd.file < |files| && cmd.RemoveCmd?
      modifies this`files, Objects(), vol`allocSearchStart, vol.cache.Repr()
      ensures vol.Valid() && Objects() <= old(Objects())
      ensures ok ==>
        && Valid() && View() == Drop(old(View()), cmd.file) && Modes() == Drop(old(Modes()), cmd.file)
        && !vol.cache.dirty
      ensures !ok ==> files == old(files) && OthersAre(old(View()), cmd.file)
      ensures vol.cache.card.faults >= old(vol.cache.card.faults)
      ensures !ok ==>
                vol.cache.Excused(old(vol.cache.card.faults))
                || !Allowed(old(View())[cmd.file], old(Modes())[cmd.file], cmd)
    {
      hide Fat, Layout.Fits, SdVolume.Valid, Good, Spares, Removed, ContentOf, Together, SdVolume.Repr, Drop;
      NotInVolume();
      var f := files[cmd.file];
      ghost var g, s, fs, modes := vol.g, vol.cache.State(), States(), Modes();
      ok := PerformRemove(f, cmd);
      ghost var s' := vol.cache.State();
      StepSpares(g, s, s', fs, cmd.file);
      forall j | 0 <= j < |files| && j != cmd.file
        ensures files[j].Snap() == fs[j] && ModeOf(files[j]) == old(ModeOf(files[j])) && files[j].fileType == Normal
      {
        assert files[j] != f;
      }
      if ok {
        RemoveTogether(g, s, s', fs, cmd.file);
        Forget(cmd.file, fs, modes);
      }
    }

    /** Take a file out of the list. */
    method Forget(i: nat, ghost fs: seq<FileState>, ghost modes: seq<Mode>)
      requires Wired() && vol.Valid() && i < |files| == |fs| == |modes|
      requires forall j :: 0 <= j < |files| && j != i ==>
                 files[j].fileType == Normal && files[j].Snap() == fs[j] && ModeOf(files[j]) == modes[j]
      requires Together(vol.g, vol.cache.State(), Drop(fs, i))
      modifies this`files
      ensures Valid() && Objects() <= old(Objects()) && |files| == |old(files)| - 1
      ensures States() == Drop(fs, i) && Modes() == Drop(modes, i)
      ensures View() == Views(vol.g, vol.cache.disk, Drop(fs, i))
    {
      hide Fat, Layout.Fits, SdVolume.Valid, Together, SdVolume.Repr, SdFile.Snap, ModeOf;
      NotInVolume();
      ghost var was := files;
      files := Drop(files, i);
      forall j | 0 <= j < |files|
        ensures files[j] == was[if j < i then j else j + 1] && files[j].Snap() == Drop(fs, i)[j]
        ensures files[j].fileType == Normal && ModeOf(files[j]) == Drop(modes, i)[j]
      {
      }
      assert States() == Drop(fs, i);
      assert Modes() == Drop(modes, i);
    }

    /** Carry out one command. */
    method Step(cmd: Command) returns (ok: bool, out: seq<byte>)
      requires Valid() && cmd.file < |files|
      modifies this`files, Objects(), vol`allocSearchStart, vol.cache.Repr()
      ensures vol.Valid() && Objects() <= old(Objects())
      ensures ok ==>
        && Valid() && View() == Advance(old(View()), old(Modes()), cmd) && Modes() == Remaining(old(Modes()), cmd)
        && out == Output(old(View())[cmd.file], cmd)
        && (vol.cache.Stranded() ==>
              old(vol.cache.Stranded()) || Overwrites(old(View())[cmd.file], old(Modes())[cmd.file].append, cmd))
        && (Saves(old(View())[cmd.file], old(Modes())[cmd.file], cmd) ==> CardHolds(cmd.file))
      ensures !ok ==> files == old(files) && OthersAre(old(View()), cmd.file)
      ensures vol.cache.card.faults >= old(vol.cache.card.faults)
      ensures !ok ==>
                vol.cache.Excused(old(vol.cache.card.faults)) || AllInUse(Fat(vol.g, vol.cache.disk))
                || !Allowed(old(View())[cmd.file], old(Modes())[cmd.file], cmd)
    {
      hide Fat, Layout.Fits, SdVolume.Valid, Program.Valid, Good, Together, Apply, SdVolume.Repr, Program.OnCardAs;
      if cmd.RemoveCmd? {
        ok := StepRemove(cmd);
        out := [];
      } else {
        ok, out := StepOn(cmd);
      }
    }

    /** Run a script until its end or until a command fails. As far as it got, every file is
        what the script makes of a byte sequence and a position, and it gave back what those
        give. When a command fails, the other files are still as they should be. A script
        that only appends never strands the cache, whatever it truncates and removes, and after
        a final sync the card alone holds the file. */
    method Run(script: seq<Command>) returns (done: nat, outs: seq<seq<byte>>)
      requires Valid() && Addresses(script, |files|)
      modifies this`files, Objects(), vol`allocSearchStart, vol.cache.Repr()
      ensures vol.Valid() && done <= |script|
      ensures outs == Outputs(old(View()), old(Modes()), script, done)
      ensures |files| == Left(|old(files)|, script, done)
      ensures done == |script| ==>
                Valid() && View() == After(old(View()), old(Modes()), script, done)
                && Modes() == ModesAfter(old(Modes()), script, done)
      ensures done < |script| ==>
        var i := script[done].file;
        vol.cache.Excused(old(vol.cache.card.faults)) || AllInUse(Fat(vol.g, vol.cache.disk))
        || !Allowed(After(old(View()), old(Modes()), script, done)[i], ModesAfter(old(Modes()), script, done)[i],
                    script[done])
      ensures done < |script| ==> OthersAre(After(old(View()), old(Modes()), script, done), script[done].file)
      ensures done == |script| && AppendsOnly(old(View()), old(Modes()), script, done) && !old(vol.cache.Stranded()) ==>
                !vol.cache.Stranded()
      ensures done == |script| > 0 && LastSaves(old(View()), old(Modes()), script, done) ==>
                var i := script[|script| - 1].file;
                i < |files| && OnCardAs(i, After(old(View()), old(Modes()), script, done)[i].data)
    {
      hide Fat, Layout.Fits, SdVolume.Valid, Program.Valid, Good, Together, Apply, Output, Overwrites, After, Outputs,
        AppendsOnly, LastSaves, Saves, Program.OnCardAs, ModesAfter, Advance, Remaining, Left, Program.CardHolds,
        Program.View, Program.Modes, Program.States, Program.Wired, Program.OthersAre;
      ghost var cs, modes := View(), Modes();
      done, outs := 0, [];
      ScriptStart(cs, modes, script);
      while done < |script|
        invariant Valid() && done <= |script| && Objects() <= old(Objects())
        invariant vol.cache.card.faults >= old(vol.cache.card.faults)
        invariant Modes() == ModesAfter(modes, script, done)
        invariant outs == Outputs(cs, modes, script, done) && View() == After(cs, modes, script, done)
        invariant AppendsOnly(cs, modes, script, done) && !old(vol.cache.Stranded()) ==> !vol.cache.Stranded()
        invariant done > 0 && LastSaves(cs, modes, script, done) ==> CardHolds(script[done - 1].file)
      {
        ScriptNext(cs, modes, script, done);
        SavesNext(cs, modes, script, done);
        var ok, out := Step(script[done]);
        if !ok {
          return;
        }
        done, outs := done + 1, outs + [out];
      }
      if done > 0 && LastSaves(cs, modes, script, done) {
        HeldOnCard(script[done - 1].file);
      }
    }
  }
}
