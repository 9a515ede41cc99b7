/** A directory as running processes see it, and what a crash may leave of it.

    Directory changes reach the disk in an unknown order until the directory is
    synced, and file contents are arbitrary after a crash until the file is. */
module Images {
  import opened Bytes
  import opened Documents

  /** Names the caller knows, and names made unique from a pattern. */
  datatype Name = Named(name: ByteString) | Unique(pattern: ByteString, suffix: nat)

  datatype File = File(bytes: ByteString, mode: nat)

  /** `earlier` holds the entries a name had since the last directory sync, other
      than the present one; `stable` the files whose contents are on disk. */
  datatype Image = Image(
    live: map<Name, nat>,
    earlier: map<Name, set<Option<nat>>>,
    files: map<nat, File>,
    stable: set<nat>)

  function EntryOf(image: Image, name: Name): Option<nat> {
    if name in image.live then Some(image.live[name]) else None
  }

  /** The entries a crash may leave for a name. */
  function Possible(image: Image, name: Name): set<Option<nat>> {
    {EntryOf(image, name)} + if name in image.earlier then image.earlier[name] else {}
  }

  /** Every entry is a file. */
  ghost predicate WellFormed(image: Image) {
    forall name, inode :: Some(inode) in Possible(image, name) ==> inode in image.files
  }

  /** What readers see under the name. */
  function Live(image: Image, name: Name): Revision {
    if name in image.live && image.live[name] in image.files
    then Revision(true, image.files[image.live[name]].bytes)
    else MISSING
  }

  /** The revision an entry may read as after a crash. */
  predicate Yields(image: Image, entry: Option<nat>, revision: Revision) {
    match entry
    case None => revision == MISSING
    case Some(inode) =>
      && revision.present
      && (inode in image.stable && inode in image.files ==> revision.bytes == image.files[inode].bytes)
  }

  ghost predicate CrashOutcome(image: Image, name: Name, revision: Revision) {
    exists entry :: entry in Possible(image, name) && Yields(image, entry, revision)
  }

  // ---------------------------------------------------------------------------
  // Changes

  function WithEntry(image: Image, name: Name, entry: Option<nat>): Image {
    Image(if entry.Some? then image.live[name := entry.value] else image.live - {name},
          image.earlier[name := Possible(image, name)],
          image.files, image.stable)
  }

  function WithFile(image: Image, inode: nat, file: File): Image {
    image.(files := image.files[inode := file], stable := image.stable - {inode})
  }

  function Renamed(image: Image, from: Name, to: Name): Image
    requires from in image.live
  {
    WithEntry(WithEntry(image, to, Some(image.live[from])), from, None)
  }

  function FileSynced(image: Image, inode: nat): Image {
    image.(stable := image.stable + {inode})
  }

  function DirectorySynced(image: Image): Image {
    image.(earlier := map[])
  }

  // ---------------------------------------------------------------------------
  // What the changes mean for one name

  /** Nothing about `name` has changed, before or after a crash. */
  ghost predicate Untouched(before: Image, after: Image, name: Name) {
    && EntryOf(after, name) == EntryOf(before, name)
    && Possible(after, name) == Possible(before, name)
    && forall inode :: Some(inode) in Possible(before, name) ==>
         && (inode in after.stable <==> inode in before.stable)
         && (inode in after.files <==> inode in before.files)
         && (inode in before.files ==> after.files[inode] == before.files[inode])
  }

  lemma UntouchedOnward(a: Image, b: Image, c: Image, name: Name)
    requires Untouched(a, b, name) && Untouched(b, c, name)
    ensures Untouched(a, c, name)
  {}

  lemma UntouchedOutcomes(before: Image, after: Image, name: Name)
    requires Untouched(before, after, name)
    ensures Live(after, name) == Live(before, name)
    ensures forall revision :: CrashOutcome(after, name, revision) <==> CrashOutcome(before, name, revision)
  {
    forall revision ensures CrashOutcome(after, name, revision) <==> CrashOutcome(before, name, revision) {
      if CrashOutcome(before, name, revision) {
        var entry :| entry in Possible(before, name) && Yields(before, entry, revision);
        assert entry in Possible(after, name) && Yields(after, entry, revision);
      }
      if CrashOutcome(after, name, revision) {
        var entry :| entry in Possible(after, name) && Yields(after, entry, revision);
        assert entry in Possible(before, name) && Yields(before, entry, revision);
      }
    }
  }

  lemma OtherEntry(image: Image, name: Name, other: Name, entry: Option<nat>)
    requires other != name
    ensures Untouched(image, WithEntry(image, other, entry), name)
  {}

  lemma OtherFile(image: Image, name: Name, inode: nat, file: File)
    requires Some(inode) !in Possible(image, name)
    ensures Untouched(image, WithFile(image, inode, file), name)
    ensures Untouched(image, FileSynced(image, inode), name)
  {}

  lemma EntryPossible(image: Image, name: Name, entry: Option<nat>)
    ensures Possible(WithEntry(image, name, entry), name) == {entry} + Possible(image, name)
    ensures EntryOf(WithEntry(image, name, entry), name) == entry
  {}

  /** A new entry adds just its own outcomes. */
  lemma EntryOutcomes(image: Image, name: Name, entry: Option<nat>, revision: Revision)
    ensures CrashOutcome(WithEntry(image, name, entry), name, revision) <==>
      CrashOutcome(image, name, revision) || Yields(image, entry, revision)
  {
    var after := WithEntry(image, name, entry);
    EntryPossible(image, name, entry);
    if Yields(image, entry, revision) {
      assert entry in Possible(after, name) && Yields(after, entry, revision);
    }
    if CrashOutcome(image, name, revision) {
      var e :| e in Possible(image, name) && Yields(image, e, revision);
      assert e in Possible(after, name) && Yields(after, e, revision);
    }
    if CrashOutcome(after, name, revision) {
      var e :| e in Possible(after, name) && Yields(after, e, revision);
      assert Yields(image, e, revision) && (e == entry || e in Possible(image, name));
    }
  }

  /** Renaming a synced file onto a name adds exactly that file as an outcome. */
  lemma RenamedOutcomes(image: Image, from: Name, to: Name, revision: Revision)
    requires from in image.live && from != to
    requires image.live[from] in image.files && image.live[from] in image.stable
    ensures var bytes := image.files[image.live[from]].bytes;
      && Live(Renamed(image, from, to), to) == Revision(true, bytes)
      && (CrashOutcome(Renamed(image, from, to), to, revision) <==>
            CrashOutcome(image, to, revision) || revision == Revision(true, bytes))
  {
    hide CrashOutcome, Yields, Possible;
    var inode := image.live[from];
    var middle := WithEntry(image, to, Some(inode));
    EntryOutcomes(image, to, Some(inode), revision);
    OtherEntry(middle, to, from, None);
    UntouchedOutcomes(middle, Renamed(image, from, to), to);
    StableYields(image, inode, revision);
  }

  lemma StableYields(image: Image, inode: nat, revision: Revision)
    requires inode in image.stable && inode in image.files
    ensures Yields(image, Some(inode), revision) <==> revision == Revision(true, image.files[inode].bytes)
  {}

  /** After a directory sync a name has just its live entry. */
  lemma SyncedOutcomes(image: Image, name: Name, revision: Revision)
    requires name in image.live ==> image.live[name] in image.files && image.live[name] in image.stable
    ensures Live(DirectorySynced(image), name) == Live(image, name)
    ensures CrashOutcome(DirectorySynced(image), name, revision) <==> revision == Live(image, name)
  {
    var after := DirectorySynced(image);
    assert Possible(after, name) == {EntryOf(image, name)};
    if revision == Live(image, name) {
      assert EntryOf(image, name) in Possible(after, name) && Yields(after, EntryOf(image, name), revision);
    }
  }

  // ---------------------------------------------------------------------------
  // Safety of a run

  /** The name reads, now and after a crash, as it did before or as `wanted`. */
  ghost predicate Safe(before: Image, image: Image, name: Name, wanted: Revision) {
    && (Live(image, name) == Live(before, name) || Live(image, name) == wanted)
    && forall revision :: CrashOutcome(image, name, revision) ==>
         CrashOutcome(before, name, revision) || revision == wanted
  }

  lemma UntouchedIsSafe(before: Image, image: Image, name: Name, wanted: Revision)
    requires Untouched(before, image, name)
    ensures Safe(before, image, name, wanted)
  {
    UntouchedOutcomes(before, image, name);
  }

  /** Every image after `start` is safe. */
  ghost predicate SafeRun(before: Image, start: seq<Image>, trace: seq<Image>, name: Name, wanted: Revision) {
    start <= trace && forall k :: |start| <= k < |trace| ==> Safe(before, trace[k], name, wanted)
  }

  /** No image after `start` has touched the name. */
  ghost predicate Quiet(before: Image, start: seq<Image>, trace: seq<Image>, name: Name) {
    start <= trace && forall k :: |start| <= k < |trace| ==> Untouched(before, trace[k], name)
  }

  lemma QuietStart(before: Image, start: seq<Image>, name: Name)
    ensures Quiet(before, start, start, name)
  {}

  lemma QuietStep(before: Image, start: seq<Image>, trace: seq<Image>, image: Image, name: Name)
    requires Quiet(before, start, trace, name) && Untouched(before, image, name)
    ensures Quiet(before, start, trace + [image], name)
  {}

  lemma SafeStep(before: Image, start: seq<Image>, trace: seq<Image>, image: Image, name: Name, wanted: Revision)
    requires SafeRun(before, start, trace, name, wanted) && Safe(before, image, name, wanted)
    ensures SafeRun(before, start, trace + [image], name, wanted)
  {}

  lemma QuietIsSafe(before: Image, start: seq<Image>, trace: seq<Image>, name: Name, wanted: Revision)
    requires Quiet(before, start, trace, name)
    ensures SafeRun(before, start, trace, name, wanted)
  {
    hide Untouched, Safe;
    forall k | |start| <= k < |trace| ensures Safe(before, trace[k], name, wanted) {
      UntouchedIsSafe(before, trace[k], name, wanted);
    }
  }
}
