/** `replaceDocument` and `removeDocument` (`src/document_store.cpp:108-253`), and
    `writeAtomically` with `TemporaryFile` (`src/store.cpp:34-99`,
    `src/store.cpp:178-231`), over one directory with faults and crashes. */
module Commit {
  import opened Bytes
  import opened Documents
  import opened Images
  import opened SystemCalls

  // ---------------------------------------------------------------------------
  // Preparing a temporary file leaves every other name alone

  /** `inode` is a file only `temporary` names, and `target` is as it was `before`. */
  ghost predicate Preparing(before: Image, image: Image, target: Name, temporary: Name, inode: nat) {
    && Untouched(before, image, target) && target != temporary
    && temporary in image.live && image.live[temporary] == inode && inode in image.files
    && Some(inode) !in Possible(image, target)
    && image.live.Keys == before.live.Keys + {temporary} && temporary !in before.live
  }

  lemma Created(before: Image, image: Image, target: Name, pattern: ByteString, next: nat)
    requires Known(before, next) && Untouched(before, image, target) && target.Named?
    requires image.live == before.live && Known(image, next)
    ensures var temporary := Unique(pattern, next);
      && Preparing(before, WithEntry(WithFile(image, next, File([], PRIVATE_MODE)), temporary, Some(next)), target, temporary, next)
      && WithFile(image, next, File([], PRIVATE_MODE)).files[next].bytes == []
  {
    var temporary := Unique(pattern, next);
    var middle := WithFile(image, next, File([], PRIVATE_MODE));
    OtherFile(image, target, next, File([], PRIVATE_MODE));
    OtherEntry(middle, target, temporary, Some(next));
    UntouchedOnward(before, image, middle, target);
    UntouchedOnward(before, middle, WithEntry(middle, temporary, Some(next)), target);
  }

  lemma FileChanged(before: Image, image: Image, target: Name, temporary: Name, inode: nat, file: File)
    requires Preparing(before, image, target, temporary, inode)
    ensures Preparing(before, WithFile(image, inode, file), target, temporary, inode)
    ensures Preparing(before, FileSynced(image, inode), target, temporary, inode)
  {
    OtherFile(image, target, inode, file);
    UntouchedOnward(before, image, WithFile(image, inode, file), target);
    UntouchedOnward(before, image, FileSynced(image, inode), target);
  }

  lemma UntouchedSelf(image: Image, target: Name)
    ensures Untouched(image, image, target)
  {}

  /** Removing the temporary entry brings back the names there were. */
  lemma Discarded(before: Image, image: Image, target: Name, temporary: Name, inode: nat)
    requires Preparing(before, image, target, temporary, inode)
    ensures Untouched(before, WithEntry(image, temporary, None), target)
    ensures WithEntry(image, temporary, None).live.Keys == before.live.Keys
  {
    OtherEntry(image, target, temporary, None);
    UntouchedOnward(before, image, WithEntry(image, temporary, None), target);
  }

  lemma PreparedIsUntouched(before: Image, image: Image, target: Name, temporary: Name, inode: nat)
    requires Preparing(before, image, target, temporary, inode)
    ensures Untouched(before, image, target)
  {}

  /** The whole outcome of a call that may replace `name`: safe throughout, and
      either untouched or replaced at the end. */
  ghost predicate RenamedInto(before: Image, image: Image, target: Name, bytes: ByteString) {
    && Live(image, target) == Revision(true, bytes)
    && image.live.Keys == before.live.Keys + {target}
    && forall revision :: CrashOutcome(image, target, revision) <==>
         CrashOutcome(before, target, revision) || revision == Revision(true, bytes)
  }

  lemma RenameReplaces(before: Image, image: Image, target: Name, temporary: Name, inode: nat)
    requires Preparing(before, image, target, temporary, inode) && inode in image.stable
    ensures RenamedInto(before, Renamed(image, temporary, target), target, image.files[inode].bytes)
    ensures EntryOf(Renamed(image, temporary, target), target) == Some(inode)
  {
    var bytes := image.files[inode].bytes;
    UntouchedOutcomes(before, image, target);
    forall revision ensures CrashOutcome(Renamed(image, temporary, target), target, revision) <==>
      CrashOutcome(before, target, revision) || revision == Revision(true, bytes)
    {
      RenamedOutcomes(image, temporary, target, revision);
    }
    RenamedOutcomes(image, temporary, target, MISSING);
  }

  lemma ReplacedIsSafe(before: Image, image: Image, target: Name, bytes: ByteString)
    requires RenamedInto(before, image, target, bytes)
    ensures Safe(before, image, target, Revision(true, bytes))
  {}

  /** The new bytes are all a crash can leave. */
  ghost predicate Durable(image: Image, target: Name, revision: Revision) {
    forall r :: CrashOutcome(image, target, r) <==> r == revision
  }

  lemma SyncMakesDurable(image: Image, target: Name)
    requires target in image.live ==> image.live[target] in image.files && image.live[target] in image.stable
    ensures Live(DirectorySynced(image), target) == Live(image, target)
    ensures Durable(DirectorySynced(image), target, Live(image, target))
  {
    forall r ensures CrashOutcome(DirectorySynced(image), target, r) <==> r == Live(image, target) {
      SyncedOutcomes(image, target, r);
    }
    SyncedOutcomes(image, target, MISSING);
  }

  // ---------------------------------------------------------------------------
  // The document store's temporary

  /** Owns a temporary entry until the path is cleared. */
  class Temporary {
    var path: Option<Name>

    constructor ()
      ensures path == None
    {
      path := None;
    }

    method Destroy(disk: Disk)
      requires disk.Valid()
      modifies disk
      ensures disk.Valid() && disk.script == old(disk.script) && disk.next == old(disk.next)
      ensures path.None? ==> disk.image == old(disk.image) && disk.trace == old(disk.trace)
      ensures path.Some? ==>
        disk.image == WithEntry(old(disk.image), path.value, None) && disk.trace == old(disk.trace) + [disk.image]
    {
      if path.Some? {
        disk.Discard(path.value);
      }
    }
  }

  /** `rest` is what is left of the script after some calls. */
  predicate Consumed(script: seq<Event>, rest: seq<Event>) {
    |rest| <= |script| && rest == script[|script| - |rest|..]
  }

  /** None of those calls has failed, nor written nothing if that counts. */
  predicate NoneFailed(script: seq<Event>, rest: seq<Event>, strict: bool) {
    forall i :: 0 <= i < |script| - |rest| ==> script[i] != Fault && (strict ==> script[i] != Short(0))
  }

  lemma NothingConsumed(script: seq<Event>, strict: bool)
    ensures Consumed(script, script) && NoneFailed(script, script, strict)
  {}

  lemma OneMoreCall(script: seq<Event>, rest: seq<Event>, strict: bool)
    requires Consumed(script, rest) && NoneFailed(script, rest, strict)
    ensures Consumed(script, Disk.After(rest))
    ensures NoneFailed(script, Disk.After(rest), strict) <==>
      Disk.Next(rest) != Fault && (strict ==> Disk.Next(rest) != Short(0))
  {
    if rest != [] {
      assert rest[0] == script[|script| - |rest|];
    }
  }

  /** The write loop of `replaceDocument`: it goes on after interrupted and short writes,
      and fails exactly at a failed write or one of nothing. */
  method WriteDocument(disk: Disk, inode: nat, bytes: ByteString, ghost before: Image, ghost start: seq<Image>,
                       ghost target: Name, ghost temporary: Name) returns (ok: bool)
    requires disk.Valid() && Preparing(before, disk.image, target, temporary, inode)
    requires disk.image.files[inode].bytes == [] && Quiet(before, start, disk.trace, target)
    modifies disk
    ensures disk.Valid() && Preparing(before, disk.image, target, temporary, inode)
    ensures Quiet(before, start, disk.trace, target)
    ensures ok ==> disk.image.files[inode].bytes == bytes
    ensures Faultless(old(disk.script)) ==> ok && Faultless(disk.script)
    ensures Consumed(old(disk.script), disk.script) && (ok <==> NoneFailed(old(disk.script), disk.script, true))
  {
    hide Quiet, Untouched, Possible, Known, Consumed, NoneFailed;
    NothingConsumed(disk.script, true);
    var offset := 0;
    while offset < |bytes|
      invariant disk.Valid() && Preparing(before, disk.image, target, temporary, inode)
      invariant Quiet(before, start, disk.trace, target)
      invariant 0 <= offset <= |bytes| && disk.image.files[inode].bytes == bytes[..offset]
      invariant Faultless(old(disk.script)) ==> Faultless(disk.script)
      invariant Consumed(old(disk.script), disk.script) && NoneFailed(old(disk.script), disk.script, true)
      decreases |disk.script|, |bytes| - offset
    {
      ghost var earlier, trace := disk.image, disk.trace;
      OneMoreCall(old(disk.script), disk.script, true);
      var written, interrupted := disk.Write(inode, bytes[offset..]);
      WroteSome(before, earlier, disk.image, target, temporary, inode, bytes, offset, written);
      PreparedIsUntouched(before, disk.image, target, temporary, inode);
      QuietStep(before, start, trace, disk.image, target);
      if interrupted {
        continue;
      }
      if written <= 0 {
        return false;
      }
      offset := offset + written;
    }
    return true;
  }

  lemma WroteSome(before: Image, earlier: Image, image: Image, target: Name, temporary: Name, inode: nat,
                  bytes: ByteString, offset: nat, written: int)
    requires Preparing(before, earlier, target, temporary, inode) && offset <= |bytes|
    requires earlier.files[inode].bytes == bytes[..offset] && -1 <= written <= |bytes| - offset
    requires written == -1 ==> image == earlier
    requires written >= 0 ==> image == WithFile(earlier, inode,
      File(earlier.files[inode].bytes + bytes[offset..][..written], earlier.files[inode].mode))
    ensures Preparing(before, image, target, temporary, inode)
    ensures image.files[inode].bytes == bytes[..offset + if written < 0 then 0 else written]
  {
    if written >= 0 {
      FileChanged(before, earlier, target, temporary, inode,
                  File(bytes[..offset] + bytes[offset..][..written], earlier.files[inode].mode));
      assert bytes[..offset] + bytes[offset..][..written] == bytes[..offset + written];
    }
  }

  // ---------------------------------------------------------------------------
  // replaceDocument

  /** What a commit guarantees at its return, whatever failed. */
  ghost predicate Committed(before: Image, image: Image, target: Name, bytes: ByteString, mode: nat, status: Status) {
    if status == Success then
      && Live(image, target) == Revision(true, bytes) && Durable(image, target, Revision(true, bytes))
      && image.live.Keys == before.live.Keys + {target} && HasMode(image, target, mode)
    else if status == DurabilityFailure then
      RenamedInto(before, image, target, bytes) && HasMode(image, target, mode)
    else Untouched(before, image, target) && image.live.Keys == before.live.Keys
  }

  predicate HasMode(image: Image, target: Name, mode: nat) {
    target in image.live && image.live[target] in image.files && image.files[image.live[target]].mode == mode
  }

  /** The mode a replacement gets: that of the file it replaces, or private. */
  function ModeFor(image: Image, target: Name, current: Revision): nat {
    if current.present && target in image.live && image.live[target] in image.files
    then image.files[image.live[target]].mode % MODE_BITS
    else PRIVATE_MODE
  }

  lemma SameFile(before: Image, image: Image, target: Name)
    requires Untouched(before, image, target)
    ensures Live(image, target) == Live(before, target)
    ensures target in image.live <==> target in before.live
    ensures target in before.live && before.live[target] in before.files ==>
      && image.live[target] == before.live[target] && image.live[target] in image.files
      && image.files[image.live[target]] == before.files[before.live[target]]
  {
    assert target in before.live ==> Some(before.live[target]) in Possible(before, target);
  }

  /** Write, mode and sync the temporary. */
  method FillTemporary(disk: Disk, inode: nat, mode: nat, bytes: ByteString, ghost before: Image,
                       ghost start: seq<Image>, ghost target: Name, ghost name: Name) returns (ok: bool)
    requires disk.Valid() && Preparing(before, disk.image, target, name, inode)
    requires disk.image.files[inode].bytes == [] && Quiet(before, start, disk.trace, target)
    modifies disk
    ensures disk.Valid() && Preparing(before, disk.image, target, name, inode)
    ensures Quiet(before, start, disk.trace, target)
    ensures ok ==> inode in disk.image.stable && disk.image.files[inode] == File(bytes, mode)
    ensures Faultless(old(disk.script)) ==> ok && Faultless(disk.script)
  {
    hide Quiet, Untouched, Possible, Known;
    ok := WriteDocument(disk, inode, bytes, before, start, target, name);
    if !ok {
      return;
    }
    ghost var trace := disk.trace;
    FileChanged(before, disk.image, target, name, inode, File(bytes, mode));
    ok := disk.ChangeMode(inode, mode);
    PreparedIsUntouched(before, disk.image, target, name, inode);
    QuietStep(before, start, trace, disk.image, target);
    if !ok {
      return;
    }
    trace := disk.trace;
    FileChanged(before, disk.image, target, name, inode, File(bytes, mode));
    ok := disk.SyncFile(inode);
    PreparedIsUntouched(before, disk.image, target, name, inode);
    QuietStep(before, start, trace, disk.image, target);
  }

  /** Open the directory, and check that the target still is the current revision
      and the path still leads to it. */
  method CheckRevision(disk: Disk, target: Name, current: Revision, retargeted: bool,
                       ghost before: Image, ghost start: seq<Image>) returns (status: Status)
    requires disk.Valid() && Untouched(before, disk.image, target) && Quiet(before, start, disk.trace, target)
    modifies disk
    ensures disk.Valid() && disk.image == old(disk.image) && Quiet(before, start, disk.trace, target)
    ensures status == Success || status == StorageFailure || status == RevisionChanged
    ensures status == Success ==> Live(before, target) == current && !retargeted
    ensures Faultless(old(disk.script)) ==>
      && Faultless(disk.script)
      && status == if Live(before, target) == current && !retargeted then Success else RevisionChanged
  {
    hide Quiet, Untouched, Possible, Known;
    SameFile(before, disk.image, target);
    ghost var trace := disk.trace;
    var probed := disk.Probe();
    QuietStep(before, start, trace, disk.image, target);
    if !probed {
      return StorageFailure;
    }
    trace := disk.trace;
    var latest := disk.Read(target);
    QuietStep(before, start, trace, disk.image, target);
    if latest.None? || latest.value != current || retargeted {
      return RevisionChanged;
    }
    return Success;
  }

  /** Check that an existing target still is the file it was. */
  method CheckMetadata(disk: Disk, target: Name, current: Revision, metadata: Option<(nat, nat)>,
                       ghost before: Image, ghost start: seq<Image>) returns (status: Status)
    requires disk.Valid() && Untouched(before, disk.image, target) && Quiet(before, start, disk.trace, target)
    requires current.present ==>
      && target in before.live && before.live[target] in before.files
      && metadata == Some((before.live[target], before.files[before.live[target]].mode))
    modifies disk
    ensures disk.Valid() && disk.image == old(disk.image) && Quiet(before, start, disk.trace, target)
    ensures status == Success || status == RevisionChanged
    ensures Faultless(old(disk.script)) ==> Faultless(disk.script) && status == Success
  {
    hide Quiet, Untouched, Possible, Known;
    SameFile(before, disk.image, target);
    if current.present {
      ghost var trace := disk.trace;
      var latestMetadata := disk.Stat(target);
      QuietStep(before, start, trace, disk.image, target);
      if latestMetadata.None? || latestMetadata != metadata {
        return RevisionChanged;
      }
    }
    return Success;
  }

  lemma DurableIsSafe(before: Image, image: Image, target: Name, wanted: Revision)
    requires Live(image, target) == wanted && Durable(image, target, wanted)
    ensures Safe(before, image, target, wanted)
  {}

  /** Rename the prepared file onto the target and sync the directory. */
  method RenameAndSync(disk: Disk, temporary: Temporary, target: Name, ghost inode: nat, ghost bytes: ByteString,
                       ghost mode: nat, ghost before: Image, ghost start: seq<Image>) returns (status: Status)
    requires disk.Valid() && target.Named? && temporary.path.Some?
    requires Preparing(before, disk.image, target, temporary.path.value, inode)
    requires inode in disk.image.stable && disk.image.files[inode] == File(bytes, mode)
    requires SafeRun(before, start, disk.trace, target, Revision(true, bytes))
    modifies disk, temporary
    ensures disk.Valid() && SafeRun(before, start, disk.trace, target, Revision(true, bytes))
    ensures status == Success || status == DurabilityFailure || status == StorageFailure
    ensures status != StorageFailure ==>
      temporary.path.None? && Committed(before, disk.image, target, bytes, mode, status)
    ensures status == StorageFailure ==>
      temporary.path == old(temporary.path) && Preparing(before, disk.image, target, temporary.path.value, inode)
    ensures Faultless(old(disk.script)) ==> status == Success
  {
    hide SafeRun, Untouched, Possible, Safe, CrashOutcome, Known, Durable;
    ghost var prepared, trace := disk.image, disk.trace;
    var renamed := disk.Rename(temporary.path.value, target);
    if !renamed {
      PreparedIsUntouched(before, prepared, target, temporary.path.value, inode);
      UntouchedIsSafe(before, prepared, target, Revision(true, bytes));
      SafeStep(before, start, trace, disk.image, target, Revision(true, bytes));
      return StorageFailure;
    }
    RenameReplaces(before, prepared, target, temporary.path.value, inode);
    temporary.path := None;
    ReplacedIsSafe(before, disk.image, target, bytes);
    SafeStep(before, start, trace, disk.image, target, Revision(true, bytes));
    ghost var live := disk.image;
    trace := disk.trace;
    var synced := disk.SyncDirectory();
    if !synced {
      SafeStep(before, start, trace, disk.image, target, Revision(true, bytes));
      return DurabilityFailure;
    }
    SyncMakesDurable(live, target);
    DurableIsSafe(before, disk.image, target, Revision(true, bytes));
    SafeStep(before, start, trace, disk.image, target, Revision(true, bytes));
    return Success;
  }

  /** The body of `replaceDocument`, before its destructors run. */
  method WriteAndRename(disk: Disk, temporary: Temporary, target: Name, pattern: ByteString, current: Revision,
                        metadata: Option<(nat, nat)>, mode: nat, bytes: ByteString, retargeted: bool,
                        ghost before: Image, ghost start: seq<Image>)
    returns (status: Status, ghost inode: nat)
    requires disk.Valid() && target.Named? && temporary.path.None? && disk.image == before
    requires Quiet(before, start, disk.trace, target)
    requires current.present ==>
      && target in before.live && before.live[target] in before.files
      && metadata == Some((before.live[target], before.files[before.live[target]].mode))
    modifies disk, temporary
    ensures disk.Valid() && SafeRun(before, start, disk.trace, target, Revision(true, bytes))
    ensures temporary.path.None? ==> Committed(before, disk.image, target, bytes, mode, status)
    ensures temporary.path.Some? ==>
      && status != Success && status != DurabilityFailure
      && Preparing(before, disk.image, target, temporary.path.value, inode)
    ensures status == Success || status == DurabilityFailure ==> Live(before, target) == current && !retargeted
    ensures Faultless(old(disk.script)) ==>
      status == if Live(before, target) == current && !retargeted then Success else RevisionChanged
  {
    hide Quiet, SafeRun, Untouched, Possible, Safe, CrashOutcome, Known, Durable;
    inode := 0;
    UntouchedSelf(before, target);
    ghost var trace := disk.trace;
    var created := disk.CreateUnique(pattern);
    if created.None? {
      QuietStep(before, start, trace, disk.image, target);
      QuietIsSafe(before, start, disk.trace, target, Revision(true, bytes));
      return StorageFailure, 0;
    }
    var (name, handle) := created.value;
    inode := handle;
    temporary.path := Some(name);
    Created(before, before, target, pattern, inode);
    PreparedIsUntouched(before, disk.image, target, name, inode);
    QuietStep(before, start, trace, disk.image, target);
    var filled := FillTemporary(disk, handle, mode, bytes, before, start, target, name);
    PreparedIsUntouched(before, disk.image, target, name, inode);
    status := StorageFailure;
    if filled {
      status := CheckRevision(disk, target, current, retargeted, before, start);
    }
    if status == Success {
      status := CheckMetadata(disk, target, current, metadata, before, start);
    }
    QuietIsSafe(before, start, disk.trace, target, Revision(true, bytes));
    if status == Success {
      status := RenameAndSync(disk, temporary, target, inode, bytes, mode, before, start);
    }
  }

  /** Atomic and crash safe under any schedule: at every moment, crashed or not, the
      target reads as before or as the new bytes; success means the new bytes are
      durable, a durability failure that they are live, and any other status that
      the target is untouched. No temporary stays behind. */
  method ReplaceDocument(disk: Disk, target: Name, pattern: ByteString, current: Revision, bytes: ByteString,
                         retargeted: bool) returns (status: Status)
    requires disk.Valid() && target.Named?
    modifies disk
    ensures disk.Valid()
    ensures SafeRun(old(disk.image), old(disk.trace), disk.trace, target, Revision(true, bytes))
    ensures Committed(old(disk.image), disk.image, target, bytes, ModeFor(old(disk.image), target, current), status)
    ensures status == Success || status == DurabilityFailure ==>
      Live(old(disk.image), target) == current && !retargeted
    ensures Faultless(old(disk.script)) && Live(old(disk.image), target) == current ==>
      status == if retargeted then RevisionChanged else Success
  {
    hide Quiet, SafeRun, Untouched, Possible, Safe, CrashOutcome, Durable;
    ghost var before, start := disk.image, disk.trace;
    QuietStart(before, start, target);
    UntouchedSelf(before, target);
    var metadata: Option<(nat, nat)> := None;
    var mode := PRIVATE_MODE;
    if current.present {
      metadata := disk.Stat(target);
      QuietStep(before, start, start, disk.image, target);
      if metadata.None? {
        QuietIsSafe(before, start, disk.trace, target, Revision(true, bytes));
        return StorageFailure;
      }
      mode := metadata.value.1 % MODE_BITS;
    }
    var temporary := new Temporary();
    ghost var inode;
    status, inode := WriteAndRename(disk, temporary, target, pattern, current, metadata, mode, bytes, retargeted, before,
                                    start);
    ghost var image, trace := disk.image, disk.trace;
    temporary.Destroy(disk);
    if temporary.path.Some? {
      Discarded(before, image, target, temporary.path.value, inode);
      UntouchedIsSafe(before, disk.image, target, Revision(true, bytes));
      SafeStep(before, start, trace, disk.image, target, Revision(true, bytes));
    }
  }

  // ---------------------------------------------------------------------------
  // removeDocument

  /** What a removal guarantees at its return. */
  ghost predicate Removed(before: Image, image: Image, target: Name, present: bool, status: Status) {
    if !present || (status != Success && status != DurabilityFailure) then
      Untouched(before, image, target) && image.live.Keys == before.live.Keys
    else
      && Live(image, target) == MISSING && image.live.Keys == before.live.Keys - {target}
      && (status == Success ==> Durable(image, target, MISSING))
      && (status == DurabilityFailure ==>
           forall r :: CrashOutcome(image, target, r) <==> CrashOutcome(before, target, r) || r == MISSING)
  }

  lemma UnlinkRemoves(before: Image, image: Image, target: Name)
    requires Untouched(before, image, target) && image.live.Keys == before.live.Keys
    ensures var after := WithEntry(image, target, None);
      && Removed(before, after, target, true, DurabilityFailure) && Safe(before, after, target, MISSING)
      && target !in after.live
  {
    UntouchedOutcomes(before, image, target);
    forall r ensures CrashOutcome(WithEntry(image, target, None), target, r) <==>
      CrashOutcome(before, target, r) || r == MISSING
    {
      EntryOutcomes(image, target, None, r);
    }
  }

  /** Removal under any schedule: at every moment the target reads as before or as
      missing; success makes the removal durable. */
  method RemoveDocument(disk: Disk, target: Name, current: Revision, retargeted: bool) returns (status: Status)
    requires disk.Valid() && target.Named?
    modifies disk
    ensures disk.Valid()
    ensures SafeRun(old(disk.image), old(disk.trace), disk.trace, target, MISSING)
    ensures Removed(old(disk.image), disk.image, target, current.present, status)
    ensures current.present && (status == Success || status == DurabilityFailure) ==>
      Live(old(disk.image), target) == current && !retargeted
    ensures Faultless(old(disk.script)) && current.present ==>
      status == if Live(old(disk.image), target) == current && !retargeted then Success else RevisionChanged
    ensures !current.present ==> status == Success
  {
    hide Quiet, SafeRun, Untouched, Possible, Safe, CrashOutcome, Durable;
    ghost var before, start := disk.image, disk.trace;
    QuietStart(before, start, target);
    QuietIsSafe(before, start, start, target, MISSING);
    UntouchedSelf(before, target);
    if !current.present {
      return Success;
    }
    status := CheckRevision(disk, target, current, retargeted, before, start);
    QuietIsSafe(before, start, disk.trace, target, MISSING);
    if status != Success {
      return;
    }
    ghost var trace := disk.trace;
    UnlinkRemoves(before, disk.image, target);
    UntouchedIsSafe(before, disk.image, target, MISSING);
    var unlinked := disk.Unlink(target);
    SafeStep(before, start, trace, disk.image, target, MISSING);
    if !unlinked {
      return StorageFailure;
    }
    ghost var live := disk.image;
    trace := disk.trace;
    SyncMakesDurable(live, target);
    var synced := disk.SyncDirectory();
    if !synced {
      SafeStep(before, start, trace, disk.image, target, MISSING);
      return DurabilityFailure;
    }
    DurableIsSafe(before, disk.image, target, MISSING);
    SafeStep(before, start, trace, disk.image, target, MISSING);
    return Success;
  }

  // ---------------------------------------------------------------------------
  // writeAtomically

  /** The temporary file of the older store: a path and a descriptor. */
  class TemporaryFile {
    var path: Option<Name>
    var descriptor: Option<nat>

    constructor ()
      ensures path.None? && descriptor.None?
    {
      path, descriptor := None, None;
    }

    method Create(disk: Disk, pattern: ByteString) returns (ok: bool)
      requires disk.Valid() && path.None? && descriptor.None?
      modifies this, disk
      ensures disk.Valid() && disk.trace == old(disk.trace) + [disk.image]
      ensures disk.script == Disk.After(old(disk.script)) && (ok <==> Disk.Next(old(disk.script)) != Fault)
      ensures !ok ==> disk.image == old(disk.image) && path.None?
      ensures ok ==>
        && path == Some(Unique(pattern, old(disk.next))) && descriptor == Some(old(disk.next))
        && disk.image == WithEntry(WithFile(old(disk.image), old(disk.next), File([], PRIVATE_MODE)),
                                   Unique(pattern, old(disk.next)), Some(old(disk.next)))
    {
      var created := disk.CreateUnique(pattern);
      if created.None? {
        return false;
      }
      path, descriptor := Some(created.value.0), Some(created.value.1);
      return true;
    }

    /** The older write loop: a write of no bytes is tried again too. */
    method WriteAll(disk: Disk, bytes: ByteString, ghost before: Image, ghost start: seq<Image>, ghost target: Name)
      returns (ok: bool)
      requires disk.Valid() && path.Some? && descriptor.Some?
      requires Preparing(before, disk.image, target, path.value, descriptor.value)
      requires disk.image.files[descriptor.value].bytes == [] && Quiet(before, start, disk.trace, target)
      modifies disk
      ensures disk.Valid() && Preparing(before, disk.image, target, path.value, descriptor.value)
      ensures Quiet(before, start, disk.trace, target)
      ensures ok ==> disk.image.files[descriptor.value].bytes == bytes
      ensures Faultless(old(disk.script)) ==> ok && Faultless(disk.script)
      ensures Consumed(old(disk.script), disk.script) && (ok <==> NoneFailed(old(disk.script), disk.script, false))
    {
      hide Quiet, Untouched, Possible, Known, Consumed, NoneFailed;
      NothingConsumed(disk.script, false);
      var offset := 0;
      while offset < |bytes|
        invariant disk.Valid() && Preparing(before, disk.image, target, path.value, descriptor.value)
        invariant Quiet(before, start, disk.trace, target)
        invariant 0 <= offset <= |bytes| && disk.image.files[descriptor.value].bytes == bytes[..offset]
        invariant Faultless(old(disk.script)) ==> Faultless(disk.script)
        invariant Consumed(old(disk.script), disk.script) && NoneFailed(old(disk.script), disk.script, false)
        decreases |disk.script|, |bytes| - offset
      {
        ghost var earlier, trace := disk.image, disk.trace;
        OneMoreCall(old(disk.script), disk.script, false);
        var written, interrupted := disk.Write(descriptor.value, bytes[offset..]);
        WroteSome(before, earlier, disk.image, target, path.value, descriptor.value, bytes, offset, written);
        PreparedIsUntouched(before, disk.image, target, path.value, descriptor.value);
        QuietStep(before, start, trace, disk.image, target);
        if written < 0 {
          if interrupted {
            continue;
          }
          return false;
        }
        offset := offset + written;
      }
      return true;
    }

    method FlushAndClose(disk: Disk, ghost before: Image, ghost start: seq<Image>, ghost target: Name) returns (ok: bool)
      requires disk.Valid() && path.Some? && descriptor.Some?
      requires Preparing(before, disk.image, target, path.value, descriptor.value)
      requires Quiet(before, start, disk.trace, target)
      modifies this`descriptor, disk
      ensures disk.Valid() && Preparing(before, disk.image, target, path.value, old(descriptor.value))
      ensures Quiet(before, start, disk.trace, target) && disk.image.files == old(disk.image.files)
      ensures ok ==> old(descriptor.value) in disk.image.stable && descriptor.None?
      ensures Faultless(old(disk.script)) ==> ok && Faultless(disk.script)
    {
      hide Quiet, Untouched, Possible, Known;
      ghost var trace := disk.trace;
      FileChanged(before, disk.image, target, path.value, descriptor.value, File([], 0));
      ok := disk.SyncFile(descriptor.value);
      PreparedIsUntouched(before, disk.image, target, path.value, descriptor.value);
      QuietStep(before, start, trace, disk.image, target);
      if !ok {
        return;
      }
      trace := disk.trace;
      ok := disk.Probe();
      descriptor := None;
      QuietStep(before, start, trace, disk.image, target);
    }

    method Release()
      modifies this`path
      ensures path.None?
    {
      path := None;
    }

    method Destroy(disk: Disk)
      requires disk.Valid()
      modifies disk
      ensures disk.Valid()
      ensures path.None? ==> disk.image == old(disk.image) && disk.trace == old(disk.trace)
      ensures path.Some? ==>
        disk.image == WithEntry(old(disk.image), path.value, None) && disk.trace == old(disk.trace) + [disk.image]
    {
      if path.Some? {
        disk.Discard(path.value);
      }
    }
  }

  /** The older store's write is just as atomic, but a success only adds the new
      bytes to what a crash may leave: the directory is never synced. */
  method WriteAtomically(disk: Disk, target: Name, pattern: ByteString, bytes: ByteString) returns (ok: bool)
    requires disk.Valid() && target.Named?
    modifies disk
    ensures disk.Valid()
    ensures SafeRun(old(disk.image), old(disk.trace), disk.trace, target, Revision(true, bytes))
    ensures ok ==> RenamedInto(old(disk.image), disk.image, target, bytes)
    ensures !ok ==> Untouched(old(disk.image), disk.image, target) && disk.image.live.Keys == old(disk.image.live.Keys)
    ensures Faultless(old(disk.script)) ==> ok
  {
    hide Quiet, SafeRun, Untouched, Possible, Safe, CrashOutcome, Known;
    ghost var before, start := disk.image, disk.trace;
    QuietStart(before, start, target);
    UntouchedSelf(before, target);
    var temporary := new TemporaryFile();
    var created := temporary.Create(disk, pattern);
    if !created {
      QuietStep(before, start, start, disk.image, target);
      QuietIsSafe(before, start, disk.trace, target, Revision(true, bytes));
      return false;
    }
    ghost var inode := temporary.descriptor.value;
    Created(before, before, target, pattern, inode);
    PreparedIsUntouched(before, disk.image, target, temporary.path.value, inode);
    QuietStep(before, start, start, disk.image, target);
    ok := temporary.WriteAll(disk, bytes, before, start, target);
    if ok {
      ok := temporary.FlushAndClose(disk, before, start, target);
    }
    PreparedIsUntouched(before, disk.image, target, temporary.path.value, inode);
    QuietIsSafe(before, start, disk.trace, target, Revision(true, bytes));
    if ok {
      ghost var prepared, trace := disk.image, disk.trace;
      RenameReplaces(before, prepared, target, temporary.path.value, inode);
      ok := disk.Rename(temporary.path.value, target);
      if ok {
        temporary.Release();
        ReplacedIsSafe(before, disk.image, target, bytes);
      } else {
        UntouchedIsSafe(before, disk.image, target, Revision(true, bytes));
      }
      SafeStep(before, start, trace, disk.image, target, Revision(true, bytes));
    }
    ghost var image, trace := disk.image, disk.trace;
    temporary.Destroy(disk);
    if temporary.path.Some? {
      Discarded(before, image, target, temporary.path.value, inode);
      UntouchedIsSafe(before, disk.image, target, Revision(true, bytes));
      SafeStep(before, start, trace, disk.image, target, Revision(true, bytes));
    }
  }

  /** A success without directory sync is durable exactly when a crash before the call
      could not leave anything but the new bytes either. */
  lemma OldDocumentMayReturn(before: Image, image: Image, target: Name, bytes: ByteString)
    requires RenamedInto(before, image, target, bytes)
    ensures Durable(image, target, Revision(true, bytes)) <==>
      forall r :: CrashOutcome(before, target, r) ==> r == Revision(true, bytes)
    ensures forall r :: CrashOutcome(before, target, r) ==> CrashOutcome(image, target, r)
  {
    hide CrashOutcome;
    if Durable(image, target, Revision(true, bytes)) {
      forall r | CrashOutcome(before, target, r) ensures r == Revision(true, bytes) {
        assert CrashOutcome(image, target, r);
      }
    }
  }

  /** The older store on a durable document with other bytes, without any fault: the
      call succeeds, the new bytes are live, and a crash may still bring the old
      document back. */
  method WriteThatACrashUndoes(disk: Disk, target: Name, pattern: ByteString, bytes: ByteString) returns (ok: bool)
    requires disk.Valid() && target.Named? && Faultless(disk.script)
    requires Durable(disk.image, target, Live(disk.image, target)) && Live(disk.image, target) != Revision(true, bytes)
    modifies disk
    ensures disk.Valid() && ok && Live(disk.image, target) == Revision(true, bytes)
    ensures CrashOutcome(disk.image, target, old(Live(disk.image, target)))
    ensures !Durable(disk.image, target, Revision(true, bytes))
  {
    hide CrashOutcome, SafeRun, Known;
    ghost var before := disk.image;
    ok := WriteAtomically(disk, target, pattern, bytes);
    OldDocumentMayReturn(before, disk.image, target, bytes);
    assert CrashOutcome(before, target, Live(before, target));
  }

  /** Starting from a durable document, a crash during a safe run leaves that
      document or the new one. */
  lemma CrashLeavesOldOrNew(before: Image, start: seq<Image>, trace: seq<Image>, target: Name, wanted: Revision,
                            k: nat, revision: Revision)
    requires SafeRun(before, start, trace, target, wanted) && |start| <= k < |trace|
    requires Durable(before, target, Live(before, target)) && CrashOutcome(trace[k], target, revision)
    ensures revision == Live(before, target) || revision == wanted
  {
    assert Safe(before, trace[k], target, wanted);
  }
}
