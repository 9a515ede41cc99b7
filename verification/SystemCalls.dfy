/** The system calls that commit and remove documents, under any finite schedule
    of faults, interruptions and short writes. */
module SystemCalls {
  import opened Bytes
  import opened Documents
  import opened Images

  /** How one system call goes; after the script ends every call completes. */
  datatype Event = Complete | Fault | Interrupted | Short(count: nat)

  const PRIVATE_MODE: nat := 384
  const MODE_BITS: nat := 4096

  /** Nothing in the script stops a write or fails a call. */
  predicate Faultless(script: seq<Event>) {
    forall i :: 0 <= i < |script| ==> script[i] != Fault && script[i] != Short(0)
  }

  /** Every file number and every unique name in use is below `next`. */
  ghost predicate Known(image: Image, next: nat) {
    && (forall name, inode :: Some(inode) in Possible(image, name) ==> inode < next)
    && (forall name: Name :: name.Unique? && name in image.live ==> name.suffix < next)
    && (forall name, inode :: name in image.live && image.live[name] == inode ==> inode in image.files)
  }

  lemma KnownEntry(image: Image, name: Name, entry: Option<nat>, next: nat)
    requires Known(image, next)
    requires entry.Some? ==> entry.value in image.files && entry.value < next
    requires name.Unique? && entry.Some? ==> name.suffix < next
    ensures Known(WithEntry(image, name, entry), next)
  {
    var after := WithEntry(image, name, entry);
    forall n, inode | Some(inode) in Possible(after, n) ensures inode < next {
      if n == name {
        EntryPossible(image, name, entry);
      } else {
        OtherEntry(image, n, name, entry);
      }
    }
  }

  lemma KnownFile(image: Image, inode: nat, file: File, next: nat)
    requires Known(image, next)
    ensures Known(WithFile(image, inode, file), next)
    ensures Known(FileSynced(image, inode), next)
    ensures Known(DirectorySynced(image), next)
  {
    assert forall n :: Possible(WithFile(image, inode, file), n) == Possible(image, n);
    assert forall n :: Possible(FileSynced(image, inode), n) == Possible(image, n);
    assert forall n :: Possible(DirectorySynced(image), n) <= Possible(image, n);
  }

  class Disk {
    var image: Image
    var script: seq<Event>
    var next: nat
    ghost var trace: seq<Image>

    ghost predicate Valid()
      reads this
    {
      Known(image, next)
    }

    constructor (image: Image, script: seq<Event>, next: nat)
      requires Known(image, next)
      ensures Valid() && this.image == image && this.script == script && trace == []
    {
      this.image, this.script, this.next, this.trace := image, script, next, [];
    }

    /** The script after one call. */
    static function After(script: seq<Event>): seq<Event> {
      if script == [] then [] else script[1..]
    }

    static function Next(script: seq<Event>): Event {
      if script == [] then Complete else script[0]
    }

    /** `mkstemp`: a new empty file under a name nobody uses. */
    method CreateUnique(pattern: ByteString) returns (created: Option<(Name, nat)>)
      requires Valid()
      modifies this
      ensures Valid() && script == After(old(script)) && trace == old(trace) + [image]
      ensures created.None? <==> Next(old(script)) == Fault
      ensures created.None? ==> image == old(image)
      ensures created.Some? ==>
        && created == Some((Unique(pattern, old(next)), old(next)))
        && image == WithEntry(WithFile(old(image), old(next), File([], PRIVATE_MODE)),
                              Unique(pattern, old(next)), Some(old(next)))
    {
      var event := Next(script);
      script := After(script);
      if event == Fault {
        created := None;
      } else {
        var name, inode := Unique(pattern, next), next;
        next := next + 1;
        KnownFile(image, inode, File([], PRIVATE_MODE), next);
        image := WithFile(image, inode, File([], PRIVATE_MODE));
        KnownEntry(image, name, Some(inode), next);
        image := WithEntry(image, name, Some(inode));
        created := Some((name, inode));
      }
      trace := trace + [image];
    }

    /** `write`: -1 on failure, else how many bytes were appended. */
    method Write(inode: nat, data: ByteString) returns (written: int, interrupted: bool)
      requires Valid() && inode in image.files
      modifies this
      ensures Valid() && next == old(next) && script == After(old(script)) && trace == old(trace) + [image]
      ensures -1 <= written <= |data|
      ensures interrupted <==> Next(old(script)) == Interrupted
      ensures interrupted || Next(old(script)) == Fault <==> written == -1
      ensures written == -1 ==> image == old(image)
      ensures written >= 0 ==> image == WithFile(old(image), inode,
        File(old(image.files[inode].bytes) + data[..written], old(image.files[inode].mode)))
      ensures Next(old(script)) == Complete ==> written == |data|
      ensures data != [] ==> (written == 0 <==> Next(old(script)) == Short(0))
    {
      var event := Next(script);
      script := After(script);
      interrupted := event == Interrupted;
      if event == Fault || event == Interrupted {
        written := -1;
      } else {
        written := if event.Short? && event.count < |data| then event.count else |data|;
        var file := image.files[inode];
        KnownFile(image, inode, File(file.bytes + data[..written], file.mode), next);
        image := WithFile(image, inode, File(file.bytes + data[..written], file.mode));
      }
      trace := trace + [image];
    }

    method ChangeMode(inode: nat, mode: nat) returns (ok: bool)
      requires Valid() && inode in image.files
      modifies this
      ensures Valid() && next == old(next) && script == After(old(script)) && trace == old(trace) + [image]
      ensures ok <==> Next(old(script)) != Fault
      ensures image == if ok then WithFile(old(image), inode, old(image.files[inode]).(mode := mode)) else old(image)
    {
      ok := Next(script) != Fault;
      script := After(script);
      if ok {
        KnownFile(image, inode, image.files[inode].(mode := mode), next);
        image := WithFile(image, inode, image.files[inode].(mode := mode));
      }
      trace := trace + [image];
    }

    method SyncFile(inode: nat) returns (ok: bool)
      requires Valid()
      modifies this
      ensures Valid() && next == old(next) && script == After(old(script)) && trace == old(trace) + [image]
      ensures ok <==> Next(old(script)) != Fault
      ensures image == if ok then FileSynced(old(image), inode) else old(image)
    {
      ok := Next(script) != Fault;
      script := After(script);
      if ok {
        KnownFile(image, inode, File([], 0), next);
        image := FileSynced(image, inode);
      }
      trace := trace + [image];
    }

    method SyncDirectory() returns (ok: bool)
      requires Valid()
      modifies this
      ensures Valid() && next == old(next) && script == After(old(script)) && trace == old(trace) + [image]
      ensures ok <==> Next(old(script)) != Fault
      ensures image == if ok then DirectorySynced(old(image)) else old(image)
    {
      ok := Next(script) != Fault;
      script := After(script);
      if ok {
        KnownFile(image, 0, File([], 0), next);
        image := DirectorySynced(image);
      }
      trace := trace + [image];
    }

    method Rename(from: Name, to: Name) returns (ok: bool)
      requires Valid() && from in image.live && to.Named?
      modifies this
      ensures Valid() && next == old(next) && script == After(old(script)) && trace == old(trace) + [image]
      ensures ok <==> Next(old(script)) != Fault
      ensures image == if ok then Renamed(old(image), from, to) else old(image)
    {
      ok := Next(script) != Fault;
      script := After(script);
      if ok {
        var inode := image.live[from];
        assert Some(inode) in Possible(image, from);
        KnownEntry(image, to, Some(inode), next);
        KnownEntry(WithEntry(image, to, Some(inode)), from, None, next);
        image := Renamed(image, from, to);
      }
      trace := trace + [image];
    }

    method Unlink(name: Name) returns (ok: bool)
      requires Valid()
      modifies this
      ensures Valid() && next == old(next) && script == After(old(script)) && trace == old(trace) + [image]
      ensures ok <==> Next(old(script)) != Fault
      ensures image == if ok then WithEntry(old(image), name, None) else old(image)
    {
      ok := Next(script) != Fault;
      script := After(script);
      if ok {
        KnownEntry(image, name, None, next);
        image := WithEntry(image, name, None);
      }
      trace := trace + [image];
    }

    /** The destructor's removal, assumed to succeed. */
    method Discard(name: Name)
      requires Valid()
      modifies this
      ensures Valid() && next == old(next) && script == old(script) && trace == old(trace) + [image]
      ensures image == WithEntry(old(image), name, None)
    {
      KnownEntry(image, name, None, next);
      image := WithEntry(image, name, None);
      trace := trace + [image];
    }

    /** A call that changes nothing and may fail: `stat`, `open` and `close`. */
    method Probe() returns (ok: bool)
      requires Valid()
      modifies this
      ensures Valid() && next == old(next) && image == old(image) && trace == old(trace) + [image]
      ensures script == After(old(script)) && (ok <==> Next(old(script)) != Fault)
    {
      ok := Next(script) != Fault;
      script := After(script);
      trace := trace + [image];
    }

    /** `stat`: file number and mode. */
    method Stat(name: Name) returns (metadata: Option<(nat, nat)>)
      requires Valid()
      modifies this
      ensures Valid() && next == old(next) && image == old(image) && trace == old(trace) + [image]
      ensures script == After(old(script))
      ensures metadata == if Next(old(script)) == Fault || name !in image.live then None
                          else Some((image.live[name], image.files[image.live[name]].mode))
    {
      var ok := Probe();
      metadata := if !ok || name !in image.live then None
                  else Some((image.live[name], image.files[image.live[name]].mode));
    }

    /** Reading the document under the name. */
    method Read(name: Name) returns (revision: Option<Revision>)
      requires Valid()
      modifies this
      ensures Valid() && next == old(next) && image == old(image) && trace == old(trace) + [image]
      ensures script == After(old(script))
      ensures revision == if Next(old(script)) == Fault then None else Some(Live(image, name))
    {
      var ok := Probe();
      revision := if ok then Some(Live(image, name)) else None;
    }
  }
}
