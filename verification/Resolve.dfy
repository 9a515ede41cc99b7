/** `resolveTarget` (`src/document_store.cpp:14-89`): following symbolic links
    component by component with a work list, so that the target of a dangling
    link can still be named and created. */
module Resolve {
  import opened Bytes

  // ---------------------------------------------------------------------------
  // The file system as the walk sees it

  type Name = ByteString

  /** The components of a link's text; `absolute` when it starts at the root. */
  datatype Node = Directory | Regular | Symlink(absolute: bool, parts: seq<Name>)

  /** Every path but the root, which always is a directory. */
  type FileSystem = map<Path, Node>

  const CURRENT: Name := [DOT]
  const PARENT: Name := [DOT, DOT]

  function ParentOf(path: Path): Path {
    if path == [] then [] else path[..|path| - 1]
  }

  predicate IsDirectory(fs: FileSystem, path: Path) {
    path == [] || (path in fs && fs[path].Directory?)
  }

  /** Entries live in directories. */
  ghost predicate WellFormed(fs: FileSystem) {
    forall path :: path in fs ==> path != [] && IsDirectory(fs, ParentOf(path))
  }

  /** A proper prefix of the path is a regular file, so looking the path up fails. */
  predicate Blocked(fs: FileSystem, path: Path) {
    path != [] && ((ParentOf(path) in fs && fs[ParentOf(path)].Regular?) || Blocked(fs, ParentOf(path)))
  }

  datatype Failure = NotADirectory | TooManyLinks

  datatype Outcome = Ok(path: Path) | Err(failure: Failure)

  const MAXIMUM_LINKS: nat := 40

  // ---------------------------------------------------------------------------
  // The walk

  /** `resolved` and `pending` after a link at `resolved` in front of `rest`. */
  function LinkBase(link: Node, resolved: Path): Path
    requires link.Symlink?
  {
    if link.absolute then [] else resolved
  }

  predicate IsLink(fs: FileSystem, path: Path) {
    path in fs && fs[path].Symlink?
  }

  function Walk(fs: FileSystem, resolved: Path, pending: seq<Name>, links: nat): Outcome
    requires links <= MAXIMUM_LINKS
    decreases MAXIMUM_LINKS - links, |pending|
  {
    if pending == [] then Ok(resolved)
    else
      var component, rest := pending[0], pending[1..];
      if component == [] then Walk(fs, resolved, rest, links)
      else if component == CURRENT || component == PARENT then
        if !IsDirectory(fs, resolved) then Err(NotADirectory)
        else Walk(fs, if component == PARENT then ParentOf(resolved) else resolved, rest, links)
      else
        var candidate := resolved + [component];
        if Blocked(fs, candidate) then Err(NotADirectory)
        else if !IsLink(fs, candidate) then Walk(fs, candidate, rest, links)
        else if links == MAXIMUM_LINKS then Err(TooManyLinks)
        else Walk(fs, LinkBase(fs[candidate], resolved), fs[candidate].parts + rest, links + 1)
  }

  function Resolved(fs: FileSystem, parts: seq<Name>): Outcome {
    Walk(fs, [], parts, 0)
  }

  /** The walk drops a trailing slash behind something that is no directory. */
  predicate Skips(fs: FileSystem, resolved: Path, pending: seq<Name>, links: nat)
    requires links <= MAXIMUM_LINKS
    decreases MAXIMUM_LINKS - links, |pending|
  {
    pending != [] &&
    var component, rest := pending[0], pending[1..];
    if component == [] then !IsDirectory(fs, resolved) || Skips(fs, resolved, rest, links)
    else if component == CURRENT || component == PARENT then
      IsDirectory(fs, resolved) &&
      Skips(fs, if component == PARENT then ParentOf(resolved) else resolved, rest, links)
    else
      var candidate := resolved + [component];
      if !IsLink(fs, candidate) then Skips(fs, candidate, rest, links)
      else links < MAXIMUM_LINKS && Skips(fs, LinkBase(fs[candidate], resolved), fs[candidate].parts + rest, links + 1)
  }

  /** Push the components of a link's text in front, last one first. */
  method PrependLinkTarget(link: Node, resolved: Path, pending: seq<Name>) returns (base: Path, result: seq<Name>)
    requires link.Symlink?
    ensures base == LinkBase(link, resolved) && result == link.parts + pending
  {
    base := if link.absolute then [] else resolved;
    result := pending;
    var part := |link.parts|;
    while part != 0
      invariant 0 <= part <= |link.parts|
      invariant result == link.parts[part..] + pending
    {
      part := part - 1;
      result := [link.parts[part]] + result;
      assert link.parts[part..] == [link.parts[part]] + link.parts[part + 1..];
    }
    assert link.parts[0..] == link.parts;
  }

  method ResolveTarget(fs: FileSystem, parts: seq<Name>) returns (outcome: Outcome)
    ensures outcome == Resolved(fs, parts)
  {
    var resolved: Path := [];
    var pending := parts;
    var links: nat := 0;
    while pending != []
      invariant links <= MAXIMUM_LINKS
      invariant Resolved(fs, parts) == Walk(fs, resolved, pending, links)
      decreases MAXIMUM_LINKS - links, |pending|
    {
      var component := pending[0];
      pending := pending[1..];
      if component == [] {
        continue;
      }
      if component == CURRENT || component == PARENT {
        if !IsDirectory(fs, resolved) {
          return Err(NotADirectory);
        }
        if component == PARENT {
          resolved := ParentOf(resolved);
        }
        continue;
      }
      var candidate := resolved + [component];
      if Blocked(fs, candidate) {
        return Err(NotADirectory);
      }
      if !IsLink(fs, candidate) {
        resolved := candidate;
        continue;
      }
      if links == MAXIMUM_LINKS {
        return Err(TooManyLinks);
      }
      links := links + 1;
      resolved, pending := PrependLinkTarget(fs[candidate], resolved, pending);
    }
    return Ok(resolved);
  }

  // ---------------------------------------------------------------------------
  // Reference: recursive resolution, section 4.13 of POSIX.1-2017 Base Definitions

  datatype Position = At(path: Path, budget: nat) | Fails

  /** Resolving a name needs an existing directory; a link is resolved completely
      before the components after it; a trailing slash needs a directory; the last
      component may be missing. At most `budget` links are followed. */
  function Posix(fs: FileSystem, dir: Path, parts: seq<Name>, budget: nat): (r: Position)
    ensures r.At? ==> r.budget <= budget
    decreases budget, |parts|
  {
    if parts == [] then At(dir, budget)
    else if dir != [] && (dir !in fs || !fs[dir].Directory?) then Fails
    else
      var component, rest := parts[0], parts[1..];
      if component == [] || component == CURRENT then Posix(fs, dir, rest, budget)
      else if component == PARENT then Posix(fs, if dir == [] then [] else dir[..|dir| - 1], rest, budget)
      else
        var candidate := dir + [component];
        if candidate !in fs || !fs[candidate].Symlink? then Posix(fs, candidate, rest, budget)
        else if budget == 0 then Fails
        else
          match Posix(fs, if fs[candidate].absolute then [] else dir, fs[candidate].parts, budget - 1)
          case Fails => Fails
          case At(path, left) => Posix(fs, path, rest, left)
  }

  lemma DirectoryMeaning(fs: FileSystem, dir: Path)
    ensures IsDirectory(fs, dir) <==> dir == [] || (dir in fs && fs[dir].Directory?)
  {}

  lemma {:induction false} DirectoryIsNotBlocked(fs: FileSystem, dir: Path)
    requires WellFormed(fs) && IsDirectory(fs, dir)
    ensures !Blocked(fs, dir)
  {
    if dir != [] {
      assert IsDirectory(fs, ParentOf(dir));
      DirectoryIsNotBlocked(fs, ParentOf(dir));
    }
  }

  lemma NameInDirectory(fs: FileSystem, dir: Path, name: Name)
    requires WellFormed(fs) && IsDirectory(fs, dir)
    ensures !Blocked(fs, dir + [name])
  {
    assert ParentOf(dir + [name]) == dir;
    DirectoryIsNotBlocked(fs, dir);
    if dir == [] && [] in fs {
      assert false;
    }
  }

  /** One step of the walk from a directory. */
  lemma WalkInDirectory(fs: FileSystem, dir: Path, component: Name, rest: seq<Name>, links: nat)
    requires WellFormed(fs) && IsDirectory(fs, dir) && links <= MAXIMUM_LINKS
    ensures component == [] || component == CURRENT ==>
      Walk(fs, dir, [component] + rest, links) == Walk(fs, dir, rest, links)
    ensures component == PARENT ==> Walk(fs, dir, [component] + rest, links) == Walk(fs, ParentOf(dir), rest, links)
    ensures component != [] && component != CURRENT && component != PARENT ==>
      var candidate := dir + [component];
      && (!IsLink(fs, candidate) ==> Walk(fs, dir, [component] + rest, links) == Walk(fs, candidate, rest, links))
      && (IsLink(fs, candidate) && links < MAXIMUM_LINKS ==>
           Walk(fs, dir, [component] + rest, links)
           == Walk(fs, LinkBase(fs[candidate], dir), fs[candidate].parts + rest, links + 1))
      && (IsLink(fs, candidate) && links == MAXIMUM_LINKS ==> Walk(fs, dir, [component] + rest, links).Err?)
  {
    hide Blocked, WellFormed;
    NameInDirectory(fs, dir, component);
  }

  lemma SkipsInDirectory(fs: FileSystem, dir: Path, component: Name, rest: seq<Name>, links: nat)
    requires IsDirectory(fs, dir) && links <= MAXIMUM_LINKS
    ensures component == [] || component == CURRENT ==>
      Skips(fs, dir, [component] + rest, links) == Skips(fs, dir, rest, links)
    ensures component == PARENT ==> Skips(fs, dir, [component] + rest, links) == Skips(fs, ParentOf(dir), rest, links)
    ensures component != [] && component != CURRENT && component != PARENT ==>
      var candidate := dir + [component];
      && (!IsLink(fs, candidate) ==> Skips(fs, dir, [component] + rest, links) == Skips(fs, candidate, rest, links))
      && (IsLink(fs, candidate) && links < MAXIMUM_LINKS ==>
           Skips(fs, dir, [component] + rest, links)
           == Skips(fs, LinkBase(fs[candidate], dir), fs[candidate].parts + rest, links + 1))
  {}

  /** Where the recursive resolver arrives, the work list goes on from there, and has
      skipped nothing on the way. */
  lemma {:induction false} WalkFollowsPosix(fs: FileSystem, dir: Path, parts: seq<Name>, rest: seq<Name>, budget: nat)
    requires WellFormed(fs) && budget <= MAXIMUM_LINKS && Posix(fs, dir, parts, budget).At?
    ensures Posix(fs, dir, parts, budget).budget <= budget
    ensures var position := Posix(fs, dir, parts, budget);
      && Walk(fs, dir, parts + rest, MAXIMUM_LINKS - budget)
         == Walk(fs, position.path, rest, MAXIMUM_LINKS - position.budget)
      && Skips(fs, dir, parts + rest, MAXIMUM_LINKS - budget)
         == Skips(fs, position.path, rest, MAXIMUM_LINKS - position.budget)
    decreases budget, |parts|
  {
    hide Walk, Skips, WellFormed, IsDirectory;
    DirectoryMeaning(fs, dir);
    if parts == [] {
      assert parts + rest == rest;
    } else {
      var component, more := parts[0], parts[1..];
      assert parts + rest == [component] + (more + rest);
      WalkInDirectory(fs, dir, component, more + rest, MAXIMUM_LINKS - budget);
      SkipsInDirectory(fs, dir, component, more + rest, MAXIMUM_LINKS - budget);
      if component == [] || component == CURRENT {
        WalkFollowsPosix(fs, dir, more, rest, budget);
      } else if component == PARENT {
        WalkFollowsPosix(fs, ParentOf(dir), more, rest, budget);
      } else {
        var candidate := dir + [component];
        if !IsLink(fs, candidate) {
          WalkFollowsPosix(fs, candidate, more, rest, budget);
        } else {
          var link := fs[candidate];
          WalkFollowsPosix(fs, LinkBase(link, dir), link.parts, more + rest, budget - 1);
          var position := Posix(fs, LinkBase(link, dir), link.parts, budget - 1);
          WalkFollowsPosix(fs, position.path, more, rest, position.budget);
        }
      }
    }
  }

  /** The path's own directory exists, so the path can be opened or created. */
  predicate Landed(fs: FileSystem, path: Path) {
    path == [] || IsDirectory(fs, ParentOf(path))
  }

  lemma {:induction false} PosixLands(fs: FileSystem, dir: Path, parts: seq<Name>, budget: nat)
    requires WellFormed(fs) && Landed(fs, dir) && !IsLink(fs, dir) && Posix(fs, dir, parts, budget).At?
    ensures Landed(fs, Posix(fs, dir, parts, budget).path) && !IsLink(fs, Posix(fs, dir, parts, budget).path)
    decreases budget, |parts|
  {
    if parts != [] {
      var component, more := parts[0], parts[1..];
      if component == [] || component == CURRENT {
        PosixLands(fs, dir, more, budget);
      } else if component == PARENT {
        ParentIsDirectory(fs, dir);
        PosixLands(fs, ParentOf(dir), more, budget);
      } else {
        var candidate := dir + [component];
        assert ParentOf(candidate) == dir;
        if !IsLink(fs, candidate) {
          PosixLands(fs, candidate, more, budget);
        } else {
          LinkBaseIsDirectory(fs, dir, fs[candidate]);
          PosixLands(fs, LinkBase(fs[candidate], dir), fs[candidate].parts, budget - 1);
          var position := Posix(fs, LinkBase(fs[candidate], dir), fs[candidate].parts, budget - 1);
          PosixLands(fs, position.path, more, position.budget);
        }
      }
    }
  }

  lemma ParentIsDirectory(fs: FileSystem, dir: Path)
    requires WellFormed(fs) && IsDirectory(fs, dir)
    ensures IsDirectory(fs, ParentOf(dir)) && Landed(fs, ParentOf(dir)) && !IsLink(fs, ParentOf(dir))
  {
    if dir != [] && ParentOf(dir) != [] {
      assert IsDirectory(fs, ParentOf(ParentOf(dir)));
    }
  }

  lemma LinkBaseIsDirectory(fs: FileSystem, dir: Path, link: Node)
    requires WellFormed(fs) && IsDirectory(fs, dir) && link.Symlink?
    ensures Landed(fs, LinkBase(link, dir)) && !IsLink(fs, LinkBase(link, dir))
    ensures IsDirectory(fs, LinkBase(link, dir))
  {}

  /** Once below a missing directory, the walk never lands. */
  lemma {:induction false} MissingStaysMissing(fs: FileSystem, path: Path, pending: seq<Name>, links: nat)
    requires WellFormed(fs) && links <= MAXIMUM_LINKS && path != [] && path !in fs && !IsDirectory(fs, ParentOf(path))
    ensures Walk(fs, path, pending, links).Ok? ==> !Landed(fs, Walk(fs, path, pending, links).path)
    decreases |pending|
  {
    if pending != [] {
      var candidate := path + [pending[0]];
      assert ParentOf(candidate) == path;
      if pending[0] == [] {
        MissingStaysMissing(fs, path, pending[1..], links);
      } else if pending[0] != CURRENT && pending[0] != PARENT && !Blocked(fs, candidate) {
        assert candidate !in fs;
        MissingStaysMissing(fs, candidate, pending[1..], links);
      }
    }
  }

  /** Outside a directory nothing but a missing name below it can follow. */
  lemma WalkOutside(fs: FileSystem, dir: Path, component: Name, rest: seq<Name>, links: nat)
    requires WellFormed(fs) && !IsDirectory(fs, dir) && !IsLink(fs, dir) && links <= MAXIMUM_LINKS && component != []
    ensures var outcome := Walk(fs, dir, [component] + rest, links);
      outcome.Err? || !Landed(fs, outcome.path)
  {
    var candidate := dir + [component];
    assert ParentOf(candidate) == dir;
    assert ([component] + rest)[1..] == rest;
    if component != CURRENT && component != PARENT && !Blocked(fs, candidate) {
      assert candidate !in fs;
      MissingStaysMissing(fs, candidate, rest, links);
    }
  }

  /** The walk fails, does not land, or has skipped a slash. */
  predicate Strays(fs: FileSystem, dir: Path, pending: seq<Name>, links: nat)
    requires links <= MAXIMUM_LINKS
  {
    var outcome := Walk(fs, dir, pending, links);
    outcome.Err? || !Landed(fs, outcome.path) || Skips(fs, dir, pending, links)
  }

  lemma StraysOutside(fs: FileSystem, dir: Path, component: Name, rest: seq<Name>, links: nat)
    requires WellFormed(fs) && !IsDirectory(fs, dir) && !IsLink(fs, dir) && links <= MAXIMUM_LINKS
    ensures Strays(fs, dir, [component] + rest, links)
  {
    hide Walk, WellFormed, IsDirectory, Landed;
    if component != [] {
      WalkOutside(fs, dir, component, rest, links);
    }
  }

  /** Where the recursive resolver fails, the work list strays. */
  lemma {:induction false} WalkFailsWithPosix(fs: FileSystem, dir: Path, parts: seq<Name>, rest: seq<Name>, budget: nat)
    requires WellFormed(fs) && budget <= MAXIMUM_LINKS && Landed(fs, dir) && !IsLink(fs, dir)
    requires Posix(fs, dir, parts, budget).Fails?
    ensures Strays(fs, dir, parts + rest, MAXIMUM_LINKS - budget)
    decreases budget, |parts|
  {
    hide Walk, Skips, WellFormed, IsDirectory, Landed;
    DirectoryMeaning(fs, dir);
    var component, more := parts[0], parts[1..];
    assert parts + rest == [component] + (more + rest);
    if !IsDirectory(fs, dir) {
      StraysOutside(fs, dir, component, more + rest, MAXIMUM_LINKS - budget);
    } else {
      WalkInDirectory(fs, dir, component, more + rest, MAXIMUM_LINKS - budget);
      SkipsInDirectory(fs, dir, component, more + rest, MAXIMUM_LINKS - budget);
      if component == [] || component == CURRENT {
        WalkFailsWithPosix(fs, dir, more, rest, budget);
      } else if component == PARENT {
        ParentIsDirectory(fs, dir);
        WalkFailsWithPosix(fs, ParentOf(dir), more, rest, budget);
      } else {
        var candidate := dir + [component];
        NameLands(fs, dir, component);
        if !IsLink(fs, candidate) {
          WalkFailsWithPosix(fs, candidate, more, rest, budget);
        } else if budget > 0 {
          WalkFailsBehindLink(fs, dir, candidate, more, rest, budget);
        }
      }
    }
  }

  lemma NameLands(fs: FileSystem, dir: Path, component: Name)
    requires IsDirectory(fs, dir)
    ensures Landed(fs, dir + [component])
  {
    assert ParentOf(dir + [component]) == dir;
  }

  lemma {:induction false} WalkFailsBehindLink(fs: FileSystem, dir: Path, candidate: Path, more: seq<Name>,
                                               rest: seq<Name>, budget: nat)
    requires WellFormed(fs) && 0 < budget <= MAXIMUM_LINKS && IsDirectory(fs, dir) && IsLink(fs, candidate)
    requires var inner := Posix(fs, LinkBase(fs[candidate], dir), fs[candidate].parts, budget - 1);
      inner.Fails? || (inner.budget < budget && Posix(fs, inner.path, more, inner.budget).Fails?)
    ensures Strays(fs, LinkBase(fs[candidate], dir), fs[candidate].parts + (more + rest), MAXIMUM_LINKS - budget + 1)
    decreases budget, 0, 0
  {
    hide Walk, Skips, WellFormed, IsDirectory, Landed, Posix;
    var link := fs[candidate];
    LinkBaseIsDirectory(fs, dir, link);
    var inner := Posix(fs, LinkBase(link, dir), link.parts, budget - 1);
    if inner.Fails? {
      WalkFailsWithPosix(fs, LinkBase(link, dir), link.parts, more + rest, budget - 1);
    } else {
      WalkFollowsPosix(fs, LinkBase(link, dir), link.parts, more + rest, budget - 1);
      PosixLands(fs, LinkBase(link, dir), link.parts, budget - 1);
      WalkFailsWithPosix(fs, inner.path, more, rest, inner.budget);
    }
  }

  /** POSIX resolves to a path exactly when the walk does, the path's directory
      exists, and the walk has dropped no slash behind something else. */
  lemma WalkIsPosix(fs: FileSystem, parts: seq<Name>, path: Path)
    requires WellFormed(fs)
    ensures var position := Posix(fs, [], parts, MAXIMUM_LINKS);
      (position.At? && position.path == path) <==>
        Resolved(fs, parts) == Ok(path) && Landed(fs, path) && !Skips(fs, [], parts, 0)
  {
    hide Walk, Skips, Posix;
    var position := Posix(fs, [], parts, MAXIMUM_LINKS);
    assert parts + [] == parts;
    if position.At? {
      WalkFollowsPosix(fs, [], parts, [], MAXIMUM_LINKS);
      PosixLands(fs, [], parts, MAXIMUM_LINKS);
      WalkEnds(fs, position.path, MAXIMUM_LINKS - position.budget);
    } else {
      WalkFailsWithPosix(fs, [], parts, [], MAXIMUM_LINKS);
    }
  }

  lemma WalkEnds(fs: FileSystem, path: Path, links: nat)
    requires links <= MAXIMUM_LINKS
    ensures Walk(fs, path, [], links) == Ok(path) && !Skips(fs, path, [], links)
  {}

  const F: Name := [102]
  const L: Name := [108]

  /** A regular file `f`, and a link `l` to `f/`. */
  const SLASHED: FileSystem := map[[F] := Regular, [L] := Symlink(false, [F, []])]

  lemma SlashedEntries()
    ensures WellFormed(SLASHED) && !IsLink(SLASHED, [F]) && !IsDirectory(SLASHED, [F])
    ensures IsLink(SLASHED, [L]) && SLASHED[[L]].parts == [F, []] && LinkBase(SLASHED[[L]], []) == []
  {
    assert F[0] != L[0];
    assert [F][0] != [L][0];
    assert ParentOf([F]) == [] && ParentOf([L]) == [];
  }

  lemma SkippedSlash(fs: FileSystem, path: Path, links: nat)
    requires links <= MAXIMUM_LINKS
    ensures Walk(fs, path, [[]], links) == Ok(path)
    ensures Skips(fs, path, [[]], links) <==> !IsDirectory(fs, path)
  {
    var nothing: Name := [];
    assert [nothing][1..] == [];
    WalkEnds(fs, path, links);
  }

  /** The walk drops a trailing slash after a regular file, so POSIX refuses there. */
  lemma TrailingSlashIsSkipped()
    ensures WellFormed(SLASHED) && Resolved(SLASHED, [L]) == Ok([F]) && Skips(SLASHED, [], [L], 0)
    ensures Posix(SLASHED, [], [L], MAXIMUM_LINKS).Fails?
  {
    hide WellFormed, Walk, Skips, IsLink, Blocked, LinkBase, Posix, IsDirectory;
    SlashedEntries();
    var root: Path, nothing: Name := [], [];
    assert root + [F] == [F] && root + [L] == [L];
    assert [L] + [] == [L] && [F, nothing] + [] == [F, nothing] && [F] + [nothing] == [F, nothing];
    RootIsDirectory(SLASHED);
    WalkInDirectory(SLASHED, root, L, [], 0);
    SkipsInDirectory(SLASHED, root, L, [], 0);
    WalkInDirectory(SLASHED, root, F, [nothing], 1);
    SkipsInDirectory(SLASHED, root, F, [nothing], 1);
    SkippedSlash(SLASHED, [F], 1);
    var position := Posix(SLASHED, [], [L], MAXIMUM_LINKS);
    WalkIsPosix(SLASHED, [L], if position.At? then position.path else []);
  }

  lemma RootIsDirectory(fs: FileSystem)
    ensures IsDirectory(fs, [])
  {}

  // ---------------------------------------------------------------------------
  // What a resolved target is

  /** A component that names an entry. */
  predicate IsName(component: Name) {
    component != [] && component != CURRENT && component != PARENT
  }

  /** Names only, no link on the way or at the end, and nothing below a file. */
  ghost predicate Canonical(fs: FileSystem, path: Path) {
    && (forall i :: 0 <= i < |path| ==> IsName(path[i]))
    && (forall i :: 0 <= i <= |path| ==> !IsLink(fs, path[..i]))
    && !Blocked(fs, path)
  }

  lemma CanonicalParent(fs: FileSystem, path: Path)
    requires Canonical(fs, path)
    ensures Canonical(fs, ParentOf(path))
  {
    if path != [] {
      forall i | 0 <= i <= |path| - 1 ensures !IsLink(fs, ParentOf(path)[..i]) {
        assert ParentOf(path)[..i] == path[..i];
      }
    }
  }

  lemma CanonicalChild(fs: FileSystem, path: Path, name: Name)
    requires Canonical(fs, path) && IsName(name) && !IsLink(fs, path + [name]) && !Blocked(fs, path + [name])
    ensures Canonical(fs, path + [name])
  {
    var child := path + [name];
    forall i | 0 <= i <= |child| ensures !IsLink(fs, child[..i]) {
      if i <= |path| {
        assert child[..i] == path[..i];
      } else {
        assert child[..i] == child;
      }
    }
  }

  lemma CanonicalRoot(fs: FileSystem)
    requires WellFormed(fs)
    ensures Canonical(fs, [])
  {
    var root: Path := [];
    assert forall i :: 0 <= i <= |root| ==> root[..i] == root;
  }

  lemma {:induction false} WalkIsCanonical(fs: FileSystem, resolved: Path, pending: seq<Name>, links: nat)
    requires WellFormed(fs) && links <= MAXIMUM_LINKS && Canonical(fs, resolved)
    requires Walk(fs, resolved, pending, links).Ok?
    ensures Canonical(fs, Walk(fs, resolved, pending, links).path)
    decreases MAXIMUM_LINKS - links, |pending|
  {
    hide Canonical, WellFormed, Blocked;
    if pending != [] {
      var component, rest := pending[0], pending[1..];
      if component == [] || component == CURRENT {
        WalkIsCanonical(fs, resolved, rest, links);
      } else if component == PARENT {
        CanonicalParent(fs, resolved);
        WalkIsCanonical(fs, ParentOf(resolved), rest, links);
      } else {
        var candidate := resolved + [component];
        if !IsLink(fs, candidate) {
          CanonicalChild(fs, resolved, component);
          WalkIsCanonical(fs, candidate, rest, links);
        } else {
          CanonicalRoot(fs);
          WalkIsCanonical(fs, LinkBase(fs[candidate], resolved), fs[candidate].parts + rest, links + 1);
        }
      }
    }
  }

  /** A resolved target has only names, and neither it nor any directory on the way
      is a link. */
  lemma TargetIsCanonical(fs: FileSystem, parts: seq<Name>)
    requires WellFormed(fs) && Resolved(fs, parts).Ok?
    ensures Canonical(fs, Resolved(fs, parts).path)
  {
    CanonicalRoot(fs);
    WalkIsCanonical(fs, [], parts, 0);
  }

  lemma {:induction false} BlockedPrefix(fs: FileSystem, path: Path, i: nat)
    requires i <= |path| && !Blocked(fs, path)
    ensures !Blocked(fs, path[..i])
    decreases |path|
  {
    if i < |path| {
      assert ParentOf(path)[..i] == path[..i];
      BlockedPrefix(fs, ParentOf(path), i);
    } else {
      assert path[..i] == path;
    }
  }

  lemma {:induction false} CanonicalWalksToItself(fs: FileSystem, path: Path, i: nat)
    requires Canonical(fs, path) && i <= |path|
    ensures Walk(fs, path[..i], path[i..], 0) == Ok(path)
    decreases |path| - i
  {
    if i == |path| {
      assert path[..i] == path && path[i..] == [];
    } else {
      assert path[..i] + [path[i]] == path[..i + 1];
      assert path[i..][1..] == path[i + 1..];
      BlockedPrefix(fs, path, i + 1);
      assert IsName(path[i]) && !IsLink(fs, path[..i + 1]);
      CanonicalWalksToItself(fs, path, i + 1);
    }
  }

  /** Resolving a resolved target again gives the same target. */
  lemma ResolveIsIdempotent(fs: FileSystem, parts: seq<Name>)
    requires WellFormed(fs) && Resolved(fs, parts).Ok?
    ensures Resolved(fs, Resolved(fs, parts).path) == Resolved(fs, parts)
  {
    TargetIsCanonical(fs, parts);
    var path := Resolved(fs, parts).path;
    CanonicalWalksToItself(fs, path, 0);
    assert path[..0] == [] && path[0..] == path;
  }

  /** An absolute path with `.` and empty components dropped and `..` taken back. */
  function Reduced(path: Path): Path {
    if path == [] then []
    else
      var front, last := Reduced(path[..|path| - 1]), path[|path| - 1];
      if last == CURRENT || last == [] then front
      else if last == PARENT then ParentOf(front)
      else front + [last]
  }

  /** The lexical normal form of an absolute path, which ends in a slash unless the last
      component is a name. */
  function Normal(path: Path): Path {
    var reduced := Reduced(path);
    if path != [] && !IsName(path[|path| - 1]) && reduced != [] then reduced + [[]] else reduced
  }

  lemma {:induction false} NamesAreReduced(path: Path)
    requires forall i :: 0 <= i < |path| ==> IsName(path[i])
    ensures Reduced(path) == path
  {
    if path != [] {
      NamesAreReduced(path[..|path| - 1]);
      assert IsName(path[|path| - 1]);
    }
  }

  lemma {:induction false} ReducedHasNames(path: Path)
    ensures forall i :: 0 <= i < |Reduced(path)| ==> IsName(Reduced(path)[i])
  {
    if path != [] {
      ReducedHasNames(path[..|path| - 1]);
    }
  }

  lemma {:induction false} ReducedFront(front: Path, other: Path, back: Path)
    requires Reduced(front) == Reduced(other)
    ensures Reduced(front + back) == Reduced(other + back)
  {
    if back == [] {
      assert front + back == front && other + back == other;
    } else {
      var last := |back| - 1;
      ReducedFront(front, other, back[..last]);
      assert (front + back)[..|front + back| - 1] == front + back[..last];
      assert (other + back)[..|other + back| - 1] == other + back[..last];
    }
  }

  /** The normal form is what rewriting leaves: `.`, an empty component, and a name with
      `..` behind it can be dropped anywhere, and so can `..` at the root. */
  lemma ReducedByRewriting(front: Path, name: Name, back: Path)
    requires IsName(name)
    ensures Reduced(front + [CURRENT] + back) == Reduced(front + back)
    ensures Reduced(front + [[]] + back) == Reduced(front + back)
    ensures Reduced(front + [name, PARENT] + back) == Reduced(front + back)
    ensures Reduced([PARENT] + back) == Reduced(back)
  {
    assert (front + [CURRENT])[..|front|] == front;
    assert (front + [[]])[..|front|] == front;
    assert (front + [name, PARENT])[..|front| + 1] == front + [name];
    assert (front + [name])[..|front|] == front;
    assert ParentOf(Reduced(front) + [name]) == Reduced(front);
    ReducedFront(front + [CURRENT], front, back);
    ReducedFront(front + [[]], front, back);
    ReducedFront(front + [name, PARENT], front, back);
    assert [PARENT][..0] == [];
    ReducedFront([PARENT], [], back);
    assert [] + back == back;
  }

  /** A rollback's recorded path is taken for the target exactly if it ends in a name and
      rewrites to it. */
  lemma NormalMeaning(path: Path, target: Path)
    requires target != [] && forall i :: 0 <= i < |target| ==> IsName(target[i])
    ensures Normal(path) == target <==> path != [] && IsName(path[|path| - 1]) && Reduced(path) == target
  {
    var reduced := Reduced(path);
    if path != [] && !IsName(path[|path| - 1]) && reduced != [] {
      assert Normal(path)[|reduced|] == [];
      assert !IsName(Normal(path)[|Normal(path)| - 1]);
    }
  }

  /** A resolved target is its own lexical normal form, so a rollback that compares
      the normal form of a recorded target with a fresh one does not refuse. */
  lemma TargetIsNormal(fs: FileSystem, parts: seq<Name>)
    requires WellFormed(fs) && Resolved(fs, parts).Ok?
    ensures Normal(Resolved(fs, parts).path) == Resolved(fs, parts).path
  {
    TargetIsCanonical(fs, parts);
    NamesAreReduced(Resolved(fs, parts).path);
  }

  // ---------------------------------------------------------------------------
  // Changes that do not move the target

  /** The file systems differ at most at `target`, which is no directory or link in either. */
  ghost predicate SameBut(fs: FileSystem, after: FileSystem, target: Path) {
    && (forall path :: path != target ==> (path in fs <==> path in after))
    && (forall path :: path != target && path in fs ==> fs[path] == after[path])
    && (target in fs ==> fs[target].Regular?) && (target in after ==> after[target].Regular?)
  }

  predicate Below(path: Path, ancestor: Path) {
    ancestor < path
  }

  lemma {:induction false} BlockedAlike(fs: FileSystem, after: FileSystem, target: Path, path: Path)
    requires SameBut(fs, after, target) && !Below(path, target)
    ensures Blocked(fs, path) <==> Blocked(after, path)
  {
    if path != [] {
      assert ParentOf(path) < path;
      BlockedAlike(fs, after, target, ParentOf(path));
    }
  }

  /** Below a path that is no directory the walk stays below it. */
  lemma {:induction false} WalkStaysBelow(fs: FileSystem, target: Path, resolved: Path, pending: seq<Name>, links: nat)
    requires WellFormed(fs) && !IsDirectory(fs, target) && target <= resolved && links <= MAXIMUM_LINKS
    requires !IsDirectory(fs, resolved)
    requires Walk(fs, resolved, pending, links).Ok?
    ensures resolved <= Walk(fs, resolved, pending, links).path
    decreases |pending|
  {
    if pending != [] {
      if pending[0] == [] {
        WalkStaysBelow(fs, target, resolved, pending[1..], links);
      } else {
        var candidate := resolved + [pending[0]];
        assert ParentOf(candidate) == resolved;
        assert candidate !in fs;
        WalkStaysBelow(fs, target, candidate, pending[1..], links);
      }
    }
  }

  /** Writing, creating or removing the regular file at the target does not move it. */
  lemma {:induction false} WalkIgnoresTarget(fs: FileSystem, after: FileSystem, target: Path, resolved: Path,
                                             pending: seq<Name>, links: nat)
    requires WellFormed(fs) && links <= MAXIMUM_LINKS && SameBut(fs, after, target) && target != []
    requires !Below(resolved, target)
    requires Walk(fs, resolved, pending, links) == Ok(target)
    ensures Walk(after, resolved, pending, links) == Ok(target)
    decreases MAXIMUM_LINKS - links, |pending|
  {
    hide WellFormed, Blocked;
    if pending != [] {
      var component, rest := pending[0], pending[1..];
      if component == [] {
        WalkIgnoresTarget(fs, after, target, resolved, rest, links);
      } else if component == CURRENT || component == PARENT {
        assert IsDirectory(after, resolved);
        var next := if component == PARENT then ParentOf(resolved) else resolved;
        assert next <= resolved;
        WalkIgnoresTarget(fs, after, target, next, rest, links);
      } else {
        var candidate := resolved + [component];
        NotBelowStep(fs, target, resolved, component, rest, links);
        BlockedAlike(fs, after, target, candidate);
        if !IsLink(fs, candidate) {
          WalkIgnoresTarget(fs, after, target, candidate, rest, links);
        } else {
          WalkIgnoresTarget(fs, after, target, LinkBase(fs[candidate], resolved), fs[candidate].parts + rest, links + 1);
        }
      }
    }
  }

  /** A walk that ends at the target never looks below it. */
  lemma NotBelowStep(fs: FileSystem, target: Path, resolved: Path, component: Name, rest: seq<Name>, links: nat)
    requires WellFormed(fs) && links <= MAXIMUM_LINKS && !Below(resolved, target) && IsName(component)
    requires target != [] && (target in fs ==> fs[target].Regular?)
    requires Walk(fs, resolved, [component] + rest, links) == Ok(target)
    ensures !Below(resolved + [component], target)
  {
    var candidate := resolved + [component];
    if Below(candidate, target) {
      assert target == resolved by {
        assert target <= resolved;
      }
      assert ParentOf(candidate) == target;
      assert candidate !in fs;
      assert ([component] + rest)[1..] == rest;
      WalkStaysBelow(fs, target, candidate, rest, links);
    }
  }

  /** Committing or rolling back a document does not change where its path leads. */
  lemma CommitKeepsTarget(fs: FileSystem, after: FileSystem, parts: seq<Name>, target: Path)
    requires WellFormed(fs) && target != [] && Resolved(fs, parts) == Ok(target) && SameBut(fs, after, target)
    ensures Resolved(after, parts) == Ok(target)
  {
    WalkIgnoresTarget(fs, after, target, [], parts, 0);
  }

  /** Some missing paths have become directories. */
  ghost predicate DirectoriesAdded(fs: FileSystem, after: FileSystem) {
    && (forall path :: path in fs ==> path in after && after[path] == fs[path])
    && (forall path :: path in after && path !in fs ==> after[path].Directory?)
  }

  lemma {:induction false} BlockedWithDirectories(fs: FileSystem, after: FileSystem, path: Path)
    requires DirectoriesAdded(fs, after)
    ensures Blocked(fs, path) <==> Blocked(after, path)
  {
    if path != [] {
      BlockedWithDirectories(fs, after, ParentOf(path));
    }
  }

  lemma {:induction false} WalkWithDirectories(fs: FileSystem, after: FileSystem, resolved: Path, pending: seq<Name>,
                                               links: nat)
    requires DirectoriesAdded(fs, after) && links <= MAXIMUM_LINKS && Walk(fs, resolved, pending, links).Ok?
    ensures Walk(after, resolved, pending, links) == Walk(fs, resolved, pending, links)
    decreases MAXIMUM_LINKS - links, |pending|
  {
    hide Blocked;
    if pending != [] {
      var component, rest := pending[0], pending[1..];
      if component == [] || component == CURRENT {
        WalkWithDirectories(fs, after, resolved, rest, links);
      } else if component == PARENT {
        WalkWithDirectories(fs, after, ParentOf(resolved), rest, links);
      } else {
        var candidate := resolved + [component];
        BlockedWithDirectories(fs, after, candidate);
        if !IsLink(fs, candidate) {
          WalkWithDirectories(fs, after, candidate, rest, links);
        } else {
          WalkWithDirectories(fs, after, LinkBase(fs[candidate], resolved), fs[candidate].parts + rest, links + 1);
        }
      }
    }
  }

  /** Creating the missing directories of a target does not move the target. */
  lemma CreatingDirectoriesKeepsTarget(fs: FileSystem, after: FileSystem, parts: seq<Name>)
    requires DirectoriesAdded(fs, after) && Resolved(fs, parts).Ok?
    ensures Resolved(after, parts) == Resolved(fs, parts)
  {
    WalkWithDirectories(fs, after, [], parts, 0);
  }
}
