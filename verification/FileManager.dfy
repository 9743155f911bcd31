/**
  The daemon's file operations on a server's data directory, over gRPC
  (filemgr) and over SFTP (sftpserver), all through the same resolver.
 */
module FileManager {
  import opened Wrappers
  import opened Sequences
  import opened GoPaths
  import opened PathResolution
  import opened FileSystem

  datatype Command =
    | Write(rel: string, content: seq<bv8>)
    | Mkdir(rel: string)
    | Delete(rel: string)
    | Rename(rel: string, toRel: string)
    | SftpOpen(rel: string)
    | SftpWriteAt(rel: string, offset: nat, data: seq<bv8>)
    | SftpRename(rel: string, toRel: string)
    | SftpRemove(rel: string)
    | SftpMkdir(rel: string)
    | SftpSetstat(rel: string)
    | SftpSymlink(rel: string)

  // ---------------------------------------------------------------------
  // The operations
  // ---------------------------------------------------------------------

  function Refused(fs: Fs, error: FsError): Effect { Effect(fs, Some(error)) }

  function AfterWrite(fs: Fs, dataDir: string, uuid: string, rel: string, content: seq<bv8>): Effect {
    match Resolve(dataDir, uuid, rel)
    case Err(_) => Refused(fs, Escapes)
    case Ok(full) =>
      var made := MkdirAll(fs, Components(Dir(full)));
      if made.error.Some? then made else WriteFile(made.fs, Components(full), content)
  }

  function AfterMkdir(fs: Fs, dataDir: string, uuid: string, rel: string): Effect {
    match Resolve(dataDir, uuid, rel)
    case Err(_) => Refused(fs, Escapes)
    case Ok(full) => MkdirAll(fs, Components(full))
  }

  function AfterDelete(fs: Fs, dataDir: string, uuid: string, rel: string): Effect {
    match Resolve(dataDir, uuid, rel)
    case Err(_) => Refused(fs, Escapes)
    case Ok(full) => RemoveAll(fs, Components(full))
  }

  function AfterRename(fs: Fs, dataDir: string, uuid: string, rel: string, toRel: string): Effect {
    match (Resolve(dataDir, uuid, rel), Resolve(dataDir, uuid, toRel))
    case (Ok(from), Ok(to)) =>
      var made := MkdirAll(fs, Components(Dir(to)));
      if made.error.Some? then made else FileSystem.Rename(made.fs, Components(from), Components(to))
    case _ => Refused(fs, Escapes)
  }

  /** Filewrite: the file is opened empty, no directory is made on the way. */
  function AfterSftpOpen(fs: Fs, dataDir: string, uuid: string, rel: string): Effect {
    match Resolve(dataDir, uuid, rel)
    case Err(_) => Refused(fs, Denied)
    case Ok(full) => WriteFile(fs, Components(full), [])
  }

  /** A packet of an upload, written through what Filewrite opened. */
  function AfterSftpWriteAt(fs: Fs, dataDir: string, uuid: string, rel: string, offset: nat, data: seq<bv8>): Effect {
    match Resolve(dataDir, uuid, rel)
    case Err(_) => Refused(fs, Denied)
    case Ok(full) => WriteAt(fs, Components(full), offset, data)
  }

  function AfterSftpRename(fs: Fs, dataDir: string, uuid: string, rel: string, toRel: string): Effect {
    match (Resolve(dataDir, uuid, rel), Resolve(dataDir, uuid, toRel))
    case (Ok(from), Ok(to)) => FileSystem.Rename(fs, Components(from), Components(to))
    case _ => Refused(fs, Denied)
  }

  function AfterSftp(fs: Fs, dataDir: string, uuid: string, c: Command): Effect
    requires !c.Write? && !c.Mkdir? && !c.Delete? && !c.Rename?
  {
    match c
    case SftpOpen(rel) => AfterSftpOpen(fs, dataDir, uuid, rel)
    case SftpWriteAt(rel, offset, data) => AfterSftpWriteAt(fs, dataDir, uuid, rel, offset, data)
    case SftpRename(rel, toRel) => AfterSftpRename(fs, dataDir, uuid, rel, toRel)
    case SftpRemove(rel) => AfterDelete(fs, dataDir, uuid, rel)
    case SftpMkdir(rel) => AfterMkdir(fs, dataDir, uuid, rel)
    case SftpSetstat(rel) => Effect(fs, None)
    case SftpSymlink(rel) => Refused(fs, Unsupported)
  }

  /** One command on one server; a read-only SFTP session is refused before anything else. */
  function Apply(fs: Fs, dataDir: string, uuid: string, readOnly: bool, c: Command): Effect {
    match c
    case Write(rel, content) => AfterWrite(fs, dataDir, uuid, rel, content)
    case Mkdir(rel) => AfterMkdir(fs, dataDir, uuid, rel)
    case Delete(rel) => AfterDelete(fs, dataDir, uuid, rel)
    case Rename(rel, toRel) => AfterRename(fs, dataDir, uuid, rel, toRel)
    case _ => if readOnly then Refused(fs, Denied) else AfterSftp(fs, dataDir, uuid, c)
  }

  function Read(fs: Fs, dataDir: string, uuid: string, rel: string): Result<seq<bv8>, FsError> {
    match Resolve(dataDir, uuid, rel)
    case Err(_) => Err(Escapes)
    case Ok(full) =>
      var p := Components(full);
      if p !in fs then Err(Missing(fs, p)) else if fs[p] == Directory then Err(IsDirectory) else Ok(fs[p].content)
  }

  /** filemgr.Manager: the methods change the tree in place. */
  class Manager {
    const dataDir: string
    var fs: Fs

    constructor (dataDir: string, fs: Fs)
      ensures this.dataDir == dataDir && this.fs == fs
    {
      this.dataDir, this.fs := dataDir, fs;
    }

    method MakeDirs(p: Path) returns (error: Option<FsError>)
      modifies this`fs
      ensures Effect(fs, error) == MkdirAll(old(fs), p)
    {
      var made := MkdirAll(fs, p);
      fs, error := made.fs, made.error;
    }

    method Write(uuid: string, rel: string, content: seq<bv8>) returns (error: Option<FsError>)
      requires Rooted(dataDir) && WellFormed(fs)
      modifies this`fs
      ensures Effect(fs, error) == AfterWrite(old(fs), dataDir, uuid, rel, content)
      ensures WellFormed(fs)
      ensures error.None? ==> Read(fs, dataDir, uuid, rel) == Ok(content)
    {
      ApplyKeeps(fs, dataDir, uuid, false, Command.Write(rel, content));
      ReadAfterWrite(fs, dataDir, uuid, rel, content);
      var full := Resolve(dataDir, uuid, rel);
      if full.Err? { return Some(Escapes); }
      error := MakeDirs(Components(Dir(full.value)));
      if error.Some? { return; }
      var written := WriteFile(fs, Components(full.value), content);
      fs, error := written.fs, written.error;
    }

    method Mkdir(uuid: string, rel: string) returns (error: Option<FsError>)
      requires Rooted(dataDir) && WellFormed(fs)
      modifies this`fs
      ensures Effect(fs, error) == AfterMkdir(old(fs), dataDir, uuid, rel)
      ensures WellFormed(fs)
    {
      ApplyKeeps(fs, dataDir, uuid, false, Command.Mkdir(rel));
      var full := Resolve(dataDir, uuid, rel);
      if full.Err? { return Some(Escapes); }
      error := MakeDirs(Components(full.value));
    }

    method Delete(uuid: string, rel: string) returns (error: Option<FsError>)
      requires Rooted(dataDir) && WellFormed(fs)
      modifies this`fs
      ensures Effect(fs, error) == AfterDelete(old(fs), dataDir, uuid, rel)
      ensures WellFormed(fs)
      ensures error.None? ==> Read(fs, dataDir, uuid, rel) == Err(NotExist)
    {
      ApplyKeeps(fs, dataDir, uuid, false, Command.Delete(rel));
      var full := Resolve(dataDir, uuid, rel);
      if full.Err? { return Some(Escapes); }
      var removed := RemoveAll(fs, Components(full.value));
      if removed.error.None? { RemovedIsMissing(fs, Components(full.value)); }
      fs, error := removed.fs, removed.error;
    }

    method Rename(uuid: string, rel: string, toRel: string) returns (error: Option<FsError>)
      requires Rooted(dataDir) && WellFormed(fs)
      modifies this`fs
      ensures Effect(fs, error) == AfterRename(old(fs), dataDir, uuid, rel, toRel)
      ensures WellFormed(fs)
    {
      ApplyKeeps(fs, dataDir, uuid, false, Command.Rename(rel, toRel));
      var from, to := Resolve(dataDir, uuid, rel), Resolve(dataDir, uuid, toRel);
      if from.Err? || to.Err? { return Some(Escapes); }
      error := MakeDirs(Components(Dir(to.value)));
      if error.Some? { return; }
      var moved := FileSystem.Rename(fs, Components(from.value), Components(to.value));
      fs, error := moved.fs, moved.error;
    }
  }

  /** sftpserver.fsHandlers: one authenticated session on one server, sharing the manager's tree. */
  class Session {
    const files: Manager
    const uuid: string
    const readOnly: bool

    constructor (files: Manager, uuid: string, readOnly: bool)
      ensures this.files == files && this.uuid == uuid && this.readOnly == readOnly
    {
      this.files, this.uuid, this.readOnly := files, uuid, readOnly;
    }

    /** Opening truncates: until packets arrive, the file is empty. */
    method Filewrite(rel: string) returns (error: Option<FsError>)
      requires Rooted(files.dataDir)
      modifies files`fs
      ensures Effect(files.fs, error) == Apply(old(files.fs), files.dataDir, uuid, readOnly, SftpOpen(rel))
      ensures readOnly ==> error == Some(Denied) && files.fs == old(files.fs)
      ensures error.None? ==> Read(files.fs, files.dataDir, uuid, rel) == Ok([])
    {
      Resolved(files.dataDir, uuid, rel);
      if readOnly { return Some(Denied); }
      var full := Resolve(files.dataDir, uuid, rel);
      if full.Err? { return Some(Denied); }
      var created := WriteFile(files.fs, Components(full.value), []);
      files.fs, error := created.fs, created.error;
    }

    method Filecmd(c: Command) returns (error: Option<FsError>)
      requires c.SftpRename? || c.SftpRemove? || c.SftpMkdir? || c.SftpSetstat? || c.SftpSymlink?
      requires Rooted(files.dataDir)
      modifies files`fs
      ensures Effect(files.fs, error) == Apply(old(files.fs), files.dataDir, uuid, readOnly, c)
      ensures readOnly ==> error == Some(Denied) && files.fs == old(files.fs)
    {
      Resolved(files.dataDir, uuid, c.rel);
      if readOnly { return Some(Denied); }
      var full := Resolve(files.dataDir, uuid, c.rel);
      if full.Err? { return Some(Denied); }
      var path := Components(full.value);
      match c
      case SftpSetstat(_) => error := None;
      case SftpRename(_, toRel) =>
        var target := Resolve(files.dataDir, uuid, toRel);
        if target.Err? { return Some(Denied); }
        var moved := FileSystem.Rename(files.fs, path, Components(target.value));
        files.fs, error := moved.fs, moved.error;
      case SftpRemove(_) =>
        var removed := RemoveAll(files.fs, path);
        files.fs, error := removed.fs, removed.error;
      case SftpMkdir(_) => error := files.MakeDirs(path);
      case _ => error := Some(Unsupported);
    }
  }

  // ---------------------------------------------------------------------
  // Where the operations work
  // ---------------------------------------------------------------------

  /** The path a relative path stands for. */
  function Target(dataDir: string, uuid: string, rel: string): Path { RootOf(dataDir, uuid) + Relative(rel) }

  lemma Resolved(dataDir: string, uuid: string, rel: string)
    requires Rooted(dataDir)
    ensures Resolve(dataDir, uuid, rel).Ok?
    ensures var full := Resolve(dataDir, uuid, rel).value;
            && Components(full) == Target(dataDir, uuid, rel)
            && Components(Dir(full)) == Parent(Target(dataDir, uuid, rel))
            && AllPlain(Target(dataDir, uuid, rel)) && AllPlain(Parent(Target(dataDir, uuid, rel)))
  {
    ResolveStaysBelow(dataDir, uuid, rel);
    DirDropsLast(Target(dataDir, uuid, rel));
  }

  /** Every command keeps the tree well-formed. */
  lemma ApplyKeeps(fs: Fs, dataDir: string, uuid: string, readOnly: bool, c: Command)
    requires Rooted(dataDir) && WellFormed(fs)
    ensures WellFormed(Apply(fs, dataDir, uuid, readOnly, c).fs)
  {
    var p := Target(dataDir, uuid, c.rel);
    Resolved(dataDir, uuid, c.rel);
    MkdirAllKeeps(fs, Parent(p));
    MkdirAllKeeps(fs, p);
    RemoveAllKeeps(fs, p);
    match c
    case Write(_, content) => WriteFileKeeps(MkdirAll(fs, Parent(p)).fs, p, content);
    case SftpOpen(_) => WriteFileKeeps(fs, p, []);
    case SftpWriteAt(_, offset, data) => WriteAtKeeps(fs, p, offset, data);
    case Rename(_, toRel) =>
      var to := Target(dataDir, uuid, toRel);
      Resolved(dataDir, uuid, toRel);
      MkdirAllKeeps(fs, Parent(to));
      RenameKeeps(MkdirAll(fs, Parent(to)).fs, p, to);
    case SftpRename(_, toRel) =>
      Resolved(dataDir, uuid, toRel);
      RenameKeeps(fs, p, Target(dataDir, uuid, toRel));
    case _ =>
  }

  /** A write that succeeds is what the next read returns. */
  lemma ReadAfterWrite(fs: Fs, dataDir: string, uuid: string, rel: string, content: seq<bv8>)
    requires Rooted(dataDir)
    ensures var r := AfterWrite(fs, dataDir, uuid, rel, content);
            r.error.None? ==> Read(r.fs, dataDir, uuid, rel) == Ok(content)
  {
    Resolved(dataDir, uuid, rel);
  }

  // ---------------------------------------------------------------------
  // Each operation, exactly
  // ---------------------------------------------------------------------

  /** Read gives a file's bytes, and otherwise says what is wrong with the path. */
  lemma ReadExact(fs: Fs, dataDir: string, uuid: string, rel: string, content: seq<bv8>)
    requires Rooted(dataDir)
    ensures var r, p := Read(fs, dataDir, uuid, rel), Target(dataDir, uuid, rel);
            && (r == Ok(content) <==> p in fs && fs[p] == File(content))
            && (r.Ok? <==> p in fs && fs[p] != Directory)
            && (r == Err(IsDirectory) <==> p in fs && fs[p] == Directory)
            && (r == Err(NotDirectory) <==> p !in fs && FileAbove(fs, p))
            && (r == Err(NotExist) <==> p !in fs && !FileAbove(fs, p))
  {
    Resolved(dataDir, uuid, rel);
    FileAboveIs(fs, Target(dataDir, uuid, rel));
  }

  /** Write fails on a file above the target or a directory at it, and on nothing else; then it changes nothing. */
  lemma WriteExact(fs: Fs, dataDir: string, uuid: string, rel: string, content: seq<bv8>)
    requires Rooted(dataDir) && WellFormed(fs)
    ensures var r, p := AfterWrite(fs, dataDir, uuid, rel, content), Target(dataDir, uuid, rel);
            && r.error == (if FileAbove(fs, p) then Some(NotDirectory)
                           else if p in fs && fs[p] == Directory then Some(IsDirectory) else None)
            && (if r.error.None? then Written(fs, p, content, r.fs) else r.fs == fs)
  {
    Resolved(dataDir, uuid, rel);
    MadeThenWritten(fs, Target(dataDir, uuid, rel), content);
  }

  /** Directories made above `p` change nothing about which files are above it, or about `p`. */
  lemma MadeAbove(fs: Fs, p: Path)
    requires WellFormed(fs) && AllPlain(Parent(p))
    ensures var made := MkdirAll(fs, Parent(p));
            && WellFormed(made.fs)
            && made.error == (if FileAbove(fs, p) then Some(NotDirectory) else None)
            && (made.error.Some? ==> made.fs == fs)
            && (made.error.None? ==> p != [] ==> p[..|p| - 1] in made.fs && made.fs[p[..|p| - 1]] == Directory)
            && (p in made.fs <==> p in fs) && (p in fs ==> made.fs[p] == fs[p])
  {
    MkdirAllExact(fs, Parent(p));
    MkdirAllKeeps(fs, Parent(p));
    FileAboveIs(fs, p);
    FileAboveIs(fs, Parent(p));
    assert [] in fs && Placed(fs, []);
  }

  lemma MadeThenWritten(fs: Fs, p: Path, content: seq<bv8>)
    requires WellFormed(fs) && AllPlain(Parent(p))
    ensures var made := MkdirAll(fs, Parent(p));
            var r := if made.error.Some? then made else WriteFile(made.fs, p, content);
            && r.error == (if FileAbove(fs, p) then Some(NotDirectory)
                           else if p in fs && fs[p] == Directory then Some(IsDirectory) else None)
            && (if r.error.None? then Written(fs, p, content, r.fs) else r.fs == fs)
  {
    var made := MkdirAll(fs, Parent(p));
    MadeAbove(fs, p);
    WriteFileExact(made.fs, p, content);
    MkdirAllExact(fs, Parent(p));
    assert [] in fs && Placed(fs, []);
    if p in fs && fs[p] == Directory {
      NoFileAbove(fs, p);
      DirectoryMadeAbove(fs, p);
    } else if made.error.None? {
      WrittenAfterMade(fs, p, content, made.fs);
    }
  }

  lemma DirectoryMadeAbove(fs: Fs, p: Path)
    requires WellFormed(fs) && p in fs
    ensures MkdirAll(fs, Parent(p)) == Effect(fs, None)
  {
    assert Placed(fs, p);
  }

  lemma WrittenAfterMade(fs: Fs, p: Path, content: seq<bv8>, made: Fs)
    requires p != []
    requires forall q :: q in made <==> q in fs || q <= Parent(p)
    requires forall q :: q in made ==> made[q] == if q in fs then fs[q] else Directory
    ensures Written(fs, p, content, made[p := File(content)])
  {
    var r := made[p := File(content)];
    forall q ensures q in r <==> q in fs || q <= p { PrefixOfParent(p, q); }
  }

  /** Mkdir fails on a file at or above the target; otherwise the missing directories are there and nothing else. */
  lemma MkdirExact(fs: Fs, dataDir: string, uuid: string, rel: string)
    requires Rooted(dataDir) && WellFormed(fs)
    ensures var r, p := AfterMkdir(fs, dataDir, uuid, rel), Target(dataDir, uuid, rel);
            && r.error == (if FileAbove(fs, p) || (p in fs && fs[p] != Directory) then Some(NotDirectory) else None)
            && (r.error.Some? ==> r.fs == fs)
            && (r.error.None? ==> forall q :: q in r.fs <==> q in fs || q <= p)
            && (r.error.None? ==> forall q :: q in r.fs ==> r.fs[q] == if q in fs then fs[q] else Directory)
  {
    Resolved(dataDir, uuid, rel);
    MkdirAllExact(fs, Target(dataDir, uuid, rel));
  }

  /** Delete takes the target and all below it; that nothing was there is no error. */
  lemma DeleteExact(fs: Fs, dataDir: string, uuid: string, rel: string)
    requires Rooted(dataDir)
    ensures var r, p := AfterDelete(fs, dataDir, uuid, rel), Target(dataDir, uuid, rel);
            && r.error == (if p == [] then Some(Invalid) else if FileAbove(fs, p) then Some(NotDirectory) else None)
            && (if r.error.None? then Removed(fs, p, r.fs) else r.fs == fs)
  {
    Resolved(dataDir, uuid, rel);
    RemoveAllExact(fs, Target(dataDir, uuid, rel));
  }

  /** Rename over gRPC, with the directories above the new name made. */
  lemma RenameExactly(fs: Fs, dataDir: string, uuid: string, rel: string, toRel: string)
    requires Rooted(dataDir) && WellFormed(fs)
    ensures var r := AfterRename(fs, dataDir, uuid, rel, toRel);
            var from, to := Target(dataDir, uuid, rel), Target(dataDir, uuid, toRel);
            && (r.error.None? <==> MayMove(fs, from, to) && !FileAbove(fs, to))
            && (r.error.None? ==> Renamed(fs, from, to, r.fs))
  {
    var from, to := Target(dataDir, uuid, rel), Target(dataDir, uuid, toRel);
    Resolved(dataDir, uuid, rel);
    Resolved(dataDir, uuid, toRel);
    MadeThenRenamed(fs, from, to);
  }

  lemma MadeThenRenamed(fs: Fs, from: Path, to: Path)
    requires WellFormed(fs) && AllPlain(Parent(to))
    ensures var made := MkdirAll(fs, Parent(to));
            var r := FileSystem.Rename(made.fs, from, to);
            && (made.error.None? && r.error.None? <==> MayMove(fs, from, to) && !FileAbove(fs, to))
            && (made.error.None? && r.error.None? ==> Renamed(fs, from, to, r.fs))
  {
    var made := MkdirAll(fs, Parent(to));
    var r := FileSystem.Rename(made.fs, from, to);
    MadeAbove(fs, to);
    MkdirAllExact(fs, Parent(to));
    FileSystem.RenameExact(made.fs, from, to);
    assert [] in fs && Placed(fs, []);
    if made.error.None? && to != [] {
      MayMoveAfterMade(fs, from, to, made.fs);
      if r.error.None? { RenamedAfterMade(fs, from, to, made.fs, r.fs); }
    }
  }

  lemma MayMoveAfterMade(fs: Fs, from: Path, to: Path, made: Fs)
    requires WellFormed(fs) && to != [] && (to in made <==> to in fs)
    requires forall q :: q in made <==> q in fs || q <= Parent(to)
    requires forall q :: q in made ==> made[q] == if q in fs then fs[q] else Directory
    ensures MayMove(made, from, to) <==> MayMove(fs, from, to)
  {
    if from <= Parent(to) { PrefixOfParent(to, from); }
  }

  lemma RenamedAfterMade(fs: Fs, from: Path, to: Path, made: Fs, fs': Fs)
    requires WellFormed(fs) && to != [] && MayMove(fs, from, to)
    requires forall q :: q in made <==> q in fs || q <= Parent(to)
    requires forall q :: q in made ==> made[q] == if q in fs then fs[q] else Directory
    requires Renamed(made, from, to, fs')
    ensures Renamed(fs, from, to, fs')
  {
    forall q ensures q in fs' <==> if to <= q then from + q[|to|..] in fs else (q in fs && !(from <= q)) || q <= to {
      PrefixOfParent(to, q);
      if to <= q && from + q[|to|..] <= Parent(to) {
        OldNameAbove(from, q[|to|..], to);
      }
    }
  }

  lemma OldNameAbove(from: Path, rest: Path, to: Path)
    requires to != [] && from + rest <= Parent(to)
    ensures from <= to && from != to
  {
    assert Parent(to)[..|from|] == from;
    assert to[..|from|] == from;
  }

  /** A read-only session is refused all that writes, before anything is looked at. */
  lemma ReadOnlyIsRefused(fs: Fs, dataDir: string, uuid: string, c: Command)
    requires !c.Write? && !c.Mkdir? && !c.Delete? && !c.Rename?
    ensures Apply(fs, dataDir, uuid, true, c) == Effect(fs, Some(Denied))
  {}

  /** Otherwise removing and making directories are what Delete and Mkdir do; attributes are left alone. */
  lemma SftpDispatch(fs: Fs, dataDir: string, uuid: string, rel: string)
    ensures Apply(fs, dataDir, uuid, false, SftpRemove(rel)) == AfterDelete(fs, dataDir, uuid, rel)
    ensures Apply(fs, dataDir, uuid, false, SftpMkdir(rel)) == AfterMkdir(fs, dataDir, uuid, rel)
    ensures Apply(fs, dataDir, uuid, false, SftpSetstat(rel)) == Effect(fs, None)
    ensures Apply(fs, dataDir, uuid, false, SftpSymlink(rel)) == Effect(fs, Some(Unsupported))
  {}

  /** The rename of an SFTP session makes no directories, and moves `rel` to `toRel`. */
  lemma SftpRenameExact(fs: Fs, dataDir: string, uuid: string, rel: string, toRel: string)
    requires Rooted(dataDir) && WellFormed(fs)
    ensures var r := Apply(fs, dataDir, uuid, false, SftpRename(rel, toRel));
            var from, to := Target(dataDir, uuid, rel), Target(dataDir, uuid, toRel);
            && (r.error.None? <==>
                  MayMove(fs, from, to) && to != [] && to[..|to| - 1] in fs && fs[to[..|to| - 1]] == Directory)
            && (if r.error.None? then Renamed(fs, from, to, r.fs) else r.fs == fs)
  {
    Resolved(dataDir, uuid, rel);
    Resolved(dataDir, uuid, toRel);
    FileSystem.RenameExact(fs, Target(dataDir, uuid, rel), Target(dataDir, uuid, toRel));
  }

  /** Opening for writing makes no directories, and empties the file. */
  lemma SftpOpenExact(fs: Fs, dataDir: string, uuid: string, rel: string)
    requires Rooted(dataDir) && WellFormed(fs)
    ensures var r, p := AfterSftpOpen(fs, dataDir, uuid, rel), Target(dataDir, uuid, rel);
            && (r.error.None? <==>
                  p != [] && p[..|p| - 1] in fs && fs[p[..|p| - 1]] == Directory && (p in fs ==> fs[p] != Directory))
            && r.fs == (if r.error.None? then fs[p := File([])] else fs)
  {
    Resolved(dataDir, uuid, rel);
    WriteFileExact(fs, Target(dataDir, uuid, rel), []);
  }

  /** A packet lands in the open file and nowhere else. */
  lemma SftpWriteExact(fs: Fs, dataDir: string, uuid: string, rel: string, offset: nat, data: seq<bv8>)
    requires Rooted(dataDir)
    ensures var r, p := AfterSftpWriteAt(fs, dataDir, uuid, rel, offset, data), Target(dataDir, uuid, rel);
            && r.error == None
            && r.fs == (if p in fs && fs[p] != Directory then fs[p := File(Patched(fs[p].content, offset, data))]
                        else fs)
  {
    Resolved(dataDir, uuid, rel);
  }

  // ---------------------------------------------------------------------
  // Uploads over SFTP
  // ---------------------------------------------------------------------

  /** An upload: the file is opened, then the packets arrive, each where the one before ended. */
  function AfterUpload(fs: Fs, dataDir: string, uuid: string, rel: string, packets: seq<seq<bv8>>): Fs {
    if packets == [] then AfterSftpOpen(fs, dataDir, uuid, rel).fs
    else
      var n := |packets| - 1;
      var before := AfterUpload(fs, dataDir, uuid, rel, packets[..n]);
      AfterSftpWriteAt(before, dataDir, uuid, rel, |Concat(packets[..n])|, packets[n]).fs
  }

  /**
    An upload that could be opened: whatever packets have arrived, the file reads
    as exactly them, and no other path has changed. An interrupted upload is one
    of fewer packets.
   */
  lemma {:induction false} UploadReadsBack(fs: Fs, dataDir: string, uuid: string, rel: string, packets: seq<seq<bv8>>)
    requires Rooted(dataDir) && AfterSftpOpen(fs, dataDir, uuid, rel).error.None?
    ensures AfterUpload(fs, dataDir, uuid, rel, packets) == fs[Target(dataDir, uuid, rel) := File(Concat(packets))]
    ensures Read(AfterUpload(fs, dataDir, uuid, rel, packets), dataDir, uuid, rel) == Ok(Concat(packets))
    decreases |packets|
  {
    Resolved(dataDir, uuid, rel);
    if packets != [] {
      var n := |packets| - 1;
      UploadReadsBack(fs, dataDir, uuid, rel, packets[..n]);
      OnePacketMore(fs, Target(dataDir, uuid, rel), packets[..n], packets[n]);
      assert packets == packets[..n] + [packets[n]];
    }
  }

  lemma OnePacketMore(fs: Fs, p: Path, packets: seq<seq<bv8>>, packet: seq<bv8>)
    ensures WriteAt(fs[p := File(Concat(packets))], p, |Concat(packets)|, packet).fs
            == fs[p := File(Concat(packets + [packet]))]
  {
    var content := Concat(packets);
    ConcatAppend(packets, [packet]);
    assert Concat([packet]) == packet + Concat([packet][1..]) == packet;
    PatchedAtEnd(content, packet);
    assert fs[p := File(content)][p := File(content + packet)] == fs[p := File(content + packet)];
  }

  // ---------------------------------------------------------------------
  // Renaming and renaming back
  // ---------------------------------------------------------------------

  /**
    Renaming to a free name and back: both succeed or the first did not, and what
    is left is the tree with the directories that were made for the target.
   */
  lemma RenameThereAndBack(fs: Fs, dataDir: string, uuid: string, rel: string, toRel: string)
    requires Rooted(dataDir) && WellFormed(fs)
    requires Target(dataDir, uuid, toRel) !in fs && Target(dataDir, uuid, rel) != Target(dataDir, uuid, toRel)
    requires AfterRename(fs, dataDir, uuid, rel, toRel).error.None?
    ensures AfterRename(AfterRename(fs, dataDir, uuid, rel, toRel).fs, dataDir, uuid, toRel, rel)
            == AfterMkdirOfParent(fs, Target(dataDir, uuid, toRel))
    ensures AfterMkdirOfParent(fs, Target(dataDir, uuid, toRel)).error.None?
  {
    var from, to := Target(dataDir, uuid, rel), Target(dataDir, uuid, toRel);
    Resolved(dataDir, uuid, rel);
    Resolved(dataDir, uuid, toRel);
    var made := MkdirAll(fs, Parent(to)).fs;
    MkdirAllAdds(fs, Parent(to));
    MkdirAllKeeps(fs, Parent(to));
    assert to != [] && !AtOrAbove(to, Parent(to));
    assert to !in made;
    RenameAndBack(made, from, to);
    CanMoveBack(made, from, to);
    var moved := FileSystem.Rename(made, from, to).fs;
    assert IsDir(moved, Parent(from));
    assert MkdirAll(moved, Parent(from)) == Effect(moved, None);
  }

  function AfterMkdirOfParent(fs: Fs, p: Path): Effect { MkdirAll(fs, Parent(p)) }
}
