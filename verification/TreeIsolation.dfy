/**
  Servers share one tree and never see each other in it: over any sequence of
  commands, a server's subtree is what its own commands make of it.
 */
module TreeIsolation {
  import opened Wrappers
  import opened Sequences
  import opened GoPaths
  import opened PathResolution
  import opened FileSystem
  import opened FileManager

  /** The two trees agree at and below `root`. */
  ghost predicate SameBelow(a: Fs, b: Fs, root: Path) {
    forall q :: AtOrAbove(root, q) ==> (q in a <==> q in b) && (q in a ==> a[q] == b[q])
  }

  /** The directory that holds every server's root. */
  function ServersDir(dataDir: string): Path { Components(dataDir) + ["servers"] }

  lemma RootBelowServersDir(dataDir: string, uuid: string)
    requires Rooted(dataDir) && Plain(uuid)
    ensures RootOf(dataDir, uuid) == ServersDir(dataDir) + [uuid]
    ensures AllPlain(RootOf(dataDir, uuid))
  {
    RootOfPlainId(dataDir, uuid);
    RootSpelling(dataDir, uuid);
    assert Components(dataDir) + ["servers", uuid] == ServersDir(dataDir) + [uuid];
  }

  // ---------------------------------------------------------------------
  // Commands elsewhere change nothing here
  // ---------------------------------------------------------------------

  predicate Apart(p: Path, root: Path) { !(p <= root) && !(root <= p) }

  lemma SiblingsApart(base: Path, a: string, b: string, p: Path)
    requires a != b && base + [a] <= p
    ensures Apart(p, base + [b]) && !(base + [b] <= Parent(p))
  {
    assert p[|base|] == (base + [a])[|base|] == a;
    assert (base + [b])[|base|] == b;
  }

  lemma MkdirAllElsewhere(fs: Fs, p: Path, root: Path)
    requires WellFormed(fs) && !(root <= p)
    ensures SameBelow(fs, MkdirAll(fs, p).fs, root)
  {
    MkdirAllAdds(fs, p);
    forall q | AtOrAbove(root, q) ensures !AtOrAbove(q, p) { PrefixTransitive(root, q, p); }
  }

  lemma RemoveAllElsewhere(fs: Fs, p: Path, root: Path)
    requires Apart(p, root)
    ensures SameBelow(fs, RemoveAll(fs, p).fs, root)
  {
    forall q | AtOrAbove(root, q) ensures !(p <= q) { PrefixesCompare(p, root, q); }
  }

  lemma RenameElsewhere(fs: Fs, from: Path, to: Path, root: Path)
    requires Apart(from, root) && Apart(to, root)
    ensures SameBelow(fs, FileSystem.Rename(fs, from, to).fs, root)
  {
    NewNamesHaveOld(fs, from, to);
    forall q | AtOrAbove(root, q) ensures !(from <= q) && !(to <= q) {
      PrefixesCompare(from, root, q);
      PrefixesCompare(to, root, q);
    }
  }

  lemma PrefixTransitive(a: Path, b: Path, c: Path)
    requires a <= b
    ensures b <= c ==> a <= c
  {
    if b <= c { assert c[..|a|] == b[..|a|]; }
  }

  /** Two prefixes of one path are comparable. */
  lemma PrefixesCompare(a: Path, b: Path, q: Path)
    ensures a <= q && b <= q ==> a <= b || b <= a
  {
    if a <= q && b <= q {
      assert a == q[..|a|] && b == q[..|b|];
      if |a| <= |b| { assert a == b[..|a|]; } else { assert b == a[..|b|]; }
    }
  }

  lemma SameTransitive(x: Fs, y: Fs, z: Fs, root: Path)
    requires SameBelow(x, y, root) && SameBelow(y, z, root)
    ensures SameBelow(x, z, root)
  {}

  lemma WriteElsewhere(fs: Fs, p: Path, content: seq<bv8>, root: Path)
    requires WellFormed(fs) && Apart(p, root) && !(root <= Parent(p))
    ensures SameBelow(fs, WriteFile(fs, p, content).fs, root)
    ensures SameBelow(fs, WriteFile(MkdirAll(fs, Parent(p)).fs, p, content).fs, root)
  {
    MkdirAllElsewhere(fs, Parent(p), root);
  }

  lemma WriteAtElsewhere(fs: Fs, p: Path, offset: nat, data: seq<bv8>, root: Path)
    requires Apart(p, root)
    ensures SameBelow(fs, WriteAt(fs, p, offset, data).fs, root)
  {}

  lemma RenamesElsewhere(fs: Fs, from: Path, to: Path, root: Path)
    requires WellFormed(fs) && Apart(from, root) && Apart(to, root) && !(root <= Parent(to))
    ensures SameBelow(fs, FileSystem.Rename(fs, from, to).fs, root)
    ensures SameBelow(fs, FileSystem.Rename(MkdirAll(fs, Parent(to)).fs, from, to).fs, root)
  {
    var made := MkdirAll(fs, Parent(to)).fs;
    MkdirAllElsewhere(fs, Parent(to), root);
    RenameElsewhere(fs, from, to, root);
    RenameElsewhere(made, from, to, root);
    SameTransitive(fs, made, FileSystem.Rename(made, from, to).fs, root);
  }

  /** One command on server `a` leaves the subtree of server `b` as it was. */
  lemma ApplyElsewhere(fs: Fs, dataDir: string, a: string, readOnly: bool, c: Command, b: string)
    requires Rooted(dataDir) && WellFormed(fs) && Plain(a) && Plain(b) && a != b
    ensures SameBelow(fs, Apply(fs, dataDir, a, readOnly, c).fs, RootOf(dataDir, b))
  {
    var root := RootOf(dataDir, b);
    var p := Target(dataDir, a, c.rel);
    TargetApart(dataDir, a, c.rel, b);
    Resolved(dataDir, a, c.rel);
    match c
    case Write(_, content) =>
      MkdirAllElsewhere(fs, Parent(p), root);
      WriteElsewhere(fs, p, content, root);
    case SftpOpen(_) => WriteElsewhere(fs, p, [], root);
    case SftpWriteAt(_, offset, data) => WriteAtElsewhere(fs, p, offset, data, root);
    case Mkdir(_) => MkdirAllElsewhere(fs, p, root);
    case SftpMkdir(_) => MkdirAllElsewhere(fs, p, root);
    case Delete(_) => RemoveAllElsewhere(fs, p, root);
    case SftpRemove(_) => RemoveAllElsewhere(fs, p, root);
    case Rename(_, toRel) =>
      TargetApart(dataDir, a, toRel, b);
      Resolved(dataDir, a, toRel);
      MkdirAllElsewhere(fs, Parent(Target(dataDir, a, toRel)), root);
      RenamesElsewhere(fs, p, Target(dataDir, a, toRel), root);
    case SftpRename(_, toRel) =>
      TargetApart(dataDir, a, toRel, b);
      Resolved(dataDir, a, toRel);
      RenamesElsewhere(fs, p, Target(dataDir, a, toRel), root);
    case _ =>
  }

  lemma TargetApart(dataDir: string, a: string, rel: string, b: string)
    requires Rooted(dataDir) && Plain(a) && Plain(b) && a != b
    ensures Apart(Target(dataDir, a, rel), RootOf(dataDir, b))
    ensures !(RootOf(dataDir, b) <= Parent(Target(dataDir, a, rel)))
  {
    RootBelowServersDir(dataDir, a);
    RootBelowServersDir(dataDir, b);
    SiblingsApart(ServersDir(dataDir), a, b, Target(dataDir, a, rel));
  }

  // ---------------------------------------------------------------------
  // A command's effect on its server's subtree depends on that subtree only
  // ---------------------------------------------------------------------

  /** Two trees in which server directories can be made, agreeing on one server's subtree. */
  ghost predicate Alike(x: Fs, y: Fs, base: Path, id: string) {
    && WellFormed(x) && WellFormed(y) && IsDir(x, base) && IsDir(y, base)
    && SameBelow(x, y, base + [id])
  }

  lemma ParentBelow(base: Path, id: string, p: Path)
    requires base + [id] <= p
    ensures base + [id] <= Parent(p) || Parent(p) == base
  {
    if p != base + [id] {
      assert Parent(p)[..|base| + 1] == p[..|base| + 1] == base + [id];
    }
  }

  lemma ParentAlike(x: Fs, y: Fs, base: Path, id: string, p: Path)
    requires Alike(x, y, base, id) && base + [id] <= p
    ensures (Parent(p) in x <==> Parent(p) in y) && (Parent(p) in x ==> x[Parent(p)] == y[Parent(p)])
  {
    var root := base + [id];
    if p == root {
      assert Parent(p) == base;
    } else {
      assert p[..|root|] == root && Parent(p)[..|root|] == root;
      assert AtOrAbove(root, Parent(p));
    }
  }

  lemma MkdirAllAlike(x: Fs, y: Fs, base: Path, id: string, p: Path)
    requires Alike(x, y, base, id) && AllPlain(p) && (base + [id] <= p || p == base)
    ensures MkdirAll(x, p).error == MkdirAll(y, p).error
    ensures Alike(MkdirAll(x, p).fs, MkdirAll(y, p).fs, base, id)
  {
    MkdirAllAdds(x, p);
    MkdirAllAdds(y, p);
    MkdirAllKeeps(x, p);
    MkdirAllKeeps(y, p);
    ThroughFileAlike(x, y, base, id, p);
    if MkdirAll(x, p).error.Some? {
      MkdirAllError(x, p);
      MkdirAllError(y, p);
    }
  }

  /** The way to the server's root is directories in both trees, the rest of the path is the same. */
  lemma ThroughFileAlike(x: Fs, y: Fs, base: Path, id: string, p: Path)
    requires Alike(x, y, base, id) && (base + [id] <= p || p == base)
    ensures ThroughFile(x, p) <==> ThroughFile(y, p)
    ensures Missing(x, p) == Missing(y, p)
  {
    var root := base + [id];
    AncestorsAreDirs(x, base);
    AncestorsAreDirs(y, base);
    forall n | 0 <= n <= |p|
      ensures p[..n] in x && x[p[..n]].File? <==> p[..n] in y && y[p[..n]].File?
    {
      if n <= |base| {
        assert AtOrAbove(p[..n], base) by {
          if p != base { assert p[..|root|] == root && root[..|base|] == base && p[..n] == root[..n] == base[..n]; }
          else { assert p[..n] == base[..n]; }
        }
      } else {
        assert p[..n][..|root|] == p[..|root|] == root;
        assert AtOrAbove(root, p[..n]);
      }
    }
  }

  lemma WriteFileAlike(x: Fs, y: Fs, base: Path, id: string, p: Path, content: seq<bv8>)
    requires Alike(x, y, base, id) && AllPlain(p) && base + [id] <= p
    ensures WriteFile(x, p, content).error == WriteFile(y, p, content).error
    ensures Alike(WriteFile(x, p, content).fs, WriteFile(y, p, content).fs, base, id)
  {
    ParentAlike(x, y, base, id, p);
    ThroughFileAlike(x, y, base, id, p);
    assert AtOrAbove(base + [id], p);
    WriteFileKeeps(x, p, content);
    WriteFileKeeps(y, p, content);
  }

  lemma RemoveAllAlike(x: Fs, y: Fs, base: Path, id: string, p: Path)
    requires Alike(x, y, base, id) && base + [id] <= p
    ensures RemoveAll(x, p).error == RemoveAll(y, p).error
    ensures Alike(RemoveAll(x, p).fs, RemoveAll(y, p).fs, base, id)
  {
    ParentBelow(base, id, p);
    ThroughFileAlike(x, y, base, id, Parent(p));
    RemoveAllKeeps(x, p);
    RemoveAllKeeps(y, p);
  }

  lemma RenameErrorAlike(x: Fs, y: Fs, base: Path, id: string, from: Path, to: Path)
    requires Alike(x, y, base, id) && base + [id] <= from && base + [id] <= to
    ensures FileSystem.Rename(x, from, to).error == FileSystem.Rename(y, from, to).error
  {
    ParentAlike(x, y, base, id, to);
    ThroughFileAlike(x, y, base, id, from);
    ThroughFileAlike(x, y, base, id, to);
    assert AtOrAbove(base + [id], from) && AtOrAbove(base + [id], to);
  }

  /** What a rename below the root moves is the same in both trees. */
  lemma MovedAlike(x: Fs, y: Fs, base: Path, id: string, from: Path, to: Path)
    requires SameBelow(x, y, base + [id]) && base + [id] <= from && base + [id] <= to
    ensures Moved(x, from, to) == Moved(y, from, to)
    ensures forall k :: k in Moved(x, from, to) ==> to <= k
  {
    var root := base + [id];
    NewNamesHaveOld(x, from, to);
    NewNamesHaveOld(y, from, to);
    forall k | to <= k ensures AtOrAbove(root, OldName(from, to, k)) {
      assert OldName(from, to, k)[..|root|] == from[..|root|] == root;
    }
  }

  lemma RenameAlike(x: Fs, y: Fs, base: Path, id: string, from: Path, to: Path)
    requires Alike(x, y, base, id) && AllPlain(to) && base + [id] <= from && base + [id] <= to
    ensures FileSystem.Rename(x, from, to).error == FileSystem.Rename(y, from, to).error
    ensures Alike(FileSystem.Rename(x, from, to).fs, FileSystem.Rename(y, from, to).fs, base, id)
  {
    RenameErrorAlike(x, y, base, id, from, to);
    RenameKeeps(x, from, to);
    RenameKeeps(y, from, to);
    MovedAlike(x, y, base, id, from, to);
    assert !(to <= base) && !(from <= base);
  }

  lemma RenameApplyAlike(x: Fs, y: Fs, dataDir: string, uuid: string, rel: string, toRel: string)
    requires Rooted(dataDir) && Plain(uuid) && Alike(x, y, ServersDir(dataDir), uuid)
    ensures var a, b := AfterRename(x, dataDir, uuid, rel, toRel), AfterRename(y, dataDir, uuid, rel, toRel);
            a.error == b.error && Alike(a.fs, b.fs, ServersDir(dataDir), uuid)
    ensures var a, b := AfterSftpRename(x, dataDir, uuid, rel, toRel), AfterSftpRename(y, dataDir, uuid, rel, toRel);
            a.error == b.error && Alike(a.fs, b.fs, ServersDir(dataDir), uuid)
  {
    var base := ServersDir(dataDir);
    var p, to := Target(dataDir, uuid, rel), Target(dataDir, uuid, toRel);
    TargetBelow(dataDir, uuid, rel);
    TargetBelow(dataDir, uuid, toRel);
    Resolved(dataDir, uuid, rel);
    Resolved(dataDir, uuid, toRel);
    MkdirAllAlike(x, y, base, uuid, Parent(to));
    RenameAlike(MkdirAll(x, Parent(to)).fs, MkdirAll(y, Parent(to)).fs, base, uuid, p, to);
    RenameAlike(x, y, base, uuid, p, to);
  }

  lemma WriteApplyAlike(x: Fs, y: Fs, dataDir: string, uuid: string, rel: string, content: seq<bv8>)
    requires Rooted(dataDir) && Plain(uuid) && Alike(x, y, ServersDir(dataDir), uuid)
    ensures var a, b := AfterWrite(x, dataDir, uuid, rel, content), AfterWrite(y, dataDir, uuid, rel, content);
            a.error == b.error && Alike(a.fs, b.fs, ServersDir(dataDir), uuid)
    ensures var a, b := AfterSftpOpen(x, dataDir, uuid, rel), AfterSftpOpen(y, dataDir, uuid, rel);
            a.error == b.error && Alike(a.fs, b.fs, ServersDir(dataDir), uuid)
  {
    var base := ServersDir(dataDir);
    var p := Target(dataDir, uuid, rel);
    TargetBelow(dataDir, uuid, rel);
    Resolved(dataDir, uuid, rel);
    MkdirAllAlike(x, y, base, uuid, Parent(p));
    WriteFileAlike(MkdirAll(x, Parent(p)).fs, MkdirAll(y, Parent(p)).fs, base, uuid, p, content);
    WriteFileAlike(x, y, base, uuid, p, []);
  }

  lemma WriteAtApplyAlike(x: Fs, y: Fs, dataDir: string, uuid: string, rel: string, offset: nat, data: seq<bv8>)
    requires Rooted(dataDir) && Plain(uuid) && Alike(x, y, ServersDir(dataDir), uuid)
    ensures var a := AfterSftpWriteAt(x, dataDir, uuid, rel, offset, data);
            var b := AfterSftpWriteAt(y, dataDir, uuid, rel, offset, data);
            a.error == b.error && Alike(a.fs, b.fs, ServersDir(dataDir), uuid)
  {
    var p := Target(dataDir, uuid, rel);
    TargetBelow(dataDir, uuid, rel);
    Resolved(dataDir, uuid, rel);
    assert AtOrAbove(ServersDir(dataDir) + [uuid], p);
    WriteAtKeeps(x, p, offset, data);
    WriteAtKeeps(y, p, offset, data);
  }

  lemma ApplyAlike(x: Fs, y: Fs, dataDir: string, uuid: string, readOnly: bool, c: Command)
    requires Rooted(dataDir) && Plain(uuid) && Alike(x, y, ServersDir(dataDir), uuid)
    ensures Apply(x, dataDir, uuid, readOnly, c).error == Apply(y, dataDir, uuid, readOnly, c).error
    ensures Alike(Apply(x, dataDir, uuid, readOnly, c).fs, Apply(y, dataDir, uuid, readOnly, c).fs,
                  ServersDir(dataDir), uuid)
  {
    match c
    case Write(rel, content) => WriteApplyAlike(x, y, dataDir, uuid, rel, content);
    case SftpOpen(rel) => WriteApplyAlike(x, y, dataDir, uuid, rel, []);
    case SftpWriteAt(rel, offset, data) => WriteAtApplyAlike(x, y, dataDir, uuid, rel, offset, data);
    case Rename(rel, toRel) => RenameApplyAlike(x, y, dataDir, uuid, rel, toRel);
    case SftpRename(rel, toRel) => RenameApplyAlike(x, y, dataDir, uuid, rel, toRel);
    case _ =>
      var p := Target(dataDir, uuid, c.rel);
      TargetBelow(dataDir, uuid, c.rel);
      Resolved(dataDir, uuid, c.rel);
      MkdirAllAlike(x, y, ServersDir(dataDir), uuid, p);
      RemoveAllAlike(x, y, ServersDir(dataDir), uuid, p);
  }

  lemma TargetBelow(dataDir: string, uuid: string, rel: string)
    requires Rooted(dataDir) && Plain(uuid)
    ensures var root := ServersDir(dataDir) + [uuid];
            var p := Target(dataDir, uuid, rel);
            root <= p && (root <= Parent(p) || Parent(p) == ServersDir(dataDir))
  {
    RootBelowServersDir(dataDir, uuid);
    var root := ServersDir(dataDir) + [uuid];
    var p := Target(dataDir, uuid, rel);
    if p != root {
      assert Parent(p)[..|root|] == root;
    }
  }

  /** No command on any server removes the directory that holds the servers. */
  lemma ServersDirStays(fs: Fs, dataDir: string, uuid: string, readOnly: bool, c: Command)
    requires Rooted(dataDir) && Plain(uuid) && WellFormed(fs) && IsDir(fs, ServersDir(dataDir))
    ensures IsDir(Apply(fs, dataDir, uuid, readOnly, c).fs, ServersDir(dataDir))
  {
    ApplyAlike(fs, fs, dataDir, uuid, readOnly, c);
  }

  // ---------------------------------------------------------------------
  // Runs
  // ---------------------------------------------------------------------

  datatype Call = Call(uuid: string, readOnly: bool, command: Command)

  predicate PlainIds(calls: seq<Call>) { forall i :: 0 <= i < |calls| ==> Plain(calls[i].uuid) }

  function Run(fs: Fs, dataDir: string, calls: seq<Call>): Fs
    decreases calls
  {
    if calls == [] then fs
    else Run(Apply(fs, dataDir, calls[0].uuid, calls[0].readOnly, calls[0].command).fs, dataDir, calls[1..])
  }

  /** The calls that name `uuid`. */
  function Only(calls: seq<Call>, uuid: string): seq<Call> {
    if calls == [] then []
    else (if calls[0].uuid == uuid then [calls[0]] else []) + Only(calls[1..], uuid)
  }

  lemma {:induction false} RunKeeps(fs: Fs, dataDir: string, calls: seq<Call>)
    requires Rooted(dataDir) && WellFormed(fs)
    ensures WellFormed(Run(fs, dataDir, calls))
    decreases calls
  {
    if calls != [] {
      ApplyKeeps(fs, dataDir, calls[0].uuid, calls[0].readOnly, calls[0].command);
      RunKeeps(Apply(fs, dataDir, calls[0].uuid, calls[0].readOnly, calls[0].command).fs, dataDir, calls[1..]);
    }
  }

  /** Isolation: calls that name other servers leave this server's whole subtree unchanged. */
  lemma {:induction false} OthersLeaveItAlone(fs: Fs, dataDir: string, calls: seq<Call>, uuid: string)
    requires Rooted(dataDir) && WellFormed(fs) && PlainIds(calls) && Plain(uuid)
    requires forall i :: 0 <= i < |calls| ==> calls[i].uuid != uuid
    ensures SameBelow(fs, Run(fs, dataDir, calls), RootOf(dataDir, uuid))
    decreases calls
  {
    if calls != [] {
      var c := calls[0];
      var next := Apply(fs, dataDir, c.uuid, c.readOnly, c.command).fs;
      ApplyElsewhere(fs, dataDir, c.uuid, c.readOnly, c.command, uuid);
      ApplyKeeps(fs, dataDir, c.uuid, c.readOnly, c.command);
      OthersLeaveItAlone(next, dataDir, calls[1..], uuid);
    }
  }

  lemma {:induction false} OwnCallsDecideFrom(x: Fs, y: Fs, dataDir: string, calls: seq<Call>, uuid: string)
    requires Rooted(dataDir) && PlainIds(calls) && Plain(uuid)
    requires Alike(x, y, ServersDir(dataDir), uuid)
    ensures Alike(Run(x, dataDir, calls), Run(y, dataDir, Only(calls, uuid)), ServersDir(dataDir), uuid)
    decreases calls
  {
    if calls != [] {
      var c := calls[0];
      var next := Apply(x, dataDir, c.uuid, c.readOnly, c.command).fs;
      assert PlainIds(calls[1..]);
      if c.uuid == uuid {
        ApplyAlike(x, y, dataDir, uuid, c.readOnly, c.command);
        OwnCallsDecideFrom(next, Apply(y, dataDir, uuid, c.readOnly, c.command).fs, dataDir, calls[1..], uuid);
        assert Only(calls, uuid)[1..] == Only(calls[1..], uuid);
      } else {
        ApplyElsewhere(x, dataDir, c.uuid, c.readOnly, c.command, uuid);
        ApplyKeeps(x, dataDir, c.uuid, c.readOnly, c.command);
        ServersDirStays(x, dataDir, c.uuid, c.readOnly, c.command);
        RootBelowServersDir(dataDir, uuid);
        OwnCallsDecideFrom(next, y, dataDir, calls[1..], uuid);
        assert Only(calls, uuid) == Only(calls[1..], uuid);
      }
    }
  }

  /**
    Non-interference: once the directory of the servers exists, what any mixed
    sequence of calls leaves of a server's subtree is what that server's own
    calls would leave of it, had the others never been made.
   */
  lemma OwnCallsDecide(fs: Fs, dataDir: string, calls: seq<Call>, uuid: string)
    requires Rooted(dataDir) && WellFormed(fs) && PlainIds(calls) && Plain(uuid)
    requires IsDir(fs, ServersDir(dataDir))
    ensures SameBelow(Run(fs, dataDir, calls), Run(fs, dataDir, Only(calls, uuid)), RootOf(dataDir, uuid))
  {
    OwnCallsDecideFrom(fs, fs, dataDir, calls, uuid);
    RootBelowServersDir(dataDir, uuid);
  }

  /**
    And so is what the server's next call is answered, and what it reads: the
    others' calls cannot be told from its own answers.
   */
  lemma OwnAnswersDecide(fs: Fs, dataDir: string, calls: seq<Call>, uuid: string, readOnly: bool, c: Command)
    requires Rooted(dataDir) && WellFormed(fs) && PlainIds(calls) && Plain(uuid)
    requires IsDir(fs, ServersDir(dataDir))
    ensures var x, y := Run(fs, dataDir, calls), Run(fs, dataDir, Only(calls, uuid));
            && Apply(x, dataDir, uuid, readOnly, c).error == Apply(y, dataDir, uuid, readOnly, c).error
            && Read(x, dataDir, uuid, c.rel) == Read(y, dataDir, uuid, c.rel)
  {
    var x, y := Run(fs, dataDir, calls), Run(fs, dataDir, Only(calls, uuid));
    var p := Target(dataDir, uuid, c.rel);
    OwnCallsDecideFrom(fs, fs, dataDir, calls, uuid);
    ApplyAlike(x, y, dataDir, uuid, readOnly, c);
    Resolved(dataDir, uuid, c.rel);
    TargetBelow(dataDir, uuid, c.rel);
    ThroughFileAlike(x, y, ServersDir(dataDir), uuid, p);
    assert AtOrAbove(ServersDir(dataDir) + [uuid], p);
  }

  /** A run carries its calls out one after the other. */
  lemma {:induction false} OneCallMore(fs: Fs, dataDir: string, calls: seq<Call>, c: Call)
    ensures Run(fs, dataDir, []) == fs
    ensures Run(fs, dataDir, calls + [c])
            == Apply(Run(fs, dataDir, calls), dataDir, c.uuid, c.readOnly, c.command).fs
    decreases calls
  {
    if calls == [] {
      assert calls + [c] == [c] && [c][1..] == [];
    } else {
      var next := Apply(fs, dataDir, calls[0].uuid, calls[0].readOnly, calls[0].command).fs;
      assert (calls + [c])[1..] == calls[1..] + [c] && (calls + [c])[0] == calls[0];
      OneCallMore(next, dataDir, calls[1..], c);
    }
  }

  /** A server's own calls are those that name it, in order. */
  lemma {:induction false} OwnCalls(calls: seq<Call>, c: Call, uuid: string)
    ensures Only([], uuid) == []
    ensures Only(calls + [c], uuid) == Only(calls, uuid) + if c.uuid == uuid then [c] else []
  {
    if calls == [] {
      assert calls + [c] == [c] && [c][1..] == [];
    } else {
      assert (calls + [c])[1..] == calls[1..] + [c] && (calls + [c])[0] == calls[0];
      OwnCalls(calls[1..], c, uuid);
      Associative(if calls[0].uuid == uuid then [calls[0]] else [], Only(calls[1..], uuid),
                  if c.uuid == uuid then [c] else []);
    }
  }
}
