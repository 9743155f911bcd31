/**
  Restore against Create: exactly when replaying an archive succeeds, and
  exactly what tree it leaves.
 */
module BackupRestore {
  import opened Wrappers
  import opened Sequences
  import opened GoPaths
  import opened PathResolution
  import opened FileSystem
  import opened TreeIsolation
  import opened Backups

  // ---------------------------------------------------------------------
  // Restore
  // ---------------------------------------------------------------------

  /** One archive entry, on the path that joining its name to the server's root gives. */
  function RestoreEntry(fs: Fs, dstRoot: string, e: Entry): Effect {
    var target := JoinPaths([dstRoot, e.name]);
    if !(dstRoot <= target) then Effect(fs, Some(Escapes))
    else
      match e.node
      case Directory => MkdirAll(fs, Components(target))
      case File(content) =>
        var made := MkdirAll(fs, Components(Dir(target)));
        if made.error.Some? then made else WriteFile(made.fs, Components(target), content)
  }

  /** Entries in order, stopping at the first error with what was done so far. */
  function Restored(fs: Fs, dstRoot: string, entries: seq<Entry>): Effect {
    if entries == [] then Effect(fs, None)
    else
      var before := Restored(fs, dstRoot, entries[..|entries| - 1]);
      if before.error.Some? then before else RestoreEntry(before.fs, dstRoot, entries[|entries| - 1])
  }

  lemma {:induction false} RestoredStops(fs: Fs, dstRoot: string, entries: seq<Entry>, n: nat)
    requires n <= |entries| && Restored(fs, dstRoot, entries[..n]).error.Some?
    ensures Restored(fs, dstRoot, entries) == Restored(fs, dstRoot, entries[..n])
    decreases |entries|
  {
    if n == |entries| {
      assert entries[..n] == entries;
    } else {
      assert entries[..|entries| - 1][..n] == entries[..n];
      RestoredStops(fs, dstRoot, entries[..|entries| - 1], n);
    }
  }

  lemma RestoredOneMore(fs: Fs, dstRoot: string, entries: seq<Entry>, i: nat)
    requires i < |entries| && Restored(fs, dstRoot, entries[..i]).error.None?
    ensures Restored(fs, dstRoot, entries[..i + 1])
            == RestoreEntry(Restored(fs, dstRoot, entries[..i]).fs, dstRoot, entries[i])
  {
    assert entries[..i + 1][..i] == entries[..i] && entries[..i + 1][i] == entries[i];
  }

  /** backupmgr.Manager: the server tree, and the archives kept beside it under (uuid, backup id). */
  class Manager {
    const dataDir: string
    var fs: Fs
    var archives: map<(string, string), seq<Entry>>

    constructor (dataDir: string, fs: Fs)
      ensures this.dataDir == dataDir && this.fs == fs && archives == map[]
    {
      this.dataDir, this.fs, archives := dataDir, fs, map[];
    }

    /** The walk callback's job, entry by entry, on one subtree. */
    method Append(root: Path, p: Path, archive: seq<Entry>) returns (r: seq<Entry>)
      requires WellFormed(fs) && p in fs && AtOrAbove(root, p)
      ensures Archivable(fs, root, Visited(fs, root, p))
      ensures r == archive + Entries(fs, root, Visited(fs, root, p))
      decreases Below(fs, p), 1, 0
    {
      r := archive;
      if p != root {
        r := r + [EntryOf(fs, root, p)];
      }
      if fs[p] == Directory {
        var names := ListDir(fs, p);
        VisitedDirectory(fs, root, p, archive);
        r := AppendEach(root, p, names, r);
      } else {
        VisitedFile(fs, root, p);
      }
    }

    method AppendEach(root: Path, p: Path, names: seq<string>, archive: seq<Entry>) returns (r: seq<Entry>)
      requires WellFormed(fs) && p in fs && fs[p] == Directory && AtOrAbove(root, p)
      requires SortedNames(names) && forall n :: n in names ==> n in Children(fs, p)
      ensures Archivable(fs, root, WalkEach(fs, p, names))
      ensures r == archive + Entries(fs, root, WalkEach(fs, p, names))
      decreases Below(fs, p), 0, |names|
    {
      r := archive;
      if names != [] {
        BelowChild(fs, p, names[0]);
        ChildExists(fs, p, names[0]);
        PrefixTransitive(root, p, p + [names[0]]);
        r := Append(root, p + [names[0]], r);
        r := AppendEach(root, p, names[1..], r);
        VisitedEach(fs, root, p, names, archive);
      }
    }

    /** Create: on an error the archive file is removed, whatever it held before. */
    method Create(uuid: string, backupId: string) returns (error: Option<FsError>)
      requires WellFormed(fs)
      modifies this`archives
      ensures error.None? <==> Archive(fs, RootOf(dataDir, uuid)).Ok?
      ensures error.None? ==>
                archives == old(archives)[(uuid, backupId) := Archive(fs, RootOf(dataDir, uuid)).value]
      ensures error.Some? ==> archives == old(archives) - {(uuid, backupId)}
    {
      var root := Components(ServerRoot(dataDir, uuid));
      archives := archives[(uuid, backupId) := []];
      if root !in fs {
        archives := archives - {(uuid, backupId)};
        return Some(Missing(fs, root));
      }
      var entries := Append(root, root, []);
      WalkBelow(fs, root, root);
      assert Walk(fs, root)[1..] == Visited(fs, root, root);
      assert entries == Archive(fs, root).value;
      archives := archives[(uuid, backupId) := entries];
      error := None;
    }

    /** The body of Restore's loop: one entry. */
    method RestoreOne(dstRoot: string, e: Entry) returns (error: Option<FsError>)
      modifies this`fs
      ensures Effect(fs, error) == RestoreEntry(old(fs), dstRoot, e)
    {
      var target := JoinPaths([dstRoot, e.name]);
      if !(dstRoot <= target) { return Some(Escapes); }
      var parents := if e.node == Directory then Components(target) else Components(Dir(target));
      var made := MkdirAll(fs, parents);
      fs, error := made.fs, made.error;
      if error.None? && e.node.File? {
        var written := WriteFile(fs, Components(target), e.node.content);
        fs, error := written.fs, written.error;
      }
    }

    /** Restore: the loop over the archive's entries. */
    method Restore(uuid: string, backupId: string) returns (error: Option<FsError>)
      modifies this`fs
      ensures (uuid, backupId) !in archives ==> error == Some(NotExist) && fs == old(fs)
      ensures (uuid, backupId) in archives ==>
                Effect(fs, error) == Restored(old(fs), ServerRoot(dataDir, uuid), archives[(uuid, backupId)])
    {
      if (uuid, backupId) !in archives { return Some(NotExist); }
      var dstRoot, entries := ServerRoot(dataDir, uuid), archives[(uuid, backupId)];
      for i := 0 to |entries|
        invariant Restored(old(fs), dstRoot, entries[..i]) == Effect(fs, None)
      {
        RestoredOneMore(old(fs), dstRoot, entries, i);
        error := RestoreOne(dstRoot, entries[i]);
        if error.Some? {
          RestoredStops(old(fs), dstRoot, entries, i + 1);
          return;
        }
      }
      assert entries[..|entries|] == entries;
      error := None;
    }
  }

  /** What the callback archives of the walk from `p`: the root itself is skipped. */
  ghost function Visited(fs: Fs, root: Path, p: Path): seq<Path>
    requires p in fs
  {
    if p == root then (if fs[p] == Directory then WalkEach(fs, p, ReadDir(Children(fs, p))) else []) else Walk(fs, p)
  }

  lemma VisitedDirectory(fs: Fs, root: Path, p: Path, archive: seq<Entry>)
    requires WellFormed(fs) && p in fs && fs[p] == Directory && AtOrAbove(root, p)
    ensures var each := WalkEach(fs, p, ReadDir(Children(fs, p)));
            var head := if p == root then [] else [EntryOf(fs, root, p)];
            && Archivable(fs, root, each) && Archivable(fs, root, Visited(fs, root, p))
            && archive + Entries(fs, root, Visited(fs, root, p)) == archive + head + Entries(fs, root, each)
  {
    var each := WalkEach(fs, p, ReadDir(Children(fs, p)));
    WalkBelow(fs, root, p);
    assert Walk(fs, p)[1..] == each;
    if p != root {
      EntryThenRest(fs, root, p, each, archive);
    }
  }

  lemma EntryThenRest(fs: Fs, root: Path, p: Path, rest: seq<Path>, archive: seq<Entry>)
    requires p in fs && root <= p && Archivable(fs, root, rest)
    ensures Archivable(fs, root, [p] + rest)
    ensures archive + Entries(fs, root, [p] + rest) == archive + [EntryOf(fs, root, p)] + Entries(fs, root, rest)
  {
    EntriesOfTwo(fs, root, [p], rest);
    assert Entries(fs, root, [p]) == [EntryOf(fs, root, p)];
    Associative(archive, [EntryOf(fs, root, p)], Entries(fs, root, rest));
  }

  lemma VisitedFile(fs: Fs, root: Path, p: Path)
    requires p in fs && fs[p] != Directory && AtOrAbove(root, p)
    ensures Archivable(fs, root, Visited(fs, root, p))
    ensures Entries(fs, root, Visited(fs, root, p)) == if p == root then [] else [EntryOf(fs, root, p)]
  {}

  lemma VisitedEach(fs: Fs, root: Path, p: Path, names: seq<string>, archive: seq<Entry>)
    requires p in fs && AtOrAbove(root, p) && names != [] && forall n :: n in names ==> n in Children(fs, p)
    requires p + [names[0]] in fs && Archivable(fs, root, Visited(fs, root, p + [names[0]]))
    requires Archivable(fs, root, WalkEach(fs, p, names[1..]))
    ensures Archivable(fs, root, WalkEach(fs, p, names))
    ensures archive + Entries(fs, root, WalkEach(fs, p, names))
            == archive + Entries(fs, root, Visited(fs, root, p + [names[0]]))
               + Entries(fs, root, WalkEach(fs, p, names[1..]))
  {
    var a, b := Walk(fs, p + [names[0]]), WalkEach(fs, p, names[1..]);
    assert |root| < |p + [names[0]]|;
    EntriesOfTwo(fs, root, a, b);
    Associative(archive, Entries(fs, root, a), Entries(fs, root, b));
  }

  lemma WalkBelow(fs: Fs, root: Path, p: Path)
    requires WellFormed(fs) && p in fs && AtOrAbove(root, p)
    ensures Archivable(fs, root, Walk(fs, p)) && Walk(fs, p) != []
    ensures Archivable(fs, root, Walk(fs, p)[1..])
  {
    WalkVisits(fs, p);
    var s := Walk(fs, p);
    forall i | 0 <= i < |s| ensures s[i] in fs && root <= s[i] {
      assert s[i] in s && AtOrAbove(p, s[i]);
      PrefixTransitive(root, p, s[i]);
    }
    forall i | 0 <= i < |s[1..]| ensures s[1..][i] in fs && root <= s[1..][i] { assert s[1..][i] == s[i + 1]; }
  }

  lemma EntriesOfTwo(fs: Fs, root: Path, a: seq<Path>, b: seq<Path>)
    requires Archivable(fs, root, a) && Archivable(fs, root, b)
    ensures Archivable(fs, root, a + b)
    ensures Entries(fs, root, a + b) == Entries(fs, root, a) + Entries(fs, root, b)
  {}

  // ---------------------------------------------------------------------
  // An archive entry lands on the path it came from
  // ---------------------------------------------------------------------

  /** Recreating `node` at `p`, as Restore does it. */
  function PutNode(fs: Fs, p: Path, node: Node): Effect {
    match node
    case Directory => MkdirAll(fs, p)
    case File(content) =>
      var made := MkdirAll(fs, Parent(p));
      if made.error.Some? then made else WriteFile(made.fs, p, content)
  }

  /** Joining a root and a slash-separated relative path, as Restore computes its target. */
  lemma TargetOf(root: Path, rel: Path)
    requires AllPlain(root) && AllPlain(rel) && rel != []
    ensures JoinPaths([Spell(true, root), Join(rel, SLASH)]) == Spell(true, root + rel)
    ensures Spell(true, root) <= Spell(true, root + rel)
  {
    var dst, name := Spell(true, root), Join(rel, SLASH);
    assert [dst, name][1..] == [name] && Join([name], SLASH) == name;
    assert Join([dst, name], SLASH) == dst + [SLASH] + name;
    ComponentsOfJoin(dst, name);
    ComponentsOfSpelling(root);
    SplitJoin(rel, SLASH);
    FoldSettled(true, root, rel);
    SpellPrefix(root, rel);
  }

  lemma RestoreEntryAt(fs: Fs, dstRoot: string, e: Entry, full: string, q: Path)
    requires JoinPaths([dstRoot, e.name]) == full && dstRoot <= full
    requires Components(full) == q && Components(Dir(full)) == Parent(q)
    ensures RestoreEntry(fs, dstRoot, e) == PutNode(fs, q, e.node)
  {}

  lemma EntryLands(fs: Fs, source: Fs, root: Path, q: Path)
    requires q in source && root <= q && root != q && AllPlain(q)
    ensures RestoreEntry(fs, Spell(true, root), EntryOf(source, root, q)) == PutNode(fs, q, source[q])
  {
    var rel := q[|root|..];
    assert q == root + rel && root == q[..|root|];
    TargetOf(root, rel);
    ComponentsOfSpelling(q);
    DirDropsLast(q);
    RestoreEntryAt(fs, Spell(true, root), EntryOf(source, root, q), Spell(true, q), q);
  }

  /** Where a name joined to a rooted path leads: its elements folded onto that path's components. */
  function Leads(root: Path, name: string): Path { Fold(true, root, Split(name, SLASH)) }

  lemma LeadsThere(root: Path, name: string)
    requires AllPlain(root)
    ensures AllPlain(Leads(root, name))
    ensures JoinPaths([Spell(true, root), name]) == Spell(true, Leads(root, name))
  {
    var dst := Spell(true, root);
    assert [dst, name][1..] == [name] && Join([name], SLASH) == name;
    assert Join([dst, name], SLASH) == dst + [SLASH] + name;
    ComponentsOfJoin(dst, name);
    ComponentsOfSpelling(root);
    SplitPieces(name, SLASH);
    FoldSettles(true, root, Split(name, SLASH));
  }

  /** Any entry, however its name is spelled, that leads to the root or below it is put where it leads. */
  lemma EntryInside(fs: Fs, root: Path, e: Entry)
    requires AllPlain(root) && root <= Leads(root, e.name)
    ensures RestoreEntry(fs, Spell(true, root), e) == PutNode(fs, Leads(root, e.name), e.node)
  {
    var q := Leads(root, e.name);
    LeadsThere(root, e.name);
    assert q == root + q[|root|..];
    SpellPrefix(root, q[|root|..]);
    ComponentsOfSpelling(q);
    DirDropsLast(q);
    RestoreEntryAt(fs, Spell(true, root), e, Spell(true, q), q);
  }

  lemma LeadsOneUp(root: Path, name: string)
    requires AllPlain(root) && AllPlain(Leads(root, name))
    ensures Leads(root, name + "/..") == Parent(Leads(root, name))
  {
    var before := Leads(root, name);
    assert name + "/.." == name + [SLASH] + "..";
    SplitConcat(name, SLASH, "..");
    SplitWithout("..", SLASH);
    FoldAppend(true, root, Split(name, SLASH), [".."]);
    FoldOneUp(before);
  }

  lemma FoldOneUp(stack: Path)
    requires AllPlain(stack)
    ensures Fold(true, stack, [".."]) == Parent(stack)
  {
    assert Fold(true, stack, [".."]) == Fold(true, Push(true, stack, ".."), [".."][1..]);
  }

  lemma {:induction false} UpsLead(root: Path, n: nat)
    requires AllPlain(root) && n > 0
    ensures Leads(root, Ups(n)) == if n <= |root| then root[..|root| - n] else []
  {
    if n == 1 {
      SplitWithout("..", SLASH);
      FoldOneUp(root);
    } else {
      UpsLead(root, n - 1);
      LeadsOneUp(root, Ups(n - 1));
    }
  }

  lemma ShorterText(a: string, b: string)
    requires a <= b && a != b
    ensures !(b <= a)
  {
    assert b[..|b|] == b;
  }

  /** An entry that leads above the root is an error, and nothing is written. */
  lemma EntryAbove(fs: Fs, root: Path, n: nat, node: Node)
    requires AllPlain(root) && root != [] && n > 0
    ensures RestoreEntry(fs, Spell(true, root), Entry(Ups(n), node)) == Effect(fs, Some(Escapes))
  {
    var q := Leads(root, Ups(n));
    LeadsThere(root, Ups(n));
    UpsLead(root, n);
    assert root == q + root[|q|..];
    SpellPrefix(q, root[|q|..]);
    ComponentsOfSpelling(q);
    ComponentsOfSpelling(root);
    ShorterText(Spell(true, q), Spell(true, root));
  }

  /** Replaying the nodes of `source` at `paths`. */
  function Replay(fs: Fs, source: Fs, paths: seq<Path>): Effect
    requires forall i :: 0 <= i < |paths| ==> paths[i] in source
  {
    if paths == [] then Effect(fs, None)
    else
      var n := |paths| - 1;
      var before := Replay(fs, source, paths[..n]);
      if before.error.Some? then before else PutNode(before.fs, paths[n], source[paths[n]])
  }

  lemma {:induction false} RestoredIsReplay(fs: Fs, source: Fs, root: Path, paths: seq<Path>)
    requires WellFormed(source) && Archivable(source, root, paths)
    requires forall i :: 0 <= i < |paths| ==> paths[i] != root
    ensures Restored(fs, Spell(true, root), Entries(source, root, paths)) == Replay(fs, source, paths)
    decreases |paths|
  {
    if paths != [] {
      var n := |paths| - 1;
      assert Entries(source, root, paths)[..n] == Entries(source, root, paths[..n]);
      RestoredIsReplay(fs, source, root, paths[..n]);
      AncestorsAreDirs(source, paths[n]);
      EntryLands(Replay(fs, source, paths[..n]).fs, source, root, paths[n]);
    }
  }

  // ---------------------------------------------------------------------
  // What a replay leaves
  // ---------------------------------------------------------------------

  /** Distinct paths of `source` below `root`, parents first: what a walk yields. */
  ghost predicate Replayable(source: Fs, root: Path, paths: seq<Path>) {
    && WellFormed(source)
    && (forall i :: 0 <= i < |paths| ==> paths[i] in source && root <= paths[i] && paths[i] != root)
    && NoRepeats(paths) && ParentsFirst(paths, root)
  }

  /** The archived paths carry the archived nodes, the way to the root is directories, the rest is as before. */
  ghost predicate IsOverlay(before: Fs, source: Fs, root: Path, paths: seq<Path>, after: Fs) {
    && (forall q :: q in after <==> q in before || q in paths || (paths != [] && AtOrAbove(q, root)))
    && (forall q :: q in paths ==> q in source && q in after && after[q] == source[q])
    && (forall q :: paths != [] && AtOrAbove(q, root) ==> q in after && after[q] == Directory)
    && (forall q :: q in before && q !in paths && !(paths != [] && AtOrAbove(q, root)) ==> after[q] == before[q])
  }

  predicate SameKind(a: Node, b: Node) { a.Directory? <==> b.Directory? }

  /** No archived path has the other kind, and no component of the root is a file. */
  ghost predicate Compatible(before: Fs, source: Fs, root: Path, paths: seq<Path>)
    requires forall i :: 0 <= i < |paths| ==> paths[i] in source
  {
    && (paths != [] ==> !ThroughFile(before, root))
    && (forall i :: 0 <= i < |paths| && paths[i] in before ==> SameKind(before[paths[i]], source[paths[i]]))
  }

  lemma PutNodeKeeps(fs: Fs, p: Path, node: Node)
    requires WellFormed(fs) && AllPlain(p)
    ensures WellFormed(PutNode(fs, p, node).fs)
  {
    MkdirAllKeeps(fs, p);
    MkdirAllKeeps(fs, Parent(p));
    if node.File? {
      WriteFileKeeps(MkdirAll(fs, Parent(p)).fs, p, node.content);
    }
  }

  /** Below a directory that exists, putting a node touches that node only. */
  lemma PutInDirectory(fs: Fs, p: Path, node: Node)
    requires WellFormed(fs) && p != [] && IsDir(fs, Parent(p))
    ensures PutNode(fs, p, node).error.None? <==> (p in fs ==> SameKind(fs[p], node))
    ensures PutNode(fs, p, node).error.None? ==> PutNode(fs, p, node).fs == fs[p := node]
  {
    assert MkdirAll(fs, Parent(p)) == Effect(fs, None);
    if node.Directory? && p in fs && fs[p] == Directory {
      assert fs[p := Directory] == fs;
    }
  }

  /** The first node: the way to the root is made first. */
  lemma PutFirst(fs: Fs, p: Path, node: Node)
    requires WellFormed(fs) && p != [] && AllPlain(p)
    ensures var made := MkdirAll(fs, Parent(p));
            if made.error.Some? then PutNode(fs, p, node).error.Some?
            else IsDir(made.fs, Parent(p)) && PutNode(fs, p, node) == PutNode(made.fs, p, node)
  {
    var up := Parent(p);
    MkdirAllAdds(fs, up);
    assert AtOrAbove(up, up);
    assert p in fs ==> Placed(fs, p);
    assert p in fs ==> MkdirAll(fs, up) == Effect(fs, None);
    var made := MkdirAll(fs, up);
    if made.error.None? {
      assert MkdirAll(made.fs, up) == Effect(made.fs, None);
      assert p in made.fs <==> p in fs by { assert !AtOrAbove(p, up); }
    }
  }

  lemma OverlayStep(before: Fs, source: Fs, root: Path, paths: seq<Path>, p: Path, mid: Fs)
    requires p in source && p !in paths && root <= p && p != root
    requires paths != [] && IsOverlay(before, source, root, paths, mid)
    ensures IsOverlay(before, source, root, paths + [p], mid[p := source[p]])
  {}

  lemma OverlayFirst(before: Fs, source: Fs, root: Path, p: Path, made: Fs)
    requires p in source && root <= p && p != root && DirsAdded(before, root, made)
    ensures WellFormed(before) && !ThroughFile(before, root) ==>
              IsOverlay(before, source, root, [p], made[p := source[p]])
  {}

  /** The last of some replayable paths: new, below the root, in the root or in an earlier path. */
  ghost predicate Follows(source: Fs, root: Path, front: seq<Path>, p: Path) {
    p in source && root <= p && p != root && p !in front && (Parent(p) == root || Parent(p) in front)
  }

  lemma LastFollows(source: Fs, root: Path, paths: seq<Path>)
    requires Replayable(source, root, paths) && paths != []
    ensures Follows(source, root, paths[..|paths| - 1], paths[|paths| - 1])
  {}

  lemma ParentInDirectory(before: Fs, source: Fs, root: Path, front: seq<Path>, p: Path, mid: Fs)
    requires WellFormed(source) && Follows(source, root, front, p) && front != []
    requires IsOverlay(before, source, root, front, mid)
    ensures IsDir(mid, Parent(p))
  {
    if Parent(p) == root {
      assert AtOrAbove(root, root);
    } else {
      assert Placed(source, p);
    }
  }

  lemma ReplayablePrefix(source: Fs, root: Path, paths: seq<Path>, n: nat)
    requires Replayable(source, root, paths) && n <= |paths|
    ensures Replayable(source, root, paths[..n])
  {
    assert forall i :: 0 <= i < n ==> paths[..n][..i] == paths[..i];
  }

  lemma FirstReplayed(before: Fs, source: Fs, root: Path, p: Path)
    requires WellFormed(before) && p in source && Replayable(source, root, [p])
    ensures PutNode(before, p, source[p]).error.None? <==> Compatible(before, source, root, [p])
    ensures PutNode(before, p, source[p]).error.None? ==>
              WellFormed(PutNode(before, p, source[p]).fs)
              && IsOverlay(before, source, root, [p], PutNode(before, p, source[p]).fs)
  {
    assert [p][0] == p && [p][..0] == [];
    assert Parent(p) == root;
    AncestorsAreDirs(source, p);
    PutFirst(before, p, source[p]);
    PutNodeKeeps(before, p, source[p]);
    MkdirAllAdds(before, root);
    MkdirAllKeeps(before, root);
    var made := MkdirAll(before, root);
    if made.error.None? {
      assert !AtOrAbove(p, root);
      PutInDirectory(made.fs, p, source[p]);
      OverlayFirst(before, source, root, p, made.fs);
    }
  }

  /** It succeeded iff nothing archived has the other kind, and then left exactly the overlay. */
  ghost predicate ReplaysRight(before: Fs, source: Fs, root: Path, paths: seq<Path>, r: Effect)
    requires forall i :: 0 <= i < |paths| ==> paths[i] in source
  {
    && (r.error.None? <==> Compatible(before, source, root, paths))
    && (r.error.None? ==> WellFormed(r.fs) && IsOverlay(before, source, root, paths, r.fs))
  }

  lemma {:induction false} ReplayIsOverlay(before: Fs, source: Fs, root: Path, paths: seq<Path>)
    requires WellFormed(before) && Replayable(source, root, paths)
    ensures ReplaysRight(before, source, root, paths, Replay(before, source, paths))
    decreases |paths|
  {
    if |paths| == 1 {
      ReplayOne(before, source, root, paths);
    } else if |paths| > 1 {
      var front := paths[..|paths| - 1];
      ReplayablePrefix(source, root, paths, |paths| - 1);
      ReplayIsOverlay(before, source, root, front);
      ReplayMore(before, source, root, paths, Replay(before, source, front));
    }
  }

  lemma ReplayMore(before: Fs, source: Fs, root: Path, paths: seq<Path>, mid: Effect)
    requires Replayable(source, root, paths) && |paths| > 1
    requires Replayable(source, root, paths[..|paths| - 1])
    requires ReplaysRight(before, source, root, paths[..|paths| - 1], mid)
    ensures var p := paths[|paths| - 1];
            ReplaysRight(before, source, root, paths, if mid.error.Some? then mid else PutNode(mid.fs, p, source[p]))
  {
    var p, front := paths[|paths| - 1], paths[..|paths| - 1];
    CompatibleStep(before, source, root, paths);
    if mid.error.None? {
      LastFollows(source, root, paths);
      assert paths == front + [p];
      ReplayStep(before, source, root, front, p, mid.fs);
    }
  }

  lemma ReplayOne(before: Fs, source: Fs, root: Path, paths: seq<Path>)
    requires WellFormed(before) && Replayable(source, root, paths) && |paths| == 1
    ensures ReplaysRight(before, source, root, paths, Replay(before, source, paths))
  {
    assert paths == [paths[0]] && paths[..0] == [];
    assert Replay(before, source, paths[..0]) == Effect(before, None);
    FirstReplayed(before, source, root, paths[0]);
  }

  lemma CompatibleStep(before: Fs, source: Fs, root: Path, paths: seq<Path>)
    requires |paths| > 1 && forall i :: 0 <= i < |paths| ==> paths[i] in source
    ensures var p := paths[|paths| - 1];
            Compatible(before, source, root, paths)
            <==> Compatible(before, source, root, paths[..|paths| - 1])
                 && (p in before ==> SameKind(before[p], source[p]))
  {
    var n := |paths| - 1;
    assert forall i :: 0 <= i < n ==> paths[..n][i] == paths[i];
    if Compatible(before, source, root, paths[..n])
       && (paths[n] in before ==> SameKind(before[paths[n]], source[paths[n]])) {
      forall i | 0 <= i < |paths| && paths[i] in before ensures SameKind(before[paths[i]], source[paths[i]]) {
        if i < n { assert paths[..n][i] == paths[i]; }
      }
    }
  }

  lemma ReplayStep(before: Fs, source: Fs, root: Path, front: seq<Path>, p: Path, mid: Fs)
    requires WellFormed(source) && WellFormed(mid) && Follows(source, root, front, p) && front != []
    requires IsOverlay(before, source, root, front, mid)
    ensures var r := PutNode(mid, p, source[p]);
            && (r.error.None? <==> (p in before ==> SameKind(before[p], source[p])))
            && (r.error.None? ==> WellFormed(r.fs) && IsOverlay(before, source, root, front + [p], r.fs))
  {
    ParentInDirectory(before, source, root, front, p, mid);
    AncestorsAreDirs(source, p);
    PutInDirectory(mid, p, source[p]);
    PutNodeKeeps(mid, p, source[p]);
    assert !AtOrAbove(p, root);
    NotYetTouched(before, source, root, front, p, mid);
    OverlayStep(before, source, root, front, p, mid);
  }

  lemma NotYetTouched(before: Fs, source: Fs, root: Path, paths: seq<Path>, p: Path, mid: Fs)
    requires IsOverlay(before, source, root, paths, mid) && p !in paths && !AtOrAbove(p, root)
    ensures p in mid <==> p in before
    ensures p in before ==> mid[p] == before[p]
  {}

  // ---------------------------------------------------------------------
  // Create then Restore
  // ---------------------------------------------------------------------

  /** Nothing on the way to the root is a file, and no archived path has the other kind. */
  ghost predicate KindsAgree(current: Fs, source: Fs, root: Path) {
    && (Below(source, root) != {} ==> !ThroughFile(current, root))
    && (forall q :: q in Below(source, root) && q in current ==> SameKind(current[q], source[q]))
  }

  /** The archived paths are as archived, every other path is as before, only the way to the root is new. */
  ghost predicate LaidOver(current: Fs, source: Fs, root: Path, after: Fs) {
    && (forall q :: q in after <==>
          q in current || q in Below(source, root) || (Below(source, root) != {} && AtOrAbove(q, root)))
    && (forall q :: q in Below(source, root) ==> q in after && after[q] == source[q])
    && (forall q :: q in after && q !in Below(source, root) ==>
          after[q] == if q in current then current[q] else Directory)
  }

  /** The archived paths, in the walk's order, are what lies strictly below the root, parents first. */
  lemma ArchiveReplayable(source: Fs, root: Path)
    requires WellFormed(source) && root in source
    ensures Replayable(source, root, Walk(source, root)[1..])
    ensures forall q :: q in Walk(source, root)[1..] <==> q in Below(source, root)
    ensures Walk(source, root)[1..] == [] <==> Below(source, root) == {}
  {
    WalkVisits(source, root);
    var s := Walk(source, root);
    var paths := s[1..];
    assert s == [root] + paths;
    forall i | 0 <= i < |paths| ensures paths[i] in source && root <= paths[i] && paths[i] != root {
      assert s[i + 1] == paths[i] && s[i + 1] in s && AtOrAbove(root, s[i + 1]);
    }
    forall q ensures q in paths <==> q in Below(source, root) {
      if q in Below(source, root) { assert AtOrAbove(root, q) && q in s; }
    }
    if paths != [] { assert paths[0] in Below(source, root); }
    if Below(source, root) != {} {
      var q :| q in Below(source, root);
      assert q in paths;
    }
  }

  lemma CompatibleMeansKindsAgree(current: Fs, source: Fs, root: Path, paths: seq<Path>)
    requires Replayable(source, root, paths)
    requires forall q :: q in paths <==> q in Below(source, root)
    requires paths == [] <==> Below(source, root) == {}
    ensures Compatible(current, source, root, paths) <==> KindsAgree(current, source, root)
  {
    if Compatible(current, source, root, paths) {
      forall q | q in Below(source, root) && q in current ensures SameKind(current[q], source[q]) {
        var i :| 0 <= i < |paths| && paths[i] == q;
      }
    }
  }

  lemma OverlayMeansLaidOver(current: Fs, source: Fs, root: Path, paths: seq<Path>, after: Fs)
    requires WellFormed(current) && KindsAgree(current, source, root)
    requires forall q :: q in paths <==> q in Below(source, root)
    requires paths == [] <==> Below(source, root) == {}
    requires IsOverlay(current, source, root, paths, after)
    ensures LaidOver(current, source, root, after)
  {
    forall q | q in after && q !in Below(source, root)
      ensures after[q] == if q in current then current[q] else Directory
    {
      if q in current && paths != [] && AtOrAbove(q, root) {
        assert q == root[..|q|];
        assert current[q].Directory?;
      }
    }
  }

  /**
    Restoring the archive of any tree onto any other: it succeeds exactly when
    the kinds agree, and then every archived path is as archived and every other
    path is as before.
   */
  lemma RestoreExact(dataDir: string, uuid: string, source: Fs, current: Fs)
    requires Rooted(dataDir) && WellFormed(source) && WellFormed(current) && RootOf(dataDir, uuid) in source
    ensures var root := RootOf(dataDir, uuid);
            var r := Restored(current, ServerRoot(dataDir, uuid), Archive(source, root).value);
            && (r.error.None? <==> KindsAgree(current, source, root))
            && (r.error.None? ==> WellFormed(r.fs) && LaidOver(current, source, root, r.fs))
  {
    var root := RootOf(dataDir, uuid);
    RootSpelling(dataDir, uuid);
    ArchiveReplayable(source, root);
    var paths := Walk(source, root)[1..];
    RestoredIsReplay(current, source, root, paths);
    ReplayIsOverlay(current, source, root, paths);
    CompatibleMeansKindsAgree(current, source, root, paths);
    if KindsAgree(current, source, root) {
      OverlayMeansLaidOver(current, source, root, paths, Replay(current, source, paths).fs);
    }
  }

  /** Restoring once more changes nothing and fails nowhere. */
  lemma RestoreTwice(dataDir: string, uuid: string, source: Fs, current: Fs)
    requires Rooted(dataDir) && WellFormed(source) && WellFormed(current) && RootOf(dataDir, uuid) in source
    requires KindsAgree(current, source, RootOf(dataDir, uuid))
    ensures var entries := Archive(source, RootOf(dataDir, uuid)).value;
            var once := Restored(current, ServerRoot(dataDir, uuid), entries);
            Restored(once.fs, ServerRoot(dataDir, uuid), entries) == once
  {
    var root := RootOf(dataDir, uuid);
    RestoreExact(dataDir, uuid, source, current);
    var once := Restored(current, ServerRoot(dataDir, uuid), Archive(source, root).value);
    LaidOverAgrees(current, source, root, once.fs);
    RestoreExact(dataDir, uuid, source, once.fs);
    var twice := Restored(once.fs, ServerRoot(dataDir, uuid), Archive(source, root).value);
    assert forall q :: q in twice.fs <==> q in once.fs;
    assert twice.fs == once.fs;
  }

  lemma LaidOverAgrees(current: Fs, source: Fs, root: Path, after: Fs)
    requires KindsAgree(current, source, root) && LaidOver(current, source, root, after)
    ensures KindsAgree(after, source, root)
  {
    if Below(source, root) != {} && ThroughFile(after, root) {
      NoFileAppears(current, source, root, after);
    }
  }

  lemma NoFileAppears(current: Fs, source: Fs, root: Path, after: Fs)
    requires LaidOver(current, source, root, after)
    ensures ThroughFile(after, root) ==> ThroughFile(current, root)
  {
    if n :| 0 <= n <= |root| && root[..n] in after && after[root[..n]].File? {
      assert root[..n] !in Below(source, root);
      assert root[..n] in current;
    }
  }

  lemma {:induction false} WalkSame(x: Fs, y: Fs, p: Path)
    requires p in x && SameBelow(x, y, p)
    ensures p in y && Walk(x, p) == Walk(y, p)
    decreases Below(x, p), 1, 0
  {
    assert AtOrAbove(p, p);
    assert Children(x, p) == Children(y, p) by {
      forall q | p <= q ensures q in x <==> q in y { assert AtOrAbove(p, q); }
    }
    if x[p] == Directory {
      WalkEachSame(x, y, p, ReadDir(Children(x, p)));
    }
  }

  lemma {:induction false} WalkEachSame(x: Fs, y: Fs, p: Path, names: seq<string>)
    requires SameBelow(x, y, p) && Children(x, p) == Children(y, p)
    requires forall n :: n in names ==> n in Children(x, p)
    ensures WalkEach(x, p, names) == WalkEach(y, p, names)
    decreases Below(x, p), 0, |names|
  {
    if names != [] {
      var c := p + [names[0]];
      BelowChild(x, p, names[0]);
      ChildExists(x, p, names[0]);
      SameBelowLonger(x, y, p, c);
      WalkSame(x, y, c);
      WalkEachSame(x, y, p, names[1..]);
    }
  }

  lemma SameBelowLonger(x: Fs, y: Fs, p: Path, c: Path)
    requires SameBelow(x, y, p) && p <= c
    ensures SameBelow(x, y, c)
  {
    forall q | AtOrAbove(c, q) ensures (q in x <==> q in y) && (q in x ==> x[q] == y[q]) {
      PrefixTransitive(p, c, q);
      assert AtOrAbove(p, q);
    }
  }

  lemma ArchiveSame(x: Fs, y: Fs, root: Path)
    requires WellFormed(x) && WellFormed(y) && root in x && SameBelow(x, y, root)
    ensures Archive(x, root) == Archive(y, root)
  {
    WalkSame(x, y, root);
    WalkVisits(x, root);
    WalkVisits(y, root);
    var paths := Walk(x, root)[1..];
    forall i | 0 <= i < |paths| ensures EntryOf(x, root, paths[i]) == EntryOf(y, root, paths[i]) {
      assert AtOrAbove(root, paths[i]);
    }
    assert Entries(x, root, paths) == Entries(y, root, paths);
  }

  /**
    Restoring onto a wiped server, then archiving again, gives the same entries:
    the same names, kinds and contents in the same order. An empty archive does
    not bring a missing root back, so that there is nothing to archive then.
   */
  lemma WipedThenRestored(dataDir: string, uuid: string, source: Fs, wiped: Fs)
    requires Rooted(dataDir) && WellFormed(source) && WellFormed(wiped)
    requires IsDir(source, RootOf(dataDir, uuid)) && Below(wiped, RootOf(dataDir, uuid)) == {}
    requires !ThroughFile(wiped, RootOf(dataDir, uuid))
    ensures var root := RootOf(dataDir, uuid);
            var entries := Archive(source, root).value;
            var r := Restored(wiped, ServerRoot(dataDir, uuid), entries);
            && r.error.None? && WellFormed(r.fs)
            && (Archive(r.fs, root) == Ok(entries) <==> entries != [] || root in wiped)
            && (Archive(r.fs, root) == Err(NotExist) <==> entries == [] && root !in wiped)
  {
    var root := RootOf(dataDir, uuid);
    ArchiveReplayable(source, root);
    WipedAgrees(wiped, source, root);
    RestoreExact(dataDir, uuid, source, wiped);
    var after := Restored(wiped, ServerRoot(dataDir, uuid), Archive(source, root).value).fs;
    assert AtOrAbove(root, root);
    if Below(source, root) != {} || root in wiped {
      WipedSame(wiped, source, root, after);
      ArchiveSame(source, after, root);
    }
  }

  lemma WipedAgrees(wiped: Fs, source: Fs, root: Path)
    requires Below(wiped, root) == {} && !ThroughFile(wiped, root)
    ensures KindsAgree(wiped, source, root)
  {
    forall q | q in Below(source, root) ensures q !in wiped {
      assert q in wiped ==> q in Below(wiped, root);
    }
  }

  lemma WipedSame(wiped: Fs, source: Fs, root: Path, after: Fs)
    requires IsDir(source, root) && LaidOver(wiped, source, root, after)
    requires Below(wiped, root) == {} && !ThroughFile(wiped, root)
    requires Below(source, root) != {} || root in wiped
    ensures SameBelow(source, after, root)
  {
    assert AtOrAbove(root, root) && root[..|root|] == root;
    forall q | AtOrAbove(root, q) ensures (q in source <==> q in after) && (q in source ==> source[q] == after[q]) {
      if q != root {
        assert q in wiped ==> q in Below(wiped, root);
        assert q in source <==> q in Below(source, root);
        assert !AtOrAbove(q, root);
      }
    }
  }

  /** An empty server, archived, removed with its directory, and restored: it cannot be archived again. */
  lemma EmptyServerStaysRemoved(dataDir: string, uuid: string)
    requires Rooted(dataDir) && Plain(uuid)
    ensures var root, bare := RootOf(dataDir, uuid), map[[] := Directory];
            var source := MkdirAll(bare, root).fs;
            && WellFormed(source) && IsDir(source, root) && Archive(source, root) == Ok([])
            && var r := Restored(bare, ServerRoot(dataDir, uuid), []);
               WellFormed(r.fs) && r.error.None? && Archive(r.fs, root) == Err(NotExist)
  {
    var root, bare := RootOf(dataDir, uuid), map[[] := Directory];
    RootBelowServersDir(dataDir, uuid);
    BareTree(bare, root);
    var source := MkdirAll(bare, root).fs;
    MkdirAllAdds(bare, root);
    MkdirAllKeeps(bare, root);
    assert AtOrAbove(root, root);
    forall q ensures q !in Below(source, root) {
      if q in source { assert q in bare || AtOrAbove(q, root); }
    }
    ArchiveReplayable(source, root);
    WipedThenRestored(dataDir, uuid, source, bare);
  }

  /** A tree with nothing but its root directory. */
  lemma BareTree(bare: Fs, root: Path)
    requires bare == map[[] := Directory] && root != []
    ensures WellFormed(bare) && !ThroughFile(bare, root) && Below(bare, root) == {} && root !in bare
  {
    assert Placed(bare, []);
    forall q ensures q !in Below(bare, root) {}
  }
}
