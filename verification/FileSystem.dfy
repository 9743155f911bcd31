/**
  A symlink-free file system, as a map from component sequences to nodes, and
  the calls of Go's os package that the daemon makes on it.
 */
module FileSystem {
  import opened Wrappers
  import opened GoPaths

  type Path = seq<string>

  datatype Node = Directory | File(content: seq<bv8>)

  type Fs = map<Path, Node>

  datatype FsError = NotExist | NotDirectory | IsDirectory | Exist | Invalid | Escapes | Denied | Unsupported

  /** The tree after a call, and the error it returned. */
  datatype Effect = Effect(fs: Fs, error: Option<FsError>)

  /** `q` is `p` or one of its ancestors. */
  predicate AtOrAbove(q: Path, p: Path) { q <= p }

  function Parent(p: Path): Path { if p == [] then [] else p[..|p| - 1] }

  predicate IsDir(fs: Fs, p: Path) { p in fs && fs[p] == Directory }

  /** The root is a directory; every other entry has a plain name in an existing directory. */
  predicate Placed(fs: Fs, p: Path) {
    if p == [] then IsDir(fs, p) else Plain(p[|p| - 1]) && IsDir(fs, Parent(p))
  }

  ghost predicate WellFormed(fs: Fs) {
    [] in fs && forall p {:trigger Placed(fs, p)} :: p in fs ==> Placed(fs, p)
  }

  /** Some component of `p`, the last included, is a file. */
  predicate ThroughFile(fs: Fs, p: Path) {
    exists n :: 0 <= n <= |p| && p[..n] in fs && fs[p[..n]].File?
  }

  /** Why a path that leads nowhere cannot be opened: ENOTDIR behind a file, ENOENT otherwise. */
  function Missing(fs: Fs, p: Path): FsError { if ThroughFile(fs, p) then NotDirectory else NotExist }

  function MkdirAll(fs: Fs, p: Path): Effect {
    if p in fs then Effect(fs, if fs[p] == Directory then None else Some(NotDirectory))
    else if p == [] then Effect(fs, Some(NotExist))
    else
      var up := MkdirAll(fs, Parent(p));
      if up.error.Some? then up else Effect(up.fs[p := Directory], None)
  }

  /** Open for writing with O_CREATE|O_TRUNC, then write. */
  function WriteFile(fs: Fs, p: Path, content: seq<bv8>): Effect {
    if p in fs then
      if fs[p] == Directory then Effect(fs, Some(IsDirectory)) else Effect(fs[p := File(content)], None)
    else if p == [] || !IsDir(fs, Parent(p)) then Effect(fs, Some(Missing(fs, p)))
    else Effect(fs[p := File(content)], None)
  }

  /** A file's content after a write at an offset; a gap before it is filled with zeros. */
  function Patched(content: seq<bv8>, offset: nat, data: seq<bv8>): seq<bv8> {
    var padded := if |content| < offset then content + seq(offset - |content|, _ => 0) else content;
    if data == [] then content
    else padded[..offset] + data + if offset + |data| < |padded| then padded[offset + |data|..] else []
  }

  /** Writing through an open file; once the file is gone, what is written is seen nowhere. */
  function WriteAt(fs: Fs, p: Path, offset: nat, data: seq<bv8>): Effect {
    if p in fs && fs[p].File? then Effect(fs[p := File(Patched(fs[p].content, offset, data))], None)
    else Effect(fs, None)
  }

  /** Everything but `p` and what is below it. */
  function Without(fs: Fs, p: Path): Fs { map q | q in fs && !(p <= q) :: fs[q] }

  function RemoveAll(fs: Fs, p: Path): Effect {
    if p == [] then Effect(fs, Some(Invalid))
    else if ThroughFile(fs, Parent(p)) then Effect(fs, Some(NotDirectory))
    else Effect(Without(fs, p), None)
  }

  /** The new names of the entries at and below `from`. */
  function NewNames(fs: Fs, from: Path, to: Path): set<Path> {
    set q | q in fs && from <= q :: to + q[|from|..]
  }

  function OldName(from: Path, to: Path, k: Path): Path
    requires to <= k
  {
    from + k[|to|..]
  }

  lemma NewNamesHaveOld(fs: Fs, from: Path, to: Path)
    ensures forall k :: k in NewNames(fs, from, to) <==> to <= k && OldName(from, to, k) in fs
  {
    forall k ensures k in NewNames(fs, from, to) <==> to <= k && OldName(from, to, k) in fs {
      if k in NewNames(fs, from, to) {
        var q :| q in fs && from <= q && k == to + q[|from|..];
        assert OldName(from, to, k) == q;
      }
      if to <= k && OldName(from, to, k) in fs {
        var q := OldName(from, to, k);
        assert from <= q && k == to + q[|from|..];
      }
    }
  }

  function Moved(fs: Fs, from: Path, to: Path): Fs {
    NewNamesHaveOld(fs, from, to);
    map k | k in NewNames(fs, from, to) :: fs[OldName(from, to, k)]
  }

  /** os.Rename: never onto a directory, never below itself. */
  function Rename(fs: Fs, from: Path, to: Path): Effect {
    if to in fs && fs[to] == Directory then Effect(fs, Some(if from in fs then Exist else Missing(fs, from)))
    else if from !in fs then Effect(fs, Some(Missing(fs, from)))
    else if to == [] || !IsDir(fs, Parent(to)) then Effect(fs, Some(Missing(fs, to)))
    else if from == to then Effect(fs, None)
    else if from <= to then Effect(fs, Some(Invalid))
    else if to in fs && fs[from] == Directory then Effect(fs, Some(NotDirectory))
    else Effect(Without(fs, from) + Moved(fs, from, to), None)
  }

  // ---------------------------------------------------------------------
  // What the calls do
  // ---------------------------------------------------------------------

  /** `fs'` is `fs` with the missing directories on the way to `p`. */
  ghost predicate DirsAdded(fs: Fs, p: Path, fs': Fs) {
    && (forall q :: q in fs' <==> q in fs || AtOrAbove(q, p))
    && (forall q :: q in fs ==> fs'[q] == fs[q])
    && (forall q :: AtOrAbove(q, p) ==> q in fs' && fs'[q] == Directory)
  }

  lemma {:induction false} AncestorsAreDirs(fs: Fs, p: Path)
    requires WellFormed(fs) && p in fs
    ensures forall q :: AtOrAbove(q, p) && q != p ==> IsDir(fs, q)
    ensures AllPlain(p)
    decreases |p|
  {
    assert Placed(fs, p);
    if p != [] {
      AncestorsAreDirs(fs, Parent(p));
      forall q | AtOrAbove(q, p) && q != p ensures IsDir(fs, q) {
        PrefixOfParent(p, q);
      }
    }
  }

  lemma PrefixOfParent(p: Path, q: Path)
    requires p != []
    ensures AtOrAbove(q, p) <==> AtOrAbove(q, Parent(p)) || q == p
  {
    if q <= p && q != p {
      assert q == p[..|q|] == Parent(p)[..|q|];
    }
    if q <= Parent(p) {
      assert q == Parent(p)[..|q|] == p[..|q|];
    }
  }

  /** mkdir -p succeeds iff no component is a file, adds the missing directories and nothing else. */
  lemma {:induction false} MkdirAllAdds(fs: Fs, p: Path)
    requires WellFormed(fs)
    ensures MkdirAll(fs, p).error.None? <==> !ThroughFile(fs, p)
    ensures MkdirAll(fs, p).error.Some? ==> MkdirAll(fs, p).fs == fs
    ensures MkdirAll(fs, p).error.None? ==> DirsAdded(fs, p, MkdirAll(fs, p).fs)
    decreases |p|
  {
    assert p[..|p|] == p;
    if p in fs {
      AncestorsAreDirs(fs, p);
      forall n | 0 <= n < |p| ensures IsDir(fs, p[..n]) { assert AtOrAbove(p[..n], p) && p[..n] != p; }
    } else {
      var up := Parent(p);
      MkdirAllAdds(fs, up);
      forall n | 0 <= n <= |up| ensures p[..n] == up[..n] {}
      forall q ensures AtOrAbove(q, p) <==> AtOrAbove(q, up) || q == p { PrefixOfParent(p, q); }
    }
  }

  lemma MkdirAllKeeps(fs: Fs, p: Path)
    requires WellFormed(fs) && AllPlain(p)
    ensures WellFormed(MkdirAll(fs, p).fs)
  {
    MkdirAllAdds(fs, p);
    var r := MkdirAll(fs, p);
    if r.error.None? {
      assert Placed(fs, []);
      forall q | q in r.fs ensures Placed(r.fs, q) {
        if q in fs {
          assert Placed(fs, q);
        } else {
          assert q[|q| - 1] == p[|q| - 1];
          assert AtOrAbove(Parent(q), p);
        }
      }
    }
  }

  lemma WriteFileKeeps(fs: Fs, p: Path, content: seq<bv8>)
    requires WellFormed(fs) && AllPlain(p)
    ensures WellFormed(WriteFile(fs, p, content).fs)
  {
    var r := WriteFile(fs, p, content);
    if r.error.None? {
      assert Placed(fs, []);
      assert p in fs ==> Placed(fs, p);
      forall q | q in r.fs ensures Placed(r.fs, q) {
        if q != p { assert Placed(fs, q); }
      }
    }
  }

  lemma WriteAtKeeps(fs: Fs, p: Path, offset: nat, data: seq<bv8>)
    requires WellFormed(fs)
    ensures WellFormed(WriteAt(fs, p, offset, data).fs)
  {
    var r := WriteAt(fs, p, offset, data).fs;
    assert Placed(fs, []);
    forall q | q in r ensures Placed(r, q) { assert Placed(fs, q); }
  }

  lemma ParentAbove(p: Path, q: Path)
    requires p <= Parent(q)
    ensures p <= q
  {
    assert Parent(q) == q[..|Parent(q)|];
  }

  lemma RemoveAllKeeps(fs: Fs, p: Path)
    requires WellFormed(fs)
    ensures WellFormed(RemoveAll(fs, p).fs)
  {
    var r := RemoveAll(fs, p);
    if r.error.None? {
      forall q | q in r.fs ensures Placed(r.fs, q) {
        assert Placed(fs, q);
        if q != [] && p <= Parent(q) { ParentAbove(p, q); }
      }
    }
  }

  /** What was removed does not exist, and nothing on the way to it is a file. */
  lemma RemovedIsMissing(fs: Fs, p: Path)
    requires RemoveAll(fs, p).error.None?
    ensures var r := RemoveAll(fs, p).fs; p !in r && Missing(r, p) == NotExist
  {
    var r := RemoveAll(fs, p).fs;
    forall n | 0 <= n <= |p| && p[..n] in r ensures !r[p[..n]].File? {
      assert p[..|p|] == p;
      assert p[..n] == Parent(p)[..n];
    }
  }

  lemma PatchedAtEnd(content: seq<bv8>, data: seq<bv8>)
    ensures Patched(content, |content|, data) == content + data
  {
    assert content[..|content|] == content;
  }

  /** The conditions under which a rename moves something. */
  ghost predicate Moves(fs: Fs, from: Path, to: Path) { Rename(fs, from, to).error.None? && from != to }

  /** Nothing lies below the target of a rename. */
  lemma NothingBelow(fs: Fs, from: Path, to: Path, q: Path)
    requires WellFormed(fs) && Moves(fs, from, to) && q in fs && to <= q
    ensures q == to
  {
    AncestorsAreDirs(fs, q);
    assert AtOrAbove(to, q);
  }

  lemma MovedEntry(fs: Fs, from: Path, to: Path, k: Path)
    requires WellFormed(fs) && AllPlain(to) && Moves(fs, from, to)
    requires k in NewNames(fs, from, to)
    ensures Placed(Without(fs, from) + Moved(fs, from, to), k)
  {
    NewNamesHaveOld(fs, from, to);
    var r := Without(fs, from) + Moved(fs, from, to);
    if k == to {
      if from <= Parent(to) { ParentAbove(from, to); }
      assert Parent(to) !in NewNames(fs, from, to);
    } else {
      var o := OldName(from, to, k);
      assert Placed(fs, o);
      assert o[|o| - 1] == k[|k| - 1];
      assert Parent(k) == to + k[|to|..|k| - 1] && OldName(from, to, Parent(k)) == Parent(o);
    }
  }

  lemma KeptEntry(fs: Fs, from: Path, to: Path, q: Path)
    requires WellFormed(fs) && Moves(fs, from, to)
    requires q in fs && !(from <= q) && q !in NewNames(fs, from, to)
    ensures Placed(Without(fs, from) + Moved(fs, from, to), q)
  {
    NewNamesHaveOld(fs, from, to);
    assert Placed(fs, q);
    if q != [] {
      var up := Parent(q);
      if from <= up { ParentAbove(from, q); }
      if up in NewNames(fs, from, to) {
        ParentAbove(to, q);
        NothingBelow(fs, from, to, q);
        assert false;
      }
    } else {
      assert [] !in NewNames(fs, from, to);
    }
  }

  lemma RenameKeeps(fs: Fs, from: Path, to: Path)
    requires WellFormed(fs) && AllPlain(to)
    ensures WellFormed(Rename(fs, from, to).fs)
  {
    if Moves(fs, from, to) {
      var r := Rename(fs, from, to).fs;
      NewNamesHaveOld(fs, from, to);
      assert from != [] && [] !in NewNames(fs, from, to);
      forall q | q in r ensures Placed(r, q) {
        if q in NewNames(fs, from, to) { MovedEntry(fs, from, to, q); } else { KeptEntry(fs, from, to, q); }
      }
    }
  }

  /** Where nothing is, nothing is below. */
  lemma NothingBelowNothing(fs: Fs, p: Path, q: Path)
    requires WellFormed(fs) && p !in fs && q in fs
    ensures !(p <= q)
  {
    AncestorsAreDirs(fs, q);
    assert AtOrAbove(p, q) ==> p in fs;
  }

  lemma RoundName(from: Path, to: Path, k: Path)
    requires from <= k
    ensures OldName(from, to, OldName(to, from, k)) == k
  {
    assert OldName(to, from, k)[|to|..] == k[|from|..];
  }

  /** After a move to a free name, what is where. */
  lemma AfterMove(fs: Fs, from: Path, to: Path, q: Path)
    requires WellFormed(fs) && Moves(fs, from, to) && to !in fs
    ensures var r := Rename(fs, from, to).fs;
            && (q in r <==> if to <= q then OldName(from, to, q) in fs else q in fs && !(from <= q))
            && (q in r ==> r[q] == if to <= q then fs[OldName(from, to, q)] else fs[q])
  {
    NewNamesHaveOld(fs, from, to);
    if q in fs { NothingBelowNothing(fs, to, q); }
  }

  lemma CanMoveBack(fs: Fs, from: Path, to: Path)
    requires WellFormed(fs) && Moves(fs, from, to) && to !in fs
    ensures Moves(Rename(fs, from, to).fs, to, from) && from !in Rename(fs, from, to).fs
  {
    var r, up := Rename(fs, from, to).fs, Parent(from);
    assert from != [] && Placed(fs, from);
    NothingBelowNothing(fs, to, from);
    NothingBelowNothing(fs, to, up);
    AfterMove(fs, from, to, from);
    AfterMove(fs, from, to, up);
    AfterMove(fs, from, to, to);
    assert OldName(from, to, to) == from;
    assert from !in r && to in r && up in r && r[up] == Directory;
  }

  lemma BackWhere(fs: Fs, from: Path, to: Path, q: Path)
    requires WellFormed(fs) && AllPlain(to) && Moves(fs, from, to) && to !in fs
    requires Moves(Rename(fs, from, to).fs, to, from) && from !in Rename(fs, from, to).fs
    ensures var back := Rename(Rename(fs, from, to).fs, to, from).fs;
            (q in back <==> q in fs) && (q in fs ==> back[q] == fs[q])
  {
    var r := Rename(fs, from, to).fs;
    RenameKeeps(fs, from, to);
    AfterMove(r, to, from, q);
    if from <= q {
      AfterMove(fs, from, to, OldName(to, from, q));
      RoundName(from, to, q);
    } else {
      AfterMove(fs, from, to, q);
      if q in fs { NothingBelowNothing(fs, to, q); }
    }
  }

  /** Renaming to a free name and back again changes nothing at all. */
  lemma RenameAndBack(fs: Fs, from: Path, to: Path)
    requires WellFormed(fs) && AllPlain(to) && Moves(fs, from, to) && to !in fs
    ensures Rename(Rename(fs, from, to).fs, to, from) == Effect(fs, None)
  {
    CanMoveBack(fs, from, to);
    var back := Rename(Rename(fs, from, to).fs, to, from).fs;
    forall q ensures (q in back <==> q in fs) && (q in fs ==> back[q] == fs[q]) {
      BackWhere(fs, from, to, q);
    }
    assert back == fs;
  }

  // ---------------------------------------------------------------------
  // Each call, exactly: when it succeeds, why it fails, and what is where
  // ---------------------------------------------------------------------

  /** A file stands where a directory above `p` would have to be. */
  ghost predicate FileAbove(fs: Fs, p: Path) {
    exists n :: 0 <= n < |p| && p[..n] in fs && fs[p[..n]] != Directory
  }

  /** `fs'` is `fs` with one file written and the missing directories above it made. */
  ghost predicate Written(fs: Fs, p: Path, content: seq<bv8>, fs': Fs) {
    && (forall q :: q in fs' <==> q in fs || q <= p)
    && (forall q :: q in fs' ==> fs'[q] == if q == p then File(content) else if q in fs then fs[q] else Directory)
  }

  /** `fs'` is `fs` without `p` and everything below it. */
  ghost predicate Removed(fs: Fs, p: Path, fs': Fs) {
    && (forall q :: q in fs' <==> q in fs && !(p <= q))
    && (forall q :: q in fs' ==> fs'[q] == fs[q])
  }

  /** `fs'` is `fs` with `from` and everything below it at `to`, and the missing directories above `to` made. */
  ghost predicate Renamed(fs: Fs, from: Path, to: Path, fs': Fs) {
    && (forall q :: q in fs' <==> if to <= q then from + q[|to|..] in fs else (q in fs && !(from <= q)) || q <= to)
    && (forall q :: q in fs' ==>
          fs'[q] == if to <= q then fs[from + q[|to|..]] else if q in fs then fs[q] else Directory)
  }

  /** What is at `from` can take the name `to`: it goes nowhere below itself, and replaces at most a file by a file. */
  predicate MayMove(fs: Fs, from: Path, to: Path) {
    && from in fs
    && (to in fs ==> fs[to] != Directory && (from == to || fs[from] != Directory))
    && (from <= to ==> from == to)
  }

  lemma FileAboveIs(fs: Fs, p: Path)
    ensures ThroughFile(fs, p) <==> FileAbove(fs, p) || (p in fs && fs[p] != Directory)
    ensures p != [] ==> (ThroughFile(fs, Parent(p)) <==> FileAbove(fs, p))
    ensures p == [] ==> !FileAbove(fs, p)
  {
    assert p[..|p|] == p;
    if p != [] {
      forall n | 0 <= n < |p| ensures p[..n] == Parent(p)[..n] {}
    }
  }

  /** What exists has directories above it, and only those. */
  lemma NoFileAbove(fs: Fs, p: Path)
    requires WellFormed(fs) && p in fs
    ensures !FileAbove(fs, p)
  {
    AncestorsAreDirs(fs, p);
    forall n | 0 <= n < |p| ensures IsDir(fs, p[..n]) { assert AtOrAbove(p[..n], p) && p[..n] != p; }
  }

  /** Writing without making directories: the directory must be there, and the target must not be one. */
  lemma WriteFileExact(fs: Fs, p: Path, content: seq<bv8>)
    requires WellFormed(fs)
    ensures var r := WriteFile(fs, p, content);
            && (r.error.None? <==>
                  p != [] && p[..|p| - 1] in fs && fs[p[..|p| - 1]] == Directory && (p in fs ==> fs[p] != Directory))
            && r.fs == (if r.error.None? then fs[p := File(content)] else fs)
            && (r.error == Some(IsDirectory) <==> p in fs && fs[p] == Directory)
            && (r.error == Some(NotDirectory) <==> p !in fs && FileAbove(fs, p))
            && (r.error.Some? ==> r.error.value in {IsDirectory, NotDirectory, NotExist})
  {
    FileAboveIs(fs, p);
    if p in fs {
      assert Placed(fs, p);
      NoFileAbove(fs, p);
    } else if p != [] && IsDir(fs, Parent(p)) {
      NoFileAbove(fs, Parent(p));
      assert fs[Parent(p)] == Directory;
      forall n | 0 <= n < |p| && p[..n] in fs ensures fs[p[..n]] == Directory {
        if n < |p| - 1 { assert Parent(p)[..n] == p[..n]; }
      }
    }
  }

  /** mkdir -p: fails on a file at or above the path and on nothing else. */
  lemma MkdirAllExact(fs: Fs, p: Path)
    requires WellFormed(fs)
    ensures var r := MkdirAll(fs, p);
            && r.error == (if FileAbove(fs, p) || (p in fs && fs[p] != Directory) then Some(NotDirectory) else None)
            && (r.error.Some? ==> r.fs == fs)
            && (r.error.None? ==> forall q :: q in r.fs <==> q in fs || q <= p)
            && (r.error.None? ==> forall q :: q in r.fs ==> r.fs[q] == if q in fs then fs[q] else Directory)
  {
    MkdirAllAdds(fs, p);
    MkdirAllError(fs, p);
    FileAboveIs(fs, p);
  }

  lemma {:induction false} MkdirAllError(fs: Fs, p: Path)
    requires [] in fs
    ensures MkdirAll(fs, p).error in {None, Some(NotDirectory)}
    decreases |p|
  {
    if p != [] { MkdirAllError(fs, Parent(p)); }
  }

  /** rm -rf: what is not there is no error, a file on the way is. */
  lemma RemoveAllExact(fs: Fs, p: Path)
    ensures var r := RemoveAll(fs, p);
            && r.error == (if p == [] then Some(Invalid) else if FileAbove(fs, p) then Some(NotDirectory) else None)
            && (if r.error.None? then Removed(fs, p, r.fs) else r.fs == fs)
  {
    FileAboveIs(fs, p);
  }

  /** A rename: exactly when it succeeds, and then what is where. */
  lemma RenameExact(fs: Fs, from: Path, to: Path)
    requires WellFormed(fs)
    ensures var r := Rename(fs, from, to);
            && (r.error.None? <==>
                  MayMove(fs, from, to) && to != [] && to[..|to| - 1] in fs && fs[to[..|to| - 1]] == Directory)
            && (if r.error.None? then Renamed(fs, from, to, r.fs) else r.fs == fs)
            && (r.error == Some(Exist) <==> from in fs && to in fs && fs[to] == Directory)
            && (r.error == Some(NotExist) ==> from !in fs || (to != [] && to[..|to| - 1] !in fs))
  {
    var r := Rename(fs, from, to);
    FileAboveIs(fs, from);
    FileAboveIs(fs, to);
    if r.error.None? {
      AncestorsAreDirs(fs, Parent(to));
      forall q | q <= to && q != to ensures q in fs && fs[q] == Directory {
        PrefixOfParent(to, q);
      }
      if from == to {
        forall q | to <= q ensures from + q[|to|..] == q {}
      } else {
        forall q ensures q in r.fs <==> if to <= q then from + q[|to|..] in fs else q in fs && !(from <= q) {
          WhereMoved(fs, from, to, q);
        }
        forall q | q in r.fs ensures r.fs[q] == if to <= q then fs[from + q[|to|..]] else fs[q] {
          WhereMoved(fs, from, to, q);
        }
        forall q | q <= to && q != to ensures q in r.fs {
          WhereMoved(fs, from, to, q);
          if from <= q { PrefixOfPrefix(from, q, to); }
        }
      }
    }
  }

  lemma WhereMoved(fs: Fs, from: Path, to: Path, q: Path)
    requires WellFormed(fs) && Moves(fs, from, to)
    ensures var r := Rename(fs, from, to).fs;
            && (q in r <==> if to <= q then from + q[|to|..] in fs else q in fs && !(from <= q))
            && (q in r ==> r[q] == if to <= q then fs[from + q[|to|..]] else fs[q])
  {
    NewNamesHaveOld(fs, from, to);
    if q in fs && to <= q {
      NothingBelow(fs, from, to, q);
      assert from + q[|to|..] == from;
    }
  }

  lemma PrefixOfPrefix(a: Path, b: Path, c: Path)
    requires a <= b && b <= c
    ensures a <= c
  {
    assert c[..|a|] == b[..|a|] == a;
  }

  /** A write through an open file, byte by byte. */
  lemma PatchedAt(content: seq<bv8>, offset: nat, data: seq<bv8>)
    ensures var r := Patched(content, offset, data);
            && |r| == (if data != [] && offset + |data| > |content| then offset + |data| else |content|)
            && forall i :: 0 <= i < |r| ==>
                 r[i] == if offset <= i < offset + |data| then data[i - offset]
                         else if i < |content| then content[i] else 0
  {}
}
