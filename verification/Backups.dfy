/**
  backupmgr: Create walks a server's directory into an archive, Restore replays
  an archive over whatever the directory holds by then. The archive is taken as
  its list of entries.
 */
module Backups {
  import opened Wrappers
  import opened Sequences
  import opened GoPaths
  import opened PathResolution
  import opened FileSystem
  import opened TreeIsolation

  /** A tar header's name, and whether it is a directory or a file with this content. */
  datatype Entry = Entry(name: string, node: Node)

  // ---------------------------------------------------------------------
  // The walk
  // ---------------------------------------------------------------------

  /** Byte order of names. */
  predicate NameAtMost(a: string, b: string) {
    if a == "" then true
    else if b == "" then false
    else a[0] < b[0] || (a[0] == b[0] && NameAtMost(a[1..], b[1..]))
  }

  function InsertName(x: string, s: seq<string>): seq<string> {
    if s == [] || NameAtMost(x, s[0]) then [x] + s else [s[0]] + InsertName(x, s[1..])
  }

  ghost predicate SortedNames(s: seq<string>) {
    forall i, j :: 0 <= i < j < |s| ==> NameAtMost(s[i], s[j]) && s[i] != s[j]
  }

  lemma {:induction false} NameOrder(a: string, b: string, c: string)
    ensures NameAtMost(a, a)
    ensures NameAtMost(a, b) || NameAtMost(b, a)
    ensures NameAtMost(a, b) && NameAtMost(b, a) ==> a == b
    ensures NameAtMost(a, b) && NameAtMost(b, c) ==> NameAtMost(a, c)
    decreases |a|
  {
    if a != "" {
      NameOrder(a[1..], if b == "" then "" else b[1..], if c == "" then "" else c[1..]);
      if b != "" && a[0] == b[0] && a[1..] == b[1..] {
        assert a == [a[0]] + a[1..] && b == [b[0]] + b[1..];
      }
    }
  }

  /** One name comes before another: it is a proper beginning of it, or smaller where they first differ. */
  lemma {:induction false} NameOrderSpelled(a: string, b: string)
    ensures NameAtMost(a, b)
            <==> a <= b || exists k :: 0 <= k < |a| && k < |b| && a[..k] == b[..k] && a[k] < b[k]
  {
    if a != "" && b != "" {
      NameOrderSpelled(a[1..], b[1..]);
      if a[0] == b[0] {
        forall k | 1 <= k <= |a| && k <= |b| ensures a[..k] == b[..k] <==> a[1..][..k - 1] == b[1..][..k - 1] {
          assert a[..k] == [a[0]] + a[1..][..k - 1] && b[..k] == [b[0]] + b[1..][..k - 1];
        }
        assert a <= b <==> a[1..] <= b[1..] by {
          assert a == [a[0]] + a[1..] && b == [b[0]] + b[1..];
        }
        if k :| 0 <= k < |a[1..]| && k < |b[1..]| && a[1..][..k] == b[1..][..k] && a[1..][k] < b[1..][k] {
          assert a[..k + 1] == b[..k + 1] && a[k + 1] < b[k + 1];
        }
        if k :| 0 <= k < |a| && k < |b| && a[..k] == b[..k] && a[k] < b[k] {
          assert a[1..][..k - 1] == b[1..][..k - 1] && a[1..][k - 1] < b[1..][k - 1];
        }
      } else if a[0] < b[0] {
        assert a[..0] == b[..0];
      } else {
        forall k | 0 < k <= |a| && k <= |b| ensures a[..k] != b[..k] {
          assert a[..k][0] != b[..k][0];
        }
        assert !(a <= b);
      }
    }
  }

  /** The names of a directory in the order ReadDir gives them. */
  ghost predicate IsReadDir(names: seq<string>, children: set<string>) {
    SortedNames(names) && forall n :: n in names <==> n in children
  }

  lemma {:induction false} InsertNameSorts(x: string, s: seq<string>)
    requires SortedNames(s) && x !in s
    ensures SortedNames(InsertName(x, s))
    ensures forall n :: n in InsertName(x, s) <==> n == x || n in s
  {
    if s == [] {
    } else if NameAtMost(x, s[0]) {
      forall j | 0 <= j < |s| ensures NameAtMost(x, s[j]) && x != s[j] {
        NameOrder(x, s[0], s[j]);
        NameOrder(s[0], s[0], s[0]);
      }
    } else {
      InsertNameSorts(x, s[1..]);
      var t := InsertName(x, s[1..]);
      assert s == [s[0]] + s[1..];
      forall j | 0 <= j < |t| ensures NameAtMost(s[0], t[j]) && s[0] != t[j] {
        assert t[j] in t;
        NameOrder(x, s[0], s[0]);
        if t[j] != x {
          var i :| 0 <= i < |s[1..]| && s[1..][i] == t[j];
          assert s[i + 1] == t[j];
        }
      }
    }
  }

  lemma {:induction false} ReadDirUnique(a: seq<string>, b: seq<string>)
    requires SortedNames(a) && SortedNames(b) && forall n :: n in a <==> n in b
    ensures a == b
  {
    assert b == [] || b[0] in b;
    if a != [] {
      assert a[0] in a && a[0] in b;
      assert b != [] && b[0] in b && b[0] in a;
      NameOrder(a[0], b[0], a[0]);
      assert a[0] == b[0];
      forall n ensures n in a[1..] <==> n in b[1..] {
        if n in a[1..] { RestMember(a, n); OtherMember(b, n); }
        if n in b[1..] { RestMember(b, n); OtherMember(a, n); }
      }
      ReadDirUnique(a[1..], b[1..]);
      assert a == [a[0]] + a[1..] && b == [b[0]] + b[1..];
    }
  }

  lemma RestMember(s: seq<string>, n: string)
    requires SortedNames(s) && s != [] && n in s[1..]
    ensures n in s && n != s[0]
  {
    var i :| 0 <= i < |s[1..]| && s[1..][i] == n;
    assert s[i + 1] == n;
  }

  lemma OtherMember(s: seq<string>, n: string)
    requires s != []
    ensures n in s && n != s[0] ==> n in s[1..]
  {
    if n in s && n != s[0] {
      var i :| 0 <= i < |s| && s[i] == n;
      assert s[1..][i - 1] == n;
    }
  }

  function Children(fs: Fs, p: Path): set<string> {
    set q | q in fs && |q| == |p| + 1 && p <= q :: q[|p|]
  }

  lemma ChildExists(fs: Fs, p: Path, n: string)
    ensures n in Children(fs, p) <==> p + [n] in fs
  {
    if n in Children(fs, p) {
      var q :| q in fs && |q| == |p| + 1 && p <= q && q[|p|] == n;
      assert q == p + [n];
    }
    if p + [n] in fs {
      assert (p + [n])[|p|] == n;
    }
  }

  lemma {:induction false} ReadDirExists(children: set<string>)
    ensures exists names :: IsReadDir(names, children)
    decreases |children|
  {
    if children == {} {
      assert IsReadDir([], children);
    } else {
      var x :| x in children;
      ReadDirExists(children - {x});
      var rest :| IsReadDir(rest, children - {x});
      InsertNameSorts(x, rest);
      assert IsReadDir(InsertName(x, rest), children);
    }
  }

  ghost function ReadDir(children: set<string>): (names: seq<string>)
    ensures IsReadDir(names, children)
  {
    ReadDirExists(children);
    var names :| IsReadDir(names, children); names
  }

  /** os.ReadDir: the entries' names, sorted. */
  method ListDir(fs: Fs, p: Path) returns (names: seq<string>)
    ensures names == ReadDir(Children(fs, p))
  {
    var left := Children(fs, p);
    names := [];
    while left != {}
      invariant left <= Children(fs, p)
      invariant IsReadDir(names, Children(fs, p) - left)
      decreases |left|
    {
      var x :| x in left;
      InsertNameSorts(x, names);
      names := InsertName(x, names);
      left := left - {x};
    }
    assert Children(fs, p) - left == Children(fs, p);
    ReadDirUnique(names, ReadDir(Children(fs, p)));
  }

  /** What lies strictly below `p`. */
  function Below(fs: Fs, p: Path): set<Path> { set q | q in fs && p <= q && p != q }

  lemma BelowChild(fs: Fs, p: Path, n: string)
    requires n in Children(fs, p)
    ensures Below(fs, p + [n]) < Below(fs, p)
  {
    ChildExists(fs, p, n);
    assert p + [n] in Below(fs, p) && p + [n] !in Below(fs, p + [n]);
    forall q | q in Below(fs, p + [n]) ensures q in Below(fs, p) { PrefixTransitive(p, p + [n], q); }
  }

  /** filepath.Walk: the entry itself, then, of a directory, each child's walk in ReadDir order. */
  ghost function Walk(fs: Fs, p: Path): seq<Path>
    requires p in fs
    decreases Below(fs, p), 1, 0
  {
    if fs[p] == Directory then [p] + WalkEach(fs, p, ReadDir(Children(fs, p))) else [p]
  }

  ghost function WalkEach(fs: Fs, p: Path, names: seq<string>): seq<Path>
    requires forall n :: n in names ==> n in Children(fs, p)
    decreases Below(fs, p), 0, |names|
  {
    if names == [] then []
    else
      BelowChild(fs, p, names[0]);
      ChildExists(fs, p, names[0]);
      Walk(fs, p + [names[0]]) + WalkEach(fs, p, names[1..])
  }

  // ---------------------------------------------------------------------
  // Create
  // ---------------------------------------------------------------------

  /** The archive entry of the file or directory at `q`: its slash-separated path from `root`. */
  function EntryOf(fs: Fs, root: Path, q: Path): Entry
    requires q in fs && root <= q
  {
    Entry(Join(q[|root|..], SLASH), fs[q])
  }

  ghost predicate Archivable(fs: Fs, root: Path, paths: seq<Path>) {
    forall i :: 0 <= i < |paths| ==> paths[i] in fs && root <= paths[i]
  }

  function Entries(fs: Fs, root: Path, paths: seq<Path>): seq<Entry>
    requires Archivable(fs, root, paths)
  {
    seq(|paths|, i requires 0 <= i < |paths| => EntryOf(fs, root, paths[i]))
  }

  /** What Create archives: everything the walk visits except the root itself. */
  ghost function Archive(fs: Fs, root: Path): Result<seq<Entry>, FsError>
    requires WellFormed(fs)
  {
    if root !in fs then Err(Missing(fs, root))
    else
      WalkVisits(fs, root);
      Ok(Entries(fs, root, Walk(fs, root)[1..]))
  }

  // ---------------------------------------------------------------------
  // Properties of the walk
  // ---------------------------------------------------------------------

  ghost predicate NoRepeats(s: seq<Path>) { forall i, j :: 0 <= i < j < |s| ==> s[i] != s[j] }

  /** Each path's parent is `p` or comes before it. */
  ghost predicate ParentsFirst(s: seq<Path>, p: Path) {
    forall i :: 0 <= i < |s| ==> s[i] != [] && (Parent(s[i]) == p || Parent(s[i]) in s[..i])
  }

  /** The walk visits exactly what is at or below `p`, once each, parents first. */
  ghost predicate Visits(fs: Fs, p: Path, s: seq<Path>) {
    && s != [] && s[0] == p
    && (forall q :: q in s <==> q in fs && AtOrAbove(p, q))
    && NoRepeats(s) && ParentsFirst(s[1..], p)
  }

  /** The same for the walks of some children. */
  ghost predicate VisitsEach(fs: Fs, p: Path, names: seq<string>, s: seq<Path>) {
    && (forall q :: q in s <==> q in fs && p <= q && |q| > |p| && q[|p|] in names)
    && NoRepeats(s) && ParentsFirst(s, p)
  }

  lemma NothingBelowFile(fs: Fs, p: Path, q: Path)
    requires WellFormed(fs) && p in fs && fs[p].File? && q in fs && p <= q
    ensures q == p
  {
    AncestorsAreDirs(fs, q);
    assert AtOrAbove(p, q);
  }

  /** Below a directory, everything is at or below one of its children. */
  lemma BelowIsBelowChild(fs: Fs, p: Path, q: Path)
    requires WellFormed(fs) && q in fs && p <= q && q != p
    ensures |q| > |p| && q[|p|] in Children(fs, p) && p + [q[|p|]] <= q
  {
    var c := q[..|p| + 1];
    assert c == p + [q[|p|]];
    if c != q {
      AncestorsAreDirs(fs, q);
      assert AtOrAbove(c, q);
    }
    ChildExists(fs, p, q[|p|]);
  }

  lemma {:induction false} WalkVisits(fs: Fs, p: Path)
    requires WellFormed(fs) && p in fs
    ensures Visits(fs, p, Walk(fs, p))
    ensures Archivable(fs, p, Walk(fs, p)[1..])
    decreases Below(fs, p), 1, 0
  {
    var s := Walk(fs, p);
    if fs[p] == Directory {
      var names := ReadDir(Children(fs, p));
      WalkEachVisits(fs, p, names);
      DirectoryVisits(fs, p, names, WalkEach(fs, p, names));
    } else {
      FileVisits(fs, p);
    }
    VisitedArchivable(fs, p, s);
  }

  /** A directory followed by the walks of all its children. */
  lemma DirectoryVisits(fs: Fs, p: Path, names: seq<string>, rest: seq<Path>)
    requires WellFormed(fs) && p in fs && (forall n :: n in names <==> n in Children(fs, p))
    requires VisitsEach(fs, p, names, rest)
    ensures Visits(fs, p, [p] + rest)
  {
    var s := [p] + rest;
    assert s[1..] == rest;
    forall q ensures q in s <==> q in fs && AtOrAbove(p, q) {
      if q in fs && p <= q && q != p { BelowIsBelowChild(fs, p, q); }
    }
    assert p !in rest;
  }

  lemma FileVisits(fs: Fs, p: Path)
    requires WellFormed(fs) && p in fs && fs[p].File?
    ensures Visits(fs, p, [p])
  {
    assert AtOrAbove(p, p) && [p][1..] == [];
    forall q | q in fs && AtOrAbove(p, q) ensures q == p { NothingBelowFile(fs, p, q); }
  }

  lemma VisitedArchivable(fs: Fs, p: Path, s: seq<Path>)
    requires Visits(fs, p, s)
    ensures Archivable(fs, p, s[1..])
  {
    forall i | 0 <= i < |s[1..]| ensures s[1..][i] in fs && p <= s[1..][i] {
      assert s[1..][i] == s[i + 1] && s[i + 1] in s;
      assert AtOrAbove(p, s[i + 1]);
    }
  }

  lemma {:induction false} WalkEachVisits(fs: Fs, p: Path, names: seq<string>)
    requires WellFormed(fs) && SortedNames(names) && forall n :: n in names ==> n in Children(fs, p)
    ensures VisitsEach(fs, p, names, WalkEach(fs, p, names))
    decreases Below(fs, p), 0, |names|
  {
    if names != [] {
      var c := p + [names[0]];
      BelowChild(fs, p, names[0]);
      ChildExists(fs, p, names[0]);
      WalkVisits(fs, c);
      WalkEachVisits(fs, p, names[1..]);
      BothVisit(fs, p, names, Walk(fs, c), WalkEach(fs, p, names[1..]));
    }
  }

  lemma BothMembers(fs: Fs, p: Path, names: seq<string>, a: seq<Path>, b: seq<Path>)
    requires SortedNames(names) && names != []
    requires Visits(fs, p + [names[0]], a) && VisitsEach(fs, p, names[1..], b)
    ensures forall q :: q in a + b <==> q in fs && p <= q && |q| > |p| && q[|p|] in names
    ensures forall q :: q in a ==> q !in b
  {
    var c := p + [names[0]];
    forall q ensures AtOrAbove(c, q) <==> p <= q && |q| > |p| && q[|p|] == names[0] {
      if c <= q { assert q[|p|] == c[|p|] && q[..|p|] == c[..|p|] == p; }
      if p <= q && |q| > |p| && q[|p|] == names[0] { assert q[..|p| + 1] == c; }
    }
    assert names == [names[0]] + names[1..];
    assert names[0] !in names[1..];
    forall q | q in a ensures q !in b { assert AtOrAbove(c, q); }
  }

  lemma BothNoRepeats(a: seq<Path>, b: seq<Path>)
    requires NoRepeats(a) && NoRepeats(b) && forall q :: q in a ==> q !in b
    ensures NoRepeats(a + b)
  {
    forall i, j | 0 <= i < j < |a + b| ensures (a + b)[i] != (a + b)[j] {
      if i < |a| <= j {
        assert a[i] in a && b[j - |a|] in b;
      }
    }
  }

  lemma BothParentsFirst(p: Path, a: seq<Path>, b: seq<Path>)
    requires a != [] && a[0] != [] && Parent(a[0]) == p && ParentsFirst(a[1..], a[0]) && ParentsFirst(b, p)
    ensures ParentsFirst(a + b, p)
  {
    var s := a + b;
    forall i | 0 <= i < |s| ensures s[i] != [] && (Parent(s[i]) == p || Parent(s[i]) in s[..i]) {
      if 0 < i < |a| {
        EarlierParent(p, a, b, i);
      } else if i >= |a| {
        LaterParent(p, a, b, i);
      }
    }
  }

  lemma EarlierParent(p: Path, a: seq<Path>, b: seq<Path>, i: nat)
    requires 0 < i < |a| && ParentsFirst(a[1..], a[0])
    ensures (a + b)[i] != [] && Parent((a + b)[i]) in (a + b)[..i]
  {
    var q := a[1..][i - 1];
    assert (a + b)[i] == q;
    assert (a + b)[..i] == [a[0]] + a[1..][..i - 1];
    assert q != [] && (Parent(q) == a[0] || Parent(q) in a[1..][..i - 1]);
  }

  lemma LaterParent(p: Path, a: seq<Path>, b: seq<Path>, i: nat)
    requires |a| <= i < |a + b| && ParentsFirst(b, p)
    ensures (a + b)[i] != [] && (Parent((a + b)[i]) == p || Parent((a + b)[i]) in (a + b)[..i])
  {
    var q := b[i - |a|];
    assert (a + b)[i] == q;
    assert (a + b)[..i] == a + b[..i - |a|];
    assert q != [] && (Parent(q) == p || Parent(q) in b[..i - |a|]);
  }

  lemma BothVisit(fs: Fs, p: Path, names: seq<string>, a: seq<Path>, b: seq<Path>)
    requires SortedNames(names) && names != []
    requires Visits(fs, p + [names[0]], a) && VisitsEach(fs, p, names[1..], b)
    ensures VisitsEach(fs, p, names, a + b)
  {
    BothMembers(fs, p, names, a, b);
    BothNoRepeats(a, b);
    assert Parent(p + [names[0]]) == p;
    BothParentsFirst(p, a, b);
  }

  // ---------------------------------------------------------------------
  // The order of the walk
  // ---------------------------------------------------------------------

  /** The paths part at component `k`, and there `a` has the smaller name. */
  predicate PartsBefore(a: Path, b: Path, k: int) {
    0 <= k < |a| && k < |b| && a[..k] == b[..k] && a[k] != b[k] && NameAtMost(a[k], b[k])
  }

  ghost predicate Before(a: Path, b: Path) { a != b && (a <= b || exists k :: PartsBefore(a, b, k)) }

  ghost predicate SortedPaths(s: seq<Path>) { forall i, j :: 0 <= i < j < |s| ==> Before(s[i], s[j]) }

  /** Component by component the walk goes in byte order of names, a directory before what is in it. */
  lemma {:induction false} WalkSorted(fs: Fs, p: Path)
    requires WellFormed(fs) && p in fs
    ensures SortedPaths(Walk(fs, p))
    decreases Below(fs, p), 1, 0
  {
    if fs[p] == Directory {
      var names := ReadDir(Children(fs, p));
      var rest := WalkEach(fs, p, names);
      WalkEachSorted(fs, p, names);
      WalkEachVisits(fs, p, names);
      forall j | 0 <= j < |rest| ensures Before(p, rest[j]) { assert rest[j] in rest; }
    }
  }

  lemma {:induction false} WalkEachSorted(fs: Fs, p: Path, names: seq<string>)
    requires WellFormed(fs) && SortedNames(names) && forall n :: n in names ==> n in Children(fs, p)
    ensures SortedPaths(WalkEach(fs, p, names))
    decreases Below(fs, p), 0, |names|
  {
    if names != [] {
      var c := p + [names[0]];
      BelowChild(fs, p, names[0]);
      ChildExists(fs, p, names[0]);
      WalkSorted(fs, c);
      WalkVisits(fs, c);
      WalkEachSorted(fs, p, names[1..]);
      WalkEachVisits(fs, p, names[1..]);
      SiblingsSorted(fs, p, names, Walk(fs, c), WalkEach(fs, p, names[1..]));
    }
  }

  lemma SiblingsSorted(fs: Fs, p: Path, names: seq<string>, a: seq<Path>, b: seq<Path>)
    requires SortedNames(names) && names != [] && SortedPaths(a) && SortedPaths(b)
    requires Visits(fs, p + [names[0]], a) && VisitsEach(fs, p, names[1..], b)
    ensures SortedPaths(a + b)
  {
    var c := p + [names[0]];
    forall i, j | 0 <= i < |a| && 0 <= j < |b| ensures Before(a[i], b[j]) {
      assert a[i] in a && b[j] in b && AtOrAbove(c, a[i]);
      assert a[i][|p|] == c[|p|] && a[i][..|p|] == c[..|p|] == p && b[j][..|p|] == p;
      var m :| 0 <= m < |names[1..]| && names[1..][m] == b[j][|p|];
      assert names[m + 1] == b[j][|p|];
      assert PartsBefore(a[i], b[j], |p|);
    }
  }
}
