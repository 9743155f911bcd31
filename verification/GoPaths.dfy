/**
  Go's filepath.Clean, Join and Dir on slash-separated paths, from their
  documentation: cleaning is a fold of the path's components over a stack.
 */
module GoPaths {
  import opened Sequences

  const SLASH := '/'

  /** A name a directory entry can have. */
  predicate Plain(c: string) { c != "" && c != "." && c != ".." && SLASH !in c }

  predicate AllPlain(cs: seq<string>) { forall i :: 0 <= i < |cs| ==> Plain(cs[i]) }

  /** One component: empty and "." vanish, ".." takes back the name before it, or the root. */
  function Push(rooted: bool, stack: seq<string>, c: string): seq<string> {
    if c == "" || c == "." then stack
    else if c == ".." then
      if stack != [] && stack[|stack| - 1] != ".." then stack[..|stack| - 1]
      else if rooted then stack
      else stack + [".."]
    else stack + [c]
  }

  function Fold(rooted: bool, stack: seq<string>, cs: seq<string>): seq<string>
    decreases |cs|
  {
    if cs == [] then stack else Fold(rooted, Push(rooted, stack, cs[0]), cs[1..])
  }

  predicate Rooted(p: string) { p != "" && p[0] == SLASH }

  /** What is left of a path's components. */
  function Components(p: string): seq<string> { Fold(Rooted(p), [], Split(p, SLASH)) }

  function Spell(rooted: bool, stack: seq<string>): string {
    if rooted then [SLASH] + Join(stack, SLASH)
    else if stack == [] then "."
    else Join(stack, SLASH)
  }

  function Clean(p: string): string {
    if p == "" then "." else Spell(Rooted(p), Components(p))
  }

  /** filepath.Join: leading empty elements are ignored, the rest is joined and cleaned. */
  function JoinPaths(elems: seq<string>): string {
    if elems == [] then ""
    else if elems[0] == "" then JoinPaths(elems[1..])
    else Clean(Join(elems, SLASH))
  }

  function UpToLastSlash(p: string): string {
    if p == "" || p[|p| - 1] == SLASH then p else UpToLastSlash(p[..|p| - 1])
  }

  /** filepath.Dir */
  function Dir(p: string): string { Clean(UpToLastSlash(p)) }

  // ---------------------------------------------------------------------
  // The fold
  // ---------------------------------------------------------------------

  lemma {:induction false} FoldAppend(rooted: bool, stack: seq<string>, a: seq<string>, b: seq<string>)
    ensures Fold(rooted, stack, a + b) == Fold(rooted, Fold(rooted, stack, a), b)
    decreases |a|
  {
    if a == [] {
      assert a + b == b;
    } else {
      assert (a + b)[1..] == a[1..] + b;
      FoldAppend(rooted, Push(rooted, stack, a[0]), a[1..], b);
    }
  }

  /** Nothing to clean: names only, except for leading ".." when the path is not rooted. */
  predicate Settled(rooted: bool, stack: seq<string>) {
    && (forall i :: 0 <= i < |stack| ==> stack[i] == ".." || Plain(stack[i]))
    && (forall i :: 0 <= i < |stack| && stack[i] == ".." ==> !rooted && forall j :: 0 <= j < i ==> stack[j] == "..")
  }

  lemma PushSettles(rooted: bool, stack: seq<string>, c: string)
    requires Settled(rooted, stack) && SLASH !in c
    ensures Settled(rooted, Push(rooted, stack, c))
  {}

  lemma {:induction false} FoldSettles(rooted: bool, stack: seq<string>, cs: seq<string>)
    requires Settled(rooted, stack) && forall c :: c in cs ==> SLASH !in c
    ensures Settled(rooted, Fold(rooted, stack, cs))
    decreases |cs|
  {
    if cs != [] {
      PushSettles(rooted, stack, cs[0]);
      FoldSettles(rooted, Push(rooted, stack, cs[0]), cs[1..]);
    }
  }

  /** What is left of any path is settled; of a rooted one, plain names. */
  lemma ComponentsSettled(p: string)
    ensures Settled(Rooted(p), Components(p))
    ensures Rooted(p) ==> AllPlain(Components(p))
  {
    SplitPieces(p, SLASH);
    FoldSettles(Rooted(p), [], Split(p, SLASH));
  }

  /** Folding settled components appends them. */
  lemma {:induction false} FoldSettled(rooted: bool, stack: seq<string>, cs: seq<string>)
    requires Settled(rooted, stack + cs)
    ensures Fold(rooted, stack, cs) == stack + cs
    decreases |cs|
  {
    if cs == [] {
      assert stack + cs == stack;
    } else {
      assert (stack + cs)[|stack|] == cs[0];
      if cs[0] == ".." && stack != [] {
        assert (stack + cs)[|stack| - 1] == stack[|stack| - 1];
      }
      assert stack + cs == (stack + [cs[0]]) + cs[1..];
      FoldSettled(rooted, stack + [cs[0]], cs[1..]);
    }
  }

  lemma FoldBlanks(rooted: bool, stack: seq<string>)
    ensures Fold(rooted, stack, [""]) == stack && Fold(rooted, stack, ["", ""]) == stack
  {
    assert ["", ""][1..] == [""];
    assert Fold(rooted, stack, [""]) == Fold(rooted, Push(rooted, stack, ""), [""][1..]) == stack;
  }

  // ---------------------------------------------------------------------
  // Spelling and reading back
  // ---------------------------------------------------------------------

  lemma SettledSlashFree(rooted: bool, stack: seq<string>)
    requires Settled(rooted, stack)
    ensures forall c :: c in stack ==> SLASH !in c && c != ""
  {}

  /** The pieces of a rooted spelling. */
  lemma SplitSpelling(stack: seq<string>)
    requires Settled(true, stack)
    ensures Split(Spell(true, stack), SLASH) == [""] + if stack == [] then [""] else stack
  {
    SettledSlashFree(true, stack);
    var tail := Join(stack, SLASH);
    assert Spell(true, stack) == "" + [SLASH] + tail;
    SplitConcat("", SLASH, tail);
    assert Split("", SLASH) == [""];
    if stack != [] {
      SplitJoin(stack, SLASH);
    }
  }

  /** Folding a rooted spelling onto a stack appends its components. */
  lemma FoldSpelling(rooted: bool, stack: seq<string>, cs: seq<string>)
    requires AllPlain(cs) && Settled(rooted, stack)
    ensures Fold(rooted, stack, Split(Spell(true, cs), SLASH)) == stack + cs
  {
    SplitSpelling(cs);
    FoldBlanks(rooted, stack);
    if cs == [] {
      assert [""] + [""] == ["", ""];
      assert stack + cs == stack;
    } else {
      FoldAppend(rooted, stack, [""], cs);
      FoldSettled(rooted, stack, cs);
    }
  }

  lemma ComponentsOfSpelling(cs: seq<string>)
    requires AllPlain(cs)
    ensures Components(Spell(true, cs)) == cs
  {
    FoldSpelling(true, [], cs);
    assert [] + cs == cs;
  }

  lemma {:induction false} JoinStart(cs: seq<string>)
    requires cs != [] && cs[0] != ""
    ensures Join(cs, SLASH) != "" && Join(cs, SLASH)[0] == cs[0][0]
  {}

  /** Cleaning is idempotent, for every path. */
  lemma CleanIdempotent(p: string)
    ensures Clean(Clean(p)) == Clean(p)
  {
    if p == "" {
      DotIsClean();
    } else {
      var st := Components(p);
      ComponentsSettled(p);
      if Rooted(p) {
        ComponentsOfSpelling(st);
      } else if st == [] {
        DotIsClean();
      } else {
        SettledSlashFree(false, st);
        assert st[0] in st;
        JoinStart(st);
        SplitJoin(st, SLASH);
        assert [] + st == st;
        FoldSettled(false, [], st);
      }
    }
  }

  lemma DotIsClean()
    ensures Clean(".") == "."
  {
    SplitWithout(".", SLASH);
    assert Fold(false, [], ["."]) == Fold(false, Push(false, [], "."), ["."][1..]) == [];
  }

  /** filepath.Dir of a clean rooted path drops its last component. */
  lemma DirDropsLast(cs: seq<string>)
    requires AllPlain(cs)
    ensures Components(Dir(Spell(true, cs))) == if cs == [] then [] else cs[..|cs| - 1]
  {
    if cs == [] {
      assert Spell(true, cs) == "/";
      assert UpToLastSlash("/") == "/";
      CleanKeepsComponents("/");
      assert Spell(true, []) == "/";
      ComponentsOfSpelling([]);
    } else {
      var front, last := cs[..|cs| - 1], cs[|cs| - 1];
      var head := Spell(true, front) + if front == [] then "" else [SLASH];
      if front == [] {
        assert cs == [last] && Spell(true, cs) == head + last;
      } else {
        assert cs == front + [last];
        JoinConcat(front, [last], SLASH);
        assert Spell(true, cs) == head + last;
      }
      LastSlash(head, last);
      CleanKeepsComponents(head);
      if front == [] {
        assert head == Spell(true, []);
        ComponentsOfSpelling([]);
      } else {
        TrailingSlash(Spell(true, front));
        ComponentsOfSpelling(front);
      }
    }
  }

  lemma {:induction false} LastSlash(head: string, name: string)
    requires head != "" && head[|head| - 1] == SLASH && SLASH !in name
    ensures UpToLastSlash(head + name) == head
    decreases |name|
  {
    if name == "" {
      assert head + name == head;
    } else {
      var p := head + name;
      assert p[|p| - 1] == name[|name| - 1] && p[..|p| - 1] == head + name[..|name| - 1];
      LastSlash(head, name[..|name| - 1]);
    }
  }

  /** A rooted path and its cleaned form have the same components. */
  lemma CleanKeepsComponents(p: string)
    requires Rooted(p)
    ensures Rooted(Clean(p)) && Components(Clean(p)) == Components(p)
  {
    ComponentsSettled(p);
    ComponentsOfSpelling(Components(p));
  }

  /** A trailing slash does not change a path's components. */
  lemma TrailingSlash(p: string)
    requires p != ""
    ensures Components(p + [SLASH]) == Components(p)
  {
    var rooted := Rooted(p);
    assert Rooted(p + [SLASH]) == rooted;
    assert p + [SLASH] == p + [SLASH] + "";
    SplitConcat(p, SLASH, "");
    assert Split("", SLASH) == [""];
    FoldAppend(rooted, [], Split(p, SLASH), [""]);
    FoldBlanks(rooted, Components(p));
  }

  /** The components of two rooted paths joined by a slash are those of the one followed by those of the other. */
  lemma ComponentsOfJoin(a: string, b: string)
    requires Rooted(a)
    ensures Rooted(a + [SLASH] + b)
    ensures Components(a + [SLASH] + b) == Fold(true, Components(a), Split(b, SLASH))
  {
    SplitConcat(a, SLASH, b);
    FoldAppend(true, [], Split(a, SLASH), Split(b, SLASH));
  }

  // ---------------------------------------------------------------------
  // The rules of cleaning, one element at a time
  // ---------------------------------------------------------------------

  lemma OneElement(p: string, c: string)
    requires p != "" && SLASH !in c
    ensures Rooted(p + "/" + c) == Rooted(p)
    ensures Components(p + "/" + c) == Push(Rooted(p), Components(p), c)
  {
    assert p + "/" + c == p + [SLASH] + c;
    SplitConcat(p, SLASH, c);
    SplitWithout(c, SLASH);
    FoldAppend(Rooted(p), [], Split(p, SLASH), [c]);
    assert Fold(Rooted(p), Components(p), [c]) == Fold(Rooted(p), Push(Rooted(p), Components(p), c), [c][1..]);
  }

  /** An empty element and "." change nothing. */
  lemma NothingMore(p: string)
    requires p != ""
    ensures Components(p + "/") == Components(p) && Components(p + "/.") == Components(p)
  {
    assert p + "/" == p + "/" + "" && p + "/." == p + "/" + ".";
    OneElement(p, "");
    OneElement(p, ".");
  }

  /** A name goes one deeper. */
  lemma OneDeeper(p: string, name: string)
    requires p != "" && name != "" && name != "." && name != ".." && '/' !in name
    ensures Components(p + "/" + name) == Components(p) + [name]
  {
    OneElement(p, name);
  }

  /**
    ".." takes the last name back. At the root it stays at the root; where there
    is no name to take back, a path that is not rooted keeps it.
   */
  lemma OneUp(p: string)
    requires p != ""
    ensures var cs := Components(p);
            Components(p + "/..") ==
              if cs != [] && cs[|cs| - 1] != ".." then cs[..|cs| - 1] else if p[0] == '/' then [] else cs + [".."]
  {
    assert p + "/.." == p + "/" + "..";
    OneElement(p, "..");
    ComponentsSettled(p);
  }

  /** Paths of one element. */
  lemma SingleElement(c: string)
    requires c != "" && '/' !in c
    ensures Components(c) == if c == "." then [] else [c]
    ensures Components("/") == []
  {
    SplitWithout(c, SLASH);
    assert Fold(false, [], [c]) == Fold(false, Push(false, [], c), [c][1..]);
    assert "/" == "" + [SLASH] + "";
    SplitConcat("", SLASH, "");
    SplitWithout("", SLASH);
    FoldBlanks(true, []);
    assert [""] + [""] == ["", ""];
  }

  /** Going into a directory and up again is going nowhere. */
  lemma InAndUp(p: string, name: string)
    requires p != "" && name != "" && name != "." && name != ".." && '/' !in name
    ensures Components(p + "/" + name + "/..") == Components(p)
    ensures Clean(p + "/" + name + "/..") == Clean(p)
  {
    OneDeeper(p, name);
    OneElement(p, name);
    OneUp(p + "/" + name);
    OneElement(p + "/" + name, "..");
    assert p + "/" + name + "/.." == p + "/" + name + "/" + "..";
    assert (Components(p) + [name])[..|Components(p)|] == Components(p);
  }

  function Ups(n: nat): string {
    if n == 0 then "" else if n == 1 then ".." else Ups(n - 1) + "/.."
  }

  /** Leading ".." are kept when the path is not rooted, and lead nowhere when it is. */
  lemma {:induction false} LeadingUps(n: nat)
    requires n > 0
    ensures Components(Ups(n)) == seq(n, _ => "..") && Ups(n) != "" && Ups(n)[0] == '.'
    ensures Components("/" + Ups(n)) == []
    decreases n
  {
    if n == 1 {
      SingleElement("..");
      assert seq(1, _ => "..") == [".."];
      assert "/" + ".." == "" + [SLASH] + "..";
      SplitConcat("", SLASH, "..");
      SplitWithout("..", SLASH);
      SplitWithout("", SLASH);
      FoldAppend(true, [], [""], [".."]);
      FoldBlanks(true, []);
      assert Fold(true, [], [".."]) == Fold(true, Push(true, [], ".."), [".."][1..]) == [];
    } else {
      LeadingUps(n - 1);
      OneUp(Ups(n - 1));
      OneUp("/" + Ups(n - 1));
      assert "/" + Ups(n) == "/" + Ups(n - 1) + "/..";
      assert seq(n, _ => "..") == seq(n - 1, _ => "..") + [".."];
    }
  }
}
