/**
  filemgr's serverRoot and resolve, and the two spellings of a child path that
  reach it: the uploader's and the file browser's.
 */
module PathResolution {
  import opened Wrappers
  import opened Sequences
  import opened GoPaths

  function ServerRoot(dataDir: string, uuid: string): string {
    JoinPaths([dataDir, "servers", uuid])
  }

  /** resolve: the string-prefix test is the source's own. */
  function Resolve(dataDir: string, uuid: string, rel: string): Result<string, string> {
    var root := ServerRoot(dataDir, uuid);
    var cleaned := Clean([SLASH] + rel);
    var full := JoinPaths([root, cleaned]);
    if root <= full then Ok(full) else Err(rel)
  }

  /** The components of a server's root. */
  function RootOf(dataDir: string, uuid: string): seq<string> { Components(ServerRoot(dataDir, uuid)) }

  /** The components of a relative path once "/" is put in front. */
  function Relative(rel: string): seq<string> { Components([SLASH] + rel) }

  lemma RelativePlain(rel: string)
    ensures AllPlain(Relative(rel)) && Clean([SLASH] + rel) == Spell(true, Relative(rel))
  {
    ComponentsSettled([SLASH] + rel);
  }

  lemma RootSpelling(dataDir: string, uuid: string)
    requires Rooted(dataDir)
    ensures AllPlain(RootOf(dataDir, uuid)) && ServerRoot(dataDir, uuid) == Spell(true, RootOf(dataDir, uuid))
  {
    var joined := Join([dataDir, "servers", uuid], SLASH);
    assert [dataDir, "servers", uuid][1..] == ["servers", uuid] && ["servers", uuid][1..] == [uuid];
    assert joined == dataDir + [SLASH] + Join(["servers", uuid], SLASH);
    assert Rooted(joined);
    ComponentsSettled(joined);
    CleanKeepsComponents(joined);
  }

  lemma SpellPrefix(a: seq<string>, b: seq<string>)
    ensures Spell(true, a) <= Spell(true, a + b)
  {
    if a == [] {
    } else if b == [] {
      assert a + b == a;
    } else {
      JoinConcat(a, b, SLASH);
    }
  }

  /**
    With an absolute data directory, resolve never fails, and what it returns is
    the root's components followed by plain names only.
   */
  lemma ResolveStaysBelow(dataDir: string, uuid: string, rel: string)
    requires Rooted(dataDir)
    ensures AllPlain(RootOf(dataDir, uuid)) && AllPlain(Relative(rel))
    ensures forall c :: c in Relative(rel) ==> c != "" && c != "." && c != ".." && '/' !in c
    ensures Resolve(dataDir, uuid, rel) == Ok(Spell(true, RootOf(dataDir, uuid) + Relative(rel)))
    ensures Components(Resolve(dataDir, uuid, rel).value) == RootOf(dataDir, uuid) + Relative(rel)
  {
    var cs, rs := Relative(rel), RootOf(dataDir, uuid);
    RootSpelling(dataDir, uuid);
    RelativePlain(rel);
    FullIsSpelled(ServerRoot(dataDir, uuid), cs);
    ComponentsOfSpelling(rs + cs);
    SpellPrefix(rs, cs);
  }

  /** A clean path is the spelling of its components. */
  lemma RootIsSpelled(dataDir: string, uuid: string)
    ensures var root := ServerRoot(dataDir, uuid);
            root != "" && root == Spell(Rooted(root), Components(root)) && Settled(Rooted(root), Components(root))
  {
    var root := ServerRoot(dataDir, uuid);
    assert [dataDir, "servers", uuid][1..] == ["servers", uuid];
    var joined := Join(if dataDir == "" then ["servers", uuid] else [dataDir, "servers", uuid], SLASH);
    assert JoinPaths(["servers", uuid]) == Clean(Join(["servers", uuid], SLASH));
    assert root == Clean(joined);
    assert joined != "";
    ComponentsSettled(joined);
    ComponentsSettled(root);
    CleanIdempotent(joined);
    CleanIsNotEmpty(joined);
  }

  lemma CleanIsNotEmpty(p: string)
    requires p != ""
    ensures Clean(p) != ""
  {
    ComponentsSettled(p);
    if !Rooted(p) && Components(p) != [] {
      JoinStart(Components(p));
    }
  }

  /**
    For every data directory, relative ones included: the prefix test turns a path
    down only when the root is the working directory itself, and then every path
    whose first name does not happen to begin with a dot.
   */
  lemma ResolveFailsIff(dataDir: string, uuid: string, rel: string)
    ensures Resolve(dataDir, uuid, rel).Err? <==>
              && ServerRoot(dataDir, uuid) == "."
              && Relative(rel) != [] && Relative(rel)[0] != "" && Relative(rel)[0][0] != '.'
    ensures Resolve(dataDir, uuid, rel).Err? ==> Resolve(dataDir, uuid, rel).error == rel
  {
    var root, cs := ServerRoot(dataDir, uuid), Relative(rel);
    var rs, rooted := Components(root), Rooted(root);
    RootIsSpelled(dataDir, uuid);
    RelativePlain(rel);
    FullIsSpelled(root, cs);
    var full := Spell(rooted, rs + cs);
    if rooted {
      SpellPrefix(rs, cs);
    } else if rs == [] {
      assert rs + cs == cs;
      if cs != [] {
        JoinStart(cs);
        assert "." <= full <==> full[0] == '.';
      }
    } else {
      PrefixWhenNamed(rs, cs);
    }
  }

  lemma FullIsSpelled(root: string, cs: seq<string>)
    requires root != "" && AllPlain(cs)
    ensures JoinPaths([root, Spell(true, cs)]) == Spell(Rooted(root), Components(root) + cs)
  {
    var joined := Join([root, Spell(true, cs)], SLASH);
    assert [root, Spell(true, cs)][1..] == [Spell(true, cs)];
    assert Join([Spell(true, cs)], SLASH) == Spell(true, cs);
    assert joined == root + [SLASH] + Spell(true, cs);
    ComponentsSettled(root);
    SplitConcat(root, SLASH, Spell(true, cs));
    FoldAppend(Rooted(root), [], Split(root, SLASH), Split(Spell(true, cs), SLASH));
    FoldSpelling(Rooted(root), Components(root), cs);
  }

  lemma PrefixWhenNamed(rs: seq<string>, cs: seq<string>)
    requires rs != [] && Settled(false, rs) && AllPlain(cs)
    ensures Spell(false, rs) <= Spell(false, rs + cs) && Spell(false, rs) != "."
  {
    if cs == [] {
      assert rs + cs == rs;
    } else {
      JoinConcat(rs, cs, SLASH);
    }
    JoinStart(rs);
    if Join(rs, SLASH) == "." {
      SettledSlashFree(false, rs);
      SplitJoin(rs, SLASH);
      SplitWithout(".", SLASH);
      assert false;
    }
  }

  /** Such a root, and a path it turns down. */
  lemma RelativeRootRefuses()
    ensures ServerRoot("data", "../..") == "." && Resolve("data", "../..", "a") == Err("a")
  {
    assert ["data", "servers", "../.."][1..] == ["servers", "../.."] && ["servers", "../.."][1..] == ["../.."];
    var joined := Join(["data", "servers", "../.."], SLASH);
    assert joined == "data" + "/" + "servers" + "/.." + "/..";
    SingleElement("data");
    OneDeeper("data", "servers");
    OneUp("data" + "/" + "servers");
    OneUp("data" + "/" + "servers" + "/..");
    assert Components(joined) == [] && !Rooted(joined);
    ResolveFailsIff("data", "../..", "a");
    PlainPathIs("a");
  }

  lemma PlainPathIs(name: string)
    requires Plain(name)
    ensures Relative(name) == [name]
  {
    assert AllPlain([name]) && Join([name], SLASH) == name;
    ComponentsOfSpelling([name]);
  }

  /** A plain identifier's root: the data directory's components, then "servers", then the identifier. */
  lemma RootOfPlainId(dataDir: string, uuid: string)
    requires Rooted(dataDir) && Plain(uuid)
    ensures RootOf(dataDir, uuid) == Components(dataDir) + ["servers", uuid]
  {
    var joined := Join([dataDir, "servers", uuid], SLASH);
    var tail := Join(["servers", uuid], SLASH);
    assert [dataDir, "servers", uuid][1..] == ["servers", uuid] && ["servers", uuid][1..] == [uuid];
    assert joined == dataDir + [SLASH] + tail;
    ComponentsOfJoin(dataDir, tail);
    SplitJoin(["servers", uuid], SLASH);
    ComponentsSettled(dataDir);
    FoldSettled(true, Components(dataDir), ["servers", uuid]);
    CleanKeepsComponents(joined);
  }

  // ---------------------------------------------------------------------
  // Two spellings of a child path
  // ---------------------------------------------------------------------

  /** path.replace(/\/+$/, '') */
  function WithoutTrailingSlashes(path: string): string {
    if path != "" && path[|path| - 1] == SLASH then WithoutTrailingSlashes(path[..|path| - 1]) else path
  }

  /** files.controller.ts, upload */
  function UploadPath(dir: string, name: string): string { WithoutTrailingSlashes(dir) + [SLASH] + name }

  /** file-manager-panel.tsx, joinPath */
  function BrowserPath(dir: string, name: string): string {
    if dir != "" then dir + [SLASH] + name else name
  }

  lemma {:induction false} TrailingSlashesVanish(dir: string)
    ensures Relative(WithoutTrailingSlashes(dir)) == Relative(dir)
    decreases |dir|
  {
    if dir != "" && dir[|dir| - 1] == SLASH {
      var d := dir[..|dir| - 1];
      TrailingSlashesVanish(d);
      TrailingSlash([SLASH] + d);
      assert [SLASH] + dir == [SLASH] + d + [SLASH];
    }
  }

  /** Only slashes go, and all of them at the end. */
  lemma {:induction false} OnlySlashesGo(path: string) returns (slashes: string)
    ensures WithoutTrailingSlashes(path) + slashes == path && forall c :: c in slashes ==> c == '/'
    ensures var r := WithoutTrailingSlashes(path); r == "" || r[|r| - 1] != '/'
    decreases |path|
  {
    slashes := "";
    if path != "" && path[|path| - 1] == SLASH {
      slashes := OnlySlashesGo(path[..|path| - 1]);
      slashes := slashes + [SLASH];
    }
  }

  lemma RelativeChild(dir: string, name: string)
    ensures Relative(dir + [SLASH] + name) == Fold(true, Relative(dir), Split(name, SLASH))
  {
    ComponentsOfJoin([SLASH] + dir, name);
    Regrouped([SLASH], dir, [SLASH], name);
  }

  lemma Regrouped(a: string, b: string, c: string, d: string)
    ensures a + (b + c + d) == (a + b) + c + d
  {}

  /** Whatever the directory and the name, both spellings resolve to the same file. */
  lemma SpellingsAgree(dataDir: string, uuid: string, dir: string, name: string)
    ensures Relative(UploadPath(dir, name)) == Relative(BrowserPath(dir, name))
    ensures Rooted(dataDir) ==>
              Resolve(dataDir, uuid, UploadPath(dir, name)) == Resolve(dataDir, uuid, BrowserPath(dir, name))
  {
    TrailingSlashesVanish(dir);
    RelativeChild(WithoutTrailingSlashes(dir), name);
    if dir != "" {
      RelativeChild(dir, name);
    } else {
      assert [SLASH] + name == "" + [SLASH] + name;
      SplitConcat("", SLASH, name);
      FoldAppend(true, [], [""], Split(name, SLASH));
      FoldBlanks(true, []);
      assert Relative("") == [] by {
        assert [SLASH] + "" == "" + [SLASH] + "";
        SplitConcat("", SLASH, "");
        assert [""] + [""] == ["", ""];
      }
    }
    if Rooted(dataDir) {
      ResolveStaysBelow(dataDir, uuid, UploadPath(dir, name));
      ResolveStaysBelow(dataDir, uuid, BrowserPath(dir, name));
    }
  }

  /** A plain child resolves to one more component below its directory. */
  lemma ChildIsOneDeeper(dir: string, name: string)
    requires Plain(name)
    ensures Relative(UploadPath(dir, name)) == Relative(dir) + [name]
  {
    TrailingSlashesVanish(dir);
    RelativeChild(WithoutTrailingSlashes(dir), name);
    RelativePlain(dir);
    SplitWithout(name, SLASH);
    FoldSettled(true, Relative(dir), [name]);
  }

  // ---------------------------------------------------------------------
  // ".." on the way
  // ---------------------------------------------------------------------

  /** Up from a path is its directory, and from the server's root the root itself. */
  lemma UpIsParent(dir: string)
    ensures Relative(dir + "/..") == if Relative(dir) == [] then [] else Relative(dir)[..|Relative(dir)| - 1]
  {
    RelativePlain(dir);
    OneUp([SLASH] + dir);
    assert [SLASH] + (dir + "/..") == ([SLASH] + dir) + "/..";
  }

  /** A name followed by ".." can be left out, wherever in the path it is. */
  lemma InAndUpAgain(dataDir: string, uuid: string, dir: string, name: string, rest: string)
    requires name != "" && name != "." && name != ".." && '/' !in name
    ensures Relative(dir + "/" + name + "/..") == Relative(dir)
    ensures Relative(dir + "/" + name + "/.." + "/" + rest) == Relative(dir + "/" + rest)
    ensures Rooted(dataDir) ==>
              Resolve(dataDir, uuid, dir + "/" + name + "/.." + "/" + rest) == Resolve(dataDir, uuid, dir + "/" + rest)
  {
    var there := dir + "/" + name + "/..";
    InAndUp([SLASH] + dir, name);
    assert [SLASH] + there == ([SLASH] + dir) + "/" + name + "/..";
    RelativeChild(there, rest);
    RelativeChild(dir, rest);
    assert there + "/" + rest == there + [SLASH] + rest && dir + "/" + rest == dir + [SLASH] + rest;
    if Rooted(dataDir) {
      ResolveStaysBelow(dataDir, uuid, there + "/" + rest);
      ResolveStaysBelow(dataDir, uuid, dir + "/" + rest);
    }
  }

  /** No number of leading ".." leaves the server's root. */
  lemma UpsStayAtRoot(dataDir: string, uuid: string, n: nat)
    requires Rooted(dataDir) && n > 0
    ensures Resolve(dataDir, uuid, Ups(n)) == Ok(Spell(true, RootOf(dataDir, uuid)))
  {
    LeadingUps(n);
    ResolveStaysBelow(dataDir, uuid, Ups(n));
    assert "/" + Ups(n) == [SLASH] + Ups(n);
    assert RootOf(dataDir, uuid) + [] == RootOf(dataDir, uuid);
  }

  /** A path without anything to clean resolves name by name. */
  lemma PlainPathResolves(dataDir: string, uuid: string, cs: seq<string>)
    requires Rooted(dataDir) && cs != []
    requires forall c :: c in cs ==> c != "" && c != "." && c != ".." && '/' !in c
    ensures Relative(Join(cs, SLASH)) == cs
    ensures Resolve(dataDir, uuid, Join(cs, SLASH)) == Ok(Spell(true, RootOf(dataDir, uuid) + cs))
  {
    assert AllPlain(cs) by {
      forall i | 0 <= i < |cs| ensures Plain(cs[i]) { assert cs[i] in cs; }
    }
    ComponentsOfSpelling(cs);
    ResolveStaysBelow(dataDir, uuid, Join(cs, SLASH));
  }
}
