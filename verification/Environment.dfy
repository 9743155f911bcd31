/**
  The environment editor of the settings panel: `environmentToText` prints a
  record as KEY=VALUE lines, `textToEnvironment` reads such a text back.
 */
module Environment {
  import opened Wrappers
  import opened Sequences

  // ---------------------------------------------------------------------
  // JavaScript's trim and property assignment
  // ---------------------------------------------------------------------

  /** WhiteSpace and LineTerminator of ECMAScript, which String.prototype.trim removes. */
  predicate IsSpace(c: char) {
    || '\U{0009}' <= c <= '\U{000D}' || c == ' ' || c == '\U{00A0}' || c == '\U{1680}'
    || '\U{2000}' <= c <= '\U{200A}' || c == '\U{2028}' || c == '\U{2029}' || c == '\U{202F}'
    || c == '\U{205F}' || c == '\U{3000}' || c == '\U{FEFF}'
  }

  function TrimStart(s: string): string {
    if s != "" && IsSpace(s[0]) then TrimStart(s[1..]) else s
  }

  function TrimEnd(s: string): string {
    if s != "" && IsSpace(s[|s| - 1]) then TrimEnd(s[..|s| - 1]) else s
  }

  function Trim(s: string): string { TrimEnd(TrimStart(s)) }

  predicate Trimmed(s: string) { s == "" || (!IsSpace(s[0]) && !IsSpace(s[|s| - 1])) }

  /** Assigning a string to `__proto__` of a plain object creates no property. */
  const PROTO := "__proto__"

  function Assign(env: map<string, string>, key: string, value: string): map<string, string> {
    if key == PROTO then env else env[key := value]
  }

  // ---------------------------------------------------------------------
  // The printer and the parser
  // ---------------------------------------------------------------------

  datatype Entry = Entry(key: string, value: string)

  function Line(e: Entry): string { e.key + ['='] + e.value }

  function Lines(entries: seq<Entry>): seq<string> {
    if entries == [] then [] else [Line(entries[0])] + Lines(entries[1..])
  }

  function EnvironmentToText(entries: seq<Entry>): string { Join(Lines(entries), '\n') }

  /** What one line of text says, if anything. */
  function ParseLine(line: string): Option<Entry> {
    var trimmed := Trim(line);
    if trimmed == "" || '=' !in trimmed then None
    else
      var parts := Split(trimmed, '=');
      Some(Entry(Trim(parts[0]), Trim(Join(parts[1..], '='))))
  }

  function Add(env: map<string, string>, said: Option<Entry>): map<string, string> {
    match said
    case None => env
    case Some(e) => Assign(env, e.key, e.value)
  }

  function AddLines(env: map<string, string>, lines: seq<string>): map<string, string> {
    if lines == [] then env else Add(AddLines(env, lines[..|lines| - 1]), ParseLine(lines[|lines| - 1]))
  }

  /** What the parser computes. */
  function Parse(text: string): map<string, string> { AddLines(map[], Split(text, '\n')) }

  /** textToEnvironment: the loop over lines, assigning into one object. */
  method TextToEnvironment(text: string) returns (env: map<string, string>)
    ensures env == Parse(text)
  {
    env := map[];
    var lines := Split(text, '\n');
    for i := 0 to |lines|
      invariant env == AddLines(map[], lines[..i])
    {
      assert lines[..i + 1][..i] == lines[..i];
      var trimmed := Trim(lines[i]);
      if trimmed == "" || '=' !in trimmed { continue; }
      var parts := Split(trimmed, '=');
      var key, value := Trim(parts[0]), Trim(Join(parts[1..], '='));
      if key != PROTO {
        env := env[key := value];
      }
    }
    assert lines[..|lines|] == lines;
  }

  // ---------------------------------------------------------------------
  // Trimming
  // ---------------------------------------------------------------------

  ghost predicate CharsOf(s: string, t: string) { forall c :: c in s ==> c in t }

  lemma {:induction false} TrimStartTrims(s: string)
    ensures var r := TrimStart(s); CharsOf(r, s) && (r == "" || !IsSpace(r[0]))
  {
    if s != "" && IsSpace(s[0]) { TrimStartTrims(s[1..]); }
  }

  lemma {:induction false} TrimEndTrims(s: string)
    ensures var r := TrimEnd(s); CharsOf(r, s) && (r == "" || (r[0] == s[0] && !IsSpace(r[|r| - 1])))
    decreases |s|
  {
    if s != "" && IsSpace(s[|s| - 1]) { TrimEndTrims(s[..|s| - 1]); }
  }

  lemma TrimTrims(s: string)
    ensures Trimmed(Trim(s)) && CharsOf(Trim(s), s)
  {
    TrimStartTrims(s);
    TrimEndTrims(TrimStart(s));
  }

  lemma TrimmedStays(s: string)
    requires Trimmed(s)
    ensures Trim(s) == s
  {}

  /** The 25 code points that are white space, one by one. */
  const WHITE_SPACE :=
    "\U{0009}\U{000A}\U{000B}\U{000C}\U{000D}\U{0020}\U{00A0}\U{1680}"
    + "\U{2000}\U{2001}\U{2002}\U{2003}\U{2004}\U{2005}\U{2006}\U{2007}\U{2008}\U{2009}\U{200A}"
    + "\U{2028}\U{2029}\U{202F}\U{205F}\U{3000}\U{FEFF}"

  lemma SpacesListed(c: char)
    ensures IsSpace(c) <==> c in WHITE_SPACE
  {
    if IsSpace(c) {
      assert WHITE_SPACE[0] == '\U{0009}' && WHITE_SPACE[1] == '\U{000A}' && WHITE_SPACE[2] == '\U{000B}'
          && WHITE_SPACE[3] == '\U{000C}' && WHITE_SPACE[4] == '\U{000D}' && WHITE_SPACE[5] == ' '
          && WHITE_SPACE[6] == '\U{00A0}' && WHITE_SPACE[7] == '\U{1680}';
      assert WHITE_SPACE[19] == '\U{2028}' && WHITE_SPACE[20] == '\U{2029}' && WHITE_SPACE[21] == '\U{202F}'
          && WHITE_SPACE[22] == '\U{205F}' && WHITE_SPACE[23] == '\U{3000}' && WHITE_SPACE[24] == '\U{FEFF}';
      if 0x2000 <= c as int <= 0x200A { assert c == WHITE_SPACE[8 + (c as int - 0x2000)]; }
    }
  }

  predicate Blank(s: string) { forall c :: c in s ==> c in WHITE_SPACE }

  lemma {:induction false} StartDrops(a: string, s: string)
    requires Blank(a)
    ensures TrimStart(a + s) == TrimStart(s)
  {
    if a == "" {
      assert a + s == s;
    } else {
      SpacesListed(a[0]);
      assert a[0] in a && (a + s)[1..] == a[1..] + s;
      StartDrops(a[1..], s);
    }
  }

  lemma {:induction false} EndDrops(s: string, b: string)
    requires Blank(b)
    ensures TrimEnd(s + b) == TrimEnd(s)
    decreases |b|
  {
    if b == "" {
      assert s + b == s;
    } else {
      var n := |b| - 1;
      SpacesListed(b[n]);
      assert b[n] in b && (s + b)[..|s + b| - 1] == s + b[..n];
      EndDrops(s, b[..n]);
    }
  }

  /** Trimming takes the white space off both ends and nothing else. */
  lemma TrimIs(a: string, s: string, b: string)
    requires Blank(a) && Blank(b)
    requires s == "" || (s[0] !in WHITE_SPACE && s[|s| - 1] !in WHITE_SPACE)
    ensures Trim(a + s + b) == s
  {
    assert a + s + b == a + (s + b);
    StartDrops(a, s + b);
    if s == "" {
      StartDrops(b, "");
      assert s + b == b + "";
    } else {
      SpacesListed(s[0]);
      SpacesListed(s[|s| - 1]);
      EndDrops(s, b);
    }
  }

  lemma {:induction false} StartSplits(s: string) returns (a: string)
    ensures Blank(a) && s == a + TrimStart(s)
  {
    a := "";
    if s != "" && IsSpace(s[0]) {
      SpacesListed(s[0]);
      a := StartSplits(s[1..]);
      a := [s[0]] + a;
    }
  }

  lemma {:induction false} EndSplits(s: string) returns (b: string)
    ensures Blank(b) && s == TrimEnd(s) + b
    decreases |s|
  {
    b := "";
    if s != "" && IsSpace(s[|s| - 1]) {
      SpacesListed(s[|s| - 1]);
      b := EndSplits(s[..|s| - 1]);
      b := b + [s[|s| - 1]];
    }
  }

  /** Trimming a text is trimming it once more, wherever white space was already taken off. */
  lemma TrimAgain(s: string)
    ensures Trim(TrimStart(s)) == Trim(s) && Trim(TrimEnd(s)) == Trim(s)
  {
    var a := StartSplits(s);
    StartDrops(a, TrimStart(s));
    var b := EndSplits(s);
    if TrimEnd(s) == "" {
      TrimIs("", "", b);
      assert "" + "" + b == s;
    } else {
      TrimEndTrims(s);
      TrimStartKeepsEnd(TrimEnd(s), b);
    }
  }

  lemma {:induction false} TrimStartKeepsEnd(s: string, b: string)
    requires s != "" && !IsSpace(s[|s| - 1]) && Blank(b)
    ensures Trim(s + b) == Trim(s)
  {
    if IsSpace(s[0]) {
      assert (s + b)[1..] == s[1..] + b;
      TrimStartKeepsEnd(s[1..], b);
    } else {
      EndDrops(s, b);
    }
  }

  // ---------------------------------------------------------------------
  // Normal form
  // ---------------------------------------------------------------------

  predicate NormalEntry(e: Entry) {
    && Trimmed(e.key) && '=' !in e.key && '\n' !in e.key && e.key != PROTO
    && Trimmed(e.value) && '\n' !in e.value
  }

  ghost predicate Normal(env: map<string, string>) {
    forall k :: k in env ==> NormalEntry(Entry(k, env[k]))
  }

  /** The own properties of the record, each once, in whatever order Object.entries gives them. */
  ghost predicate IsListing(entries: seq<Entry>, env: map<string, string>) {
    && (forall i :: 0 <= i < |entries| ==> entries[i].key in env && env[entries[i].key] == entries[i].value)
    && (forall k :: k in env ==> exists i :: 0 <= i < |entries| && entries[i].key == k)
    && (forall i, j :: 0 <= i < j < |entries| ==> entries[i].key != entries[j].key)
  }

  /** A printed normal entry reads back as itself; a value may contain '='. */
  lemma LineReadsBack(e: Entry)
    requires NormalEntry(e)
    ensures ParseLine(Line(e)) == Some(e) && '\n' !in Line(e)
  {
    var line := Line(e);
    assert line != "" && Trimmed(line);
    TrimmedStays(line);
    TrimmedStays(e.key);
    TrimmedStays(e.value);
    assert line[|e.key|] == '=';
    SplitConcat(e.key, '=', e.value);
    SplitWithout(e.key, '=');
    JoinSplit(e.value, '=');
    assert Split(line, '=')[1..] == Split(e.value, '=');
  }

  /** Whatever a line says is normal, or names `__proto__`. */
  lemma ParsedLineIsNormal(line: string)
    requires '\n' !in line
    ensures ParseLine(line).Some? ==> NormalEntry(ParseLine(line).value) || ParseLine(line).value.key == PROTO
  {
    var trimmed := Trim(line);
    TrimTrims(line);
    if '=' in trimmed {
      var parts := Split(trimmed, '=');
      var rest := Join(parts[1..], '=');
      SplitHead(trimmed, '=');
      SplitPieces(trimmed, '=');
      assert parts[0] in parts;
      assert trimmed == parts[0] + ['='] + rest;
      TrimTrims(parts[0]);
      TrimTrims(rest);
      assert CharsOf(parts[0], trimmed) && CharsOf(rest, trimmed);
    }
  }

  lemma {:induction false} ParsedLinesAreNormal(env: map<string, string>, lines: seq<string>)
    requires Normal(env)
    requires forall l :: l in lines ==> '\n' !in l
    ensures Normal(AddLines(env, lines))
  {
    if lines != [] {
      var last := lines[|lines| - 1];
      ParsedLinesAreNormal(env, lines[..|lines| - 1]);
      ParsedLineIsNormal(last);
    }
  }

  /** Every parsed text is in normal form. */
  lemma ParseIsNormal(text: string)
    ensures Normal(Parse(text))
    ensures "__proto__" !in Parse(text)
  {
    SplitPieces(text, '\n');
    ParsedLinesAreNormal(map[], Split(text, '\n'));
  }

  /** The entries read so far, as a record. */
  function Collected(entries: seq<Entry>): map<string, string> {
    if entries == [] then map[]
    else
      var n := |entries| - 1;
      Collected(entries[..n])[entries[n].key := entries[n].value]
  }

  lemma {:induction false} LinesAt(entries: seq<Entry>)
    ensures |Lines(entries)| == |entries|
    ensures forall i :: 0 <= i < |entries| ==> Lines(entries)[i] == Line(entries[i])
  {
    if entries != [] {
      LinesAt(entries[1..]);
      forall i | 0 <= i < |entries| ensures Lines(entries)[i] == Line(entries[i]) {
        if i > 0 { assert entries[i] == entries[1..][i - 1]; }
      }
    }
  }

  lemma {:induction false} LinesReadBack(entries: seq<Entry>, n: nat)
    requires n <= |entries|
    requires forall i :: 0 <= i < |entries| ==> NormalEntry(entries[i])
    ensures n <= |Lines(entries)| && AddLines(map[], Lines(entries)[..n]) == Collected(entries[..n])
  {
    LinesAt(entries);
    if n > 0 {
      LinesReadBack(entries, n - 1);
      LineReadsBack(entries[n - 1]);
      assert Lines(entries)[..n][..n - 1] == Lines(entries)[..n - 1];
      assert entries[..n][..n - 1] == entries[..n - 1];
    }
  }

  lemma {:induction false} CollectedIs(entries: seq<Entry>)
    requires forall i, j :: 0 <= i < j < |entries| ==> entries[i].key != entries[j].key
    ensures forall i :: 0 <= i < |entries| ==>
              entries[i].key in Collected(entries) && Collected(entries)[entries[i].key] == entries[i].value
    ensures forall k :: k in Collected(entries) ==> exists i :: 0 <= i < |entries| && entries[i].key == k
  {
    if entries != [] {
      var n := |entries| - 1;
      var front := entries[..n];
      CollectedIs(front);
      forall k | k in Collected(entries) ensures exists i :: 0 <= i < |entries| && entries[i].key == k {
        if k == entries[n].key {
        } else {
          assert k in Collected(front);
          var i :| 0 <= i < |front| && front[i].key == k;
          assert entries[i].key == k;
        }
      }
    }
  }

  lemma ListingCollects(entries: seq<Entry>, env: map<string, string>)
    requires IsListing(entries, env)
    ensures Collected(entries) == env
  {
    CollectedIs(entries);
  }

  lemma LinesAreLines(entries: seq<Entry>)
    requires forall i :: 0 <= i < |entries| ==> NormalEntry(entries[i])
    ensures forall l :: l in Lines(entries) ==> '\n' !in l
  {
    LinesAt(entries);
    forall l | l in Lines(entries) ensures '\n' !in l {
      var i :| 0 <= i < |entries| && Lines(entries)[i] == l;
      LineReadsBack(entries[i]);
    }
  }

  /** Printing a normal record, in any order, and parsing it gives the record back. */
  lemma NormalReadsBack(entries: seq<Entry>, env: map<string, string>)
    requires IsListing(entries, env) && Normal(env)
    ensures Parse(EnvironmentToText(entries)) == env
  {
    var lines := Lines(entries);
    LinesAt(entries);
    forall i | 0 <= i < |entries| ensures NormalEntry(entries[i]) {
      assert NormalEntry(Entry(entries[i].key, env[entries[i].key]));
    }
    LinesReadBack(entries, |entries|);
    assert entries[..|entries|] == entries && lines[..|lines|] == lines;
    ListingCollects(entries, env);
    if entries == [] {
      assert ParseLine("") == None;
      assert Split("", '\n') == [""];
    } else {
      LinesAreLines(entries);
      SplitJoin(lines, '\n');
    }
  }

  /** Exactly the normal records survive printing and parsing. */
  lemma RoundTripIffNormal(entries: seq<Entry>, env: map<string, string>)
    requires IsListing(entries, env)
    ensures Parse(EnvironmentToText(entries)) == env <==> Normal(env)
  {
    ParseIsNormal(EnvironmentToText(entries));
    if Normal(env) {
      NormalReadsBack(entries, env);
    }
  }

  /** Saving what was parsed and parsing it again changes nothing, for every text. */
  lemma ParsePrintParse(text: string, entries: seq<Entry>)
    requires IsListing(entries, Parse(text))
    ensures Parse(EnvironmentToText(entries)) == Parse(text)
  {
    ParseIsNormal(text);
    NormalReadsBack(entries, Parse(text));
  }

  // ---------------------------------------------------------------------
  // What a line says
  // ---------------------------------------------------------------------

  lemma {:induction false} TrimStartOfLine(key: string, value: string)
    ensures TrimStart(key + "=" + value) == TrimStart(key) + "=" + value
  {
    if key != "" && IsSpace(key[0]) {
      assert (key + "=" + value)[1..] == key[1..] + "=" + value;
      TrimStartOfLine(key[1..], value);
    }
  }

  lemma {:induction false} TrimEndOfLine(key: string, value: string)
    ensures TrimEnd(key + "=" + value) == key + "=" + TrimEnd(value)
    decreases |value|
  {
    var line := key + "=" + value;
    if value != "" && IsSpace(value[|value| - 1]) {
      assert line[..|line| - 1] == key + "=" + value[..|value| - 1];
      TrimEndOfLine(key, value[..|value| - 1]);
    }
  }

  /** The first '=' of a line ends the key; key and value are trimmed. A line without '=' says nothing. */
  lemma LineSays(key: string, value: string)
    requires '=' !in key
    ensures ParseLine(key + "=" + value) == Some(Entry(Trim(key), Trim(value)))
    ensures ParseLine(key) == None
  {
    var k, v := TrimStart(key), TrimEnd(value);
    TrimStartOfLine(key, value);
    TrimEndOfLine(k, value);
    assert Trim(key + "=" + value) == k + ['='] + v;
    assert (k + ['='] + v)[|k|] == '=';
    TrimStartTrims(key);
    TrimTrims(key);
    SplitConcat(k, '=', v);
    SplitWithout(k, '=');
    JoinSplit(v, '=');
    assert Split(k + ['='] + v, '=')[1..] == Split(v, '=');
    TrimAgain(key);
    TrimAgain(value);
  }

  /** The text of a record, line by line. */
  lemma PrintedText(entries: seq<Entry>, e: Entry)
    ensures EnvironmentToText([]) == ""
    ensures EnvironmentToText([e]) == e.key + "=" + e.value
    ensures entries != [] ==>
              EnvironmentToText(entries + [e]) == EnvironmentToText(entries) + "\n" + e.key + "=" + e.value
  {
    assert [e][1..] == [] && Lines([e]) == [Line(e)];
    if entries != [] {
      LinesAppend(entries, e);
      assert Lines(entries) != [];
      JoinConcat(Lines(entries), [Line(e)], '\n');
    }
  }

  lemma {:induction false} LinesAppend(entries: seq<Entry>, e: Entry)
    ensures Lines(entries + [e]) == Lines(entries) + [Line(e)]
  {
    if entries == [] {
      assert [e][1..] == [] && entries + [e] == [e];
    } else {
      assert (entries + [e])[1..] == entries[1..] + [e];
      LinesAppend(entries[1..], e);
    }
  }

  // ---------------------------------------------------------------------
  // Which line wins
  // ---------------------------------------------------------------------

  lemma {:induction false} AddLinesMerge(env: map<string, string>, lines: seq<string>)
    ensures AddLines(env, lines) == env + AddLines(map[], lines)
  {
    if lines != [] {
      AddLinesMerge(env, lines[..|lines| - 1]);
    }
  }

  lemma {:induction false} AddLinesAppend(env: map<string, string>, a: seq<string>, b: seq<string>)
    ensures AddLines(env, a + b) == AddLines(AddLines(env, a), b)
  {
    if b == [] {
      assert a + b == a;
    } else {
      var n := |b| - 1;
      assert (a + b)[..|a + b| - 1] == a + b[..n];
      AddLinesAppend(env, a, b[..n]);
    }
  }

  /** Two texts one after the other: the second's settings override the first's. */
  lemma ParseOfTwo(a: string, b: string)
    ensures Parse(a + ['\n'] + b) == Parse(a) + Parse(b)
  {
    SplitConcat(a, '\n', b);
    AddLinesAppend(map[], Split(a, '\n'), Split(b, '\n'));
    AddLinesMerge(Parse(a), Split(b, '\n'));
  }

  function Said(lines: seq<string>): seq<Option<Entry>> {
    seq(|lines|, i requires 0 <= i < |lines| => ParseLine(lines[i]))
  }

  function AddAll(said: seq<Option<Entry>>): map<string, string> {
    if said == [] then map[] else Add(AddAll(said[..|said| - 1]), said[|said| - 1])
  }

  lemma {:induction false} AddLinesSaid(lines: seq<string>)
    ensures AddLines(map[], lines) == AddAll(Said(lines))
  {
    if lines != [] {
      var n := |lines| - 1;
      AddLinesSaid(lines[..n]);
      assert Said(lines)[..n] == Said(lines[..n]);
    }
  }

  predicate Sets(said: Option<Entry>, key: string) { said.Some? && said.value.key == key }

  /** Line `i` sets `key`, and no later line does. */
  ghost predicate LastToSet(said: seq<Option<Entry>>, key: string, i: int) {
    0 <= i < |said| && Sets(said[i], key) && forall j :: i < j < |said| ==> !Sets(said[j], key)
  }

  /** A key is set iff some line sets it, and to the value of the last such line. */
  ghost predicate LastSettingWins(said: seq<Option<Entry>>, env: map<string, string>, key: string) {
    && (key in env <==> exists i :: 0 <= i < |said| && Sets(said[i], key))
    && (forall i :: LastToSet(said, key, i) ==> key in env && env[key] == said[i].value.value)
  }

  lemma {:induction false} SetIff(said: seq<Option<Entry>>, key: string)
    requires key != PROTO
    ensures key in AddAll(said) <==> exists i :: 0 <= i < |said| && Sets(said[i], key)
  {
    if said != [] {
      var n := |said| - 1;
      SetIff(said[..n], key);
      if i :| 0 <= i < n && Sets(said[i], key) {
        assert Sets(said[..n][i], key);
      }
    }
  }

  lemma {:induction false} LastValue(said: seq<Option<Entry>>, key: string, i: int)
    requires key != PROTO && LastToSet(said, key, i)
    ensures key in AddAll(said) && AddAll(said)[key] == said[i].value.value
    decreases |said|
  {
    var n := |said| - 1;
    if i < n {
      assert !Sets(said[n], key);
      LastValue(said[..n], key, i);
    }
  }

  lemma LastWins(said: seq<Option<Entry>>, key: string)
    requires key != PROTO
    ensures LastSettingWins(said, AddAll(said), key)
  {
    SetIff(said, key);
    forall i | LastToSet(said, key, i) ensures key in AddAll(said) && AddAll(said)[key] == said[i].value.value {
      LastValue(said, key, i);
    }
  }

  /** Duplicates: the last line to set a key decides, in every text. */
  lemma LastLineWins(text: string, key: string)
    requires key != "__proto__"
    ensures LastSettingWins(Said(Split(text, '\n')), Parse(text), key)
  {
    AddLinesSaid(Split(text, '\n'));
    LastWins(Said(Split(text, '\n')), key);
  }
}
