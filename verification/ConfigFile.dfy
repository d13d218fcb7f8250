/** The key=value configuration file (`loadConfigFromFile`, `saveConfigToFile`). */
module ConfigFile {
  import opened Wrappers
  import opened Strings

  type Settings = map<string, string>

  predicate Blank(c: char) {
    c == ' ' || c == '\t'
  }

  function TrimLeft(s: string): string {
    if s != "" && Blank(s[0]) then TrimLeft(s[1..]) else s
  }

  function TrimRight(s: string): string {
    if s != "" && Blank(s[|s| - 1]) then TrimRight(s[..|s| - 1]) else s
  }

  function Trim(s: string): string {
    TrimRight(TrimLeft(s))
  }

  /** What one line does to the settings. */
  function LoadLine(c: Settings, line: string): Settings {
    if line == "" || line[0] == '#' then c
    else
      var pos := Find(line, '=');
      if pos < 0 then c else c[Trim(line[..pos]) := Trim(line[pos + 1..])]
  }

  function LoadLines(c: Settings, lines: seq<string>): Settings
    decreases |lines|
  {
    if lines == [] then c else LoadLines(LoadLine(c, lines[0]), lines[1..])
  }

  /** The lines `std::getline` yields: the text after the last newline counts only when it is not empty. */
  function Lines(text: string): seq<string>
    decreases |text|
  {
    if text == "" then []
    else
      var p := Find(text, '\n');
      if p < 0 then [text] else [text[..p]] + Lines(text[p + 1..])
  }

  function Loaded(c: Settings, text: string): Settings {
    LoadLines(c, Lines(text))
  }

  const TITLE := "# Performance Configuration File"
  const NOTE := "# Generated automatically"

  function EntryLine(c: Settings, key: string): string {
    key + "=" + if key in c then c[key] else ""
  }

  function Entries(c: Settings, keys: seq<string>): string {
    if keys == [] then "" else EntryLine(c, keys[0]) + "\n" + Entries(c, keys[1..])
  }

  /** The file written when the settings are visited in the order `keys`. */
  function Saved(c: Settings, keys: seq<string>): string {
    TITLE + "\n" + (NOTE + "\n" + ("" + "\n" + Entries(c, keys)))
  }

  /** Visits every key once. */
  ghost predicate Enumerates(keys: seq<string>, c: Settings) {
    (forall k :: k in keys <==> k in c) && forall i, j :: 0 <= i < j < |keys| ==> keys[i] != keys[j]
  }

  class PerformanceConfig {
    var config: Settings

    constructor ()
      ensures config == map[]
    {
      config := map[];
    }

    /** `file` is None when the file cannot be opened. */
    method LoadConfigFromFile(file: Option<string>)
      modifies this
      ensures config == if file.Some? then Loaded(old(config), file.value) else old(config)
    {
      if file.None? {
        return;
      }
      var rest := file.value;
      while rest != ""
        invariant Loaded(config, rest) == Loaded(old(config), file.value)
        decreases |rest|
      {
        var p := Find(rest, '\n');
        var line := if p < 0 then rest else rest[..p];
        LoadStep(config, rest);
        rest := if p < 0 then "" else rest[p + 1..];
        ParseLine(line);
      }
    }

    method ParseLine(line: string)
      modifies this
      ensures config == LoadLine(old(config), line)
    {
      if line != "" && line[0] != '#' {
        var pos := Find(line, '=');
        if pos >= 0 {
          config := config[Trim(line[..pos]) := Trim(line[pos + 1..])];
        }
      }
    }

    method SaveConfigToFile() returns (text: string)
      ensures exists keys :: Enumerates(keys, config) && text == Saved(config, keys)
    {
      var body := "";
      ghost var keys := [];
      var todo := config.Keys;
      while todo != {}
        invariant todo <= config.Keys
        invariant forall k :: k in keys <==> k in config.Keys - todo
        invariant forall i, j :: 0 <= i < j < |keys| ==> keys[i] != keys[j]
        invariant body == Entries(config, keys)
        decreases todo
      {
        var key :| key in todo;
        EntriesAppend(config, keys, key);
        assert key !in keys;
        body := body + (key + "=" + config[key] + "\n");
        keys := keys + [key];
        todo := todo - {key};
      }
      text := TITLE + "\n" + (NOTE + "\n" + ("" + "\n" + body));
      assert Enumerates(keys, config) && text == Saved(config, keys);
    }
  }

  /** Reading one line and going on. */
  lemma LoadStep(c: Settings, rest: string)
    requires rest != ""
    ensures var p := Find(rest, '\n');
      Loaded(c, rest) ==
      Loaded(LoadLine(c, if p < 0 then rest else rest[..p]), if p < 0 then "" else rest[p + 1..])
  {
    var p := Find(rest, '\n');
    var line, more := if p < 0 then rest else rest[..p], Lines(if p < 0 then "" else rest[p + 1..]);
    assert Lines(rest) == [line] + more;
    LoadOne(c, line, more);
  }

  lemma LoadOne(c: Settings, line: string, more: seq<string>)
    ensures LoadLines(c, [line] + more) == LoadLines(LoadLine(c, line), more)
  {
    assert ([line] + more)[1..] == more;
  }

  lemma {:induction false} EntriesAppend(c: Settings, keys: seq<string>, key: string)
    ensures Entries(c, keys + [key]) == Entries(c, keys) + (EntryLine(c, key) + "\n")
  {
    if keys == [] {
      assert keys + [key] == [key];
    } else {
      EntriesAppend(c, keys[1..], key);
      assert (keys + [key])[1..] == keys[1..] + [key];
    }
  }

  // ----- Trimming -----

  ghost predicate Trimmed(s: string) {
    s != "" ==> !Blank(s[0]) && !Blank(s[|s| - 1])
  }

  lemma {:induction false} TrimLeftFacts(s: string)
    ensures TrimLeft(s) != "" ==> !Blank(TrimLeft(s)[0])
    ensures forall c :: c in TrimLeft(s) ==> c in s
  {
    if s != "" && Blank(s[0]) { TrimLeftFacts(s[1..]); }
  }

  lemma {:induction false} TrimRightFacts(s: string)
    ensures TrimRight(s) != "" ==> !Blank(TrimRight(s)[|TrimRight(s)| - 1]) && TrimRight(s)[0] == s[0]
    ensures forall c :: c in TrimRight(s) ==> c in s
  {
    if s != "" && Blank(s[|s| - 1]) { TrimRightFacts(s[..|s| - 1]); }
  }

  lemma TrimFacts(s: string)
    ensures Trimmed(Trim(s)) && forall c :: c in Trim(s) ==> c in s
  {
    TrimLeftFacts(s);
    TrimRightFacts(TrimLeft(s));
  }

  ghost predicate AllBlank(s: string) {
    forall i :: 0 <= i < |s| ==> Blank(s[i])
  }

  lemma {:induction false} TrimLeftCuts(s: string) returns (a: string)
    ensures s == a + TrimLeft(s) && AllBlank(a)
  {
    a := "";
    if s != "" && Blank(s[0]) {
      var rest := TrimLeftCuts(s[1..]);
      a := [s[0]] + rest;
    }
  }

  lemma {:induction false} TrimRightCuts(s: string) returns (b: string)
    ensures s == TrimRight(s) + b && AllBlank(b)
  {
    b := "";
    if s != "" && Blank(s[|s| - 1]) {
      var rest := TrimRightCuts(s[..|s| - 1]);
      b := rest + [s[|s| - 1]];
    }
  }

  /** Trimming cuts blanks off both ends, as many as there are, and nothing else. */
  lemma TrimExactly(s: string) returns (a: string, b: string)
    ensures s == a + Trim(s) + b && AllBlank(a) && AllBlank(b) && Trimmed(Trim(s))
  {
    a := TrimLeftCuts(s);
    b := TrimRightCuts(TrimLeft(s));
    TrimFacts(s);
  }

  /** So a trimmed string is recovered from any blanks around it. */
  lemma TrimRecovers(a: string, s: string, b: string)
    requires AllBlank(a) && AllBlank(b) && Trimmed(s)
    ensures Trim(a + s + b) == s
  {
    TrimLeftOver(a, s + b);
    assert a + s + b == a + (s + b);
    if s == "" {
      TrimLeftOver(b, "");
      assert s + b == b && b + "" == b;
    } else {
      assert !Blank((s + b)[0]);
      TrimRightOver(s, b);
    }
  }

  lemma {:induction false} TrimLeftOver(a: string, s: string)
    requires AllBlank(a)
    ensures TrimLeft(a + s) == TrimLeft(s)
  {
    if a == "" {
      assert a + s == s;
    } else {
      assert (a + s)[1..] == a[1..] + s;
      TrimLeftOver(a[1..], s);
    }
  }

  lemma {:induction false} TrimRightOver(s: string, b: string)
    requires AllBlank(b)
    ensures TrimRight(s + b) == TrimRight(s)
  {
    if b == "" {
      assert s + b == s;
    } else {
      assert (s + b)[..|s + b| - 1] == s + b[..|b| - 1];
      TrimRightOver(s, b[..|b| - 1]);
    }
  }

  lemma TrimmedStays(s: string)
    requires Trimmed(s)
    ensures Trim(s) == s
  {
  }

  // ----- Lines -----

  lemma LinesStep(line: string, rest: string)
    requires '\n' !in line
    ensures Lines(line + "\n" + rest) == [line] + Lines(rest)
  {
    var text := line + "\n" + rest;
    FindAfter(line, rest, '\n');
    assert text[..|line|] == line && text[|line| + 1..] == rest;
  }

  lemma FindAfter(a: string, b: string, c: char)
    requires c !in a
    ensures Find(a + [c] + b, c) == |a|
  {
    var s := a + [c] + b;
    assert s[|a|] == c && s[..|a|] == a;
    FindIsFirst(s, c, |a|);
  }

  lemma {:induction false} FindIsFirst(s: string, c: char, i: nat)
    requires i < |s| && s[i] == c && c !in s[..i]
    ensures Find(s, c) == i
  {
    if i > 0 {
      assert s[0] == s[..i][0];
      assert s[1..][..i - 1] == s[1..i] && forall x :: x in s[1..i] ==> x in s[..i];
      FindIsFirst(s[1..], c, i - 1);
    }
  }

  lemma {:induction false} LinesHaveNoNewline(text: string, i: nat)
    requires i < |Lines(text)|
    ensures '\n' !in Lines(text)[i]
    decreases |text|
  {
    var p := Find(text, '\n');
    if p >= 0 && i > 0 { LinesHaveNoNewline(text[p + 1..], i - 1); }
  }

  ghost function Unlines(lines: seq<string>): string {
    if lines == [] then "" else lines[0] + "\n" + Unlines(lines[1..])
  }

  /** The lines, joined again, are the text, or the text with the newline its last line lacked. */
  ghost predicate Joins(lines: seq<string>, text: string) {
    || Unlines(lines) == text
    || (Unlines(lines) == text + "\n" && text != "" && text[|text| - 1] != '\n')
  }

  lemma JoinsMore(line: string, lines: seq<string>, text: string)
    requires Joins(lines, text)
    ensures Joins([line] + lines, line + "\n" + text)
  {
    var all := line + "\n" + text;
    assert ([line] + lines)[1..] == lines;
    if Unlines(lines) != text {
      assert line + "\n" + (text + "\n") == all + "\n";
      assert all[|all| - 1] == text[|text| - 1];
    }
  }

  lemma JoinsLast(line: string)
    requires line != "" && '\n' !in line
    ensures Joins([line], line)
  {
    assert Unlines([line]) == line + "\n" + Unlines([]);
    assert Unlines([line]) == line + "\n";
  }

  /** The lines are the text cut at its newlines; only the last may lack one, and then it is not empty. */
  lemma {:induction false} LinesExactly(text: string)
    ensures Joins(Lines(text), text)
    decreases |text|
  {
    if text != "" {
      var p := Find(text, '\n');
      if p < 0 {
        JoinsLast(text);
      } else {
        var rest := text[p + 1..];
        LinesExactly(rest);
        JoinsMore(text[..p], Lines(rest), rest);
        assert text == text[..p] + "\n" + rest;
      }
    }
  }

  /** What one line does: nothing if it is empty, a comment, or has no '='; otherwise it sets the key before
      the first '=' to the value after it, whatever blanks surround either. */
  lemma LineExactly(c: Settings, line: string)
    ensures line == "" || line[0] == '#' || '=' !in line ==> LoadLine(c, line) == c
  {
  }

  lemma BlankedEntryLoads(c: Settings, a: string, key: string, b: string, a': string, value: string, b': string)
    requires AllBlank(a) && AllBlank(b) && AllBlank(a') && AllBlank(b') && Trimmed(key) && Trimmed(value)
    requires '=' !in key && (a != "" || !Comment(key))
    ensures LoadLine(c, a + key + b + "=" + (a' + value + b')) == c[key := value]
  {
    var left, right := a + key + b, a' + value + b';
    var line := left + "=" + right;
    assert '=' !in left;
    FindAfter(left, right, '=');
    assert line == left + ['='] + right && line[..|left|] == left && line[|left| + 1..] == right;
    TrimRecovers(a, key, b);
    TrimRecovers(a', value, b');
    assert line[0] != '#' by {
      if a != "" { assert line[0] == a[0]; }
      else if key != "" { assert line[0] == key[0]; }
      else if b != "" { assert line[0] == b[0]; }
      else { assert line[0] == '='; }
    }
  }

  lemma HeaderFacts()
    ensures '\n' !in TITLE && '\n' !in NOTE && TITLE[0] == '#' && NOTE[0] == '#'
  {
  }

  /** The three header lines change nothing. */
  lemma SavedLoads(base: Settings, c: Settings, keys: seq<string>)
    ensures Loaded(base, Saved(c, keys)) == Loaded(base, Entries(c, keys))
  {
    HeaderFacts();
    var entries := Entries(c, keys);
    SkippedLine(base, "", entries);
    SkippedLine(base, NOTE, "" + "\n" + entries);
    SkippedLine(base, TITLE, NOTE + "\n" + ("" + "\n" + entries));
  }

  lemma SkippedLine(base: Settings, line: string, rest: string)
    requires '\n' !in line && (line == "" || line[0] == '#')
    ensures Loaded(base, line + "\n" + rest) == Loaded(base, rest)
  {
    LinesStep(line, rest);
    assert ([line] + Lines(rest))[1..] == Lines(rest);
  }

  // ----- Round trip -----

  /** Survives being written and split again, except that a key starting with '#' reads as a comment. */
  ghost predicate Writable(key: string, value: string) {
    Trimmed(key) && Trimmed(value) && '=' !in key && '\n' !in key && '\n' !in value
  }

  ghost predicate Comment(key: string) {
    key != "" && key[0] == '#'
  }

  ghost predicate Clean(c: Settings) {
    forall k :: k in c ==> Writable(k, c[k]) && !Comment(k)
  }

  ghost predicate AllWritable(c: Settings) {
    forall k :: k in c ==> Writable(k, c[k])
  }

  lemma EntryLoads(base: Settings, c: Settings, k: string)
    requires k in c && Writable(k, c[k])
    ensures LoadLine(base, EntryLine(c, k)) == if Comment(k) then base else base[k := c[k]]
  {
    var line := EntryLine(c, k);
    FindAfter(k, c[k], '=');
    assert line == k + ['='] + c[k];
    assert line[..|k|] == k && line[|k| + 1..] == c[k];
    TrimmedStays(k);
    TrimmedStays(c[k]);
  }

  ghost function Kept(c: Settings, keys: seq<string>): Settings {
    map k | k in c && k in keys && !Comment(k) :: c[k]
  }

  lemma {:induction false} EntriesLoad(base: Settings, c: Settings, keys: seq<string>)
    requires AllWritable(c) && forall k :: k in keys ==> k in c
    ensures Loaded(base, Entries(c, keys)) == base + Kept(c, keys)
    decreases |keys|
  {
    if keys == [] {
      assert Kept(c, keys) == map[];
    } else {
      var k := keys[0];
      var line := EntryLine(c, k);
      assert Writable(k, c[k]);
      LinesStep(line, Entries(c, keys[1..]));
      EntryLoads(base, c, k);
      var base' := LoadLine(base, line);
      EntriesLoad(base', c, keys[1..]);
      KeptStep(base, c, keys);
    }
  }

  lemma KeptStep(base: Settings, c: Settings, keys: seq<string>)
    requires keys != [] && keys[0] in c
    ensures var k := keys[0];
      (if Comment(k) then base else base[k := c[k]]) + Kept(c, keys[1..]) == base + Kept(c, keys)
  {
    assert keys == [keys[0]] + keys[1..];
  }

  /** Loading a saved clean configuration over existing settings is the merge that prefers the file. */
  lemma SaveLoadMerges(base: Settings, c: Settings, keys: seq<string>)
    requires Clean(c) && Enumerates(keys, c)
    ensures Loaded(base, Saved(c, keys)) == base + c
  {
    SavedLoads(base, c, keys);
    EntriesLoad(base, c, keys);
    assert Kept(c, keys) == c;
  }

  lemma LoadLineWritable(c: Settings, line: string)
    requires AllWritable(c) && '\n' !in line
    ensures AllWritable(LoadLine(c, line))
  {
    var pos := Find(line, '=');
    if pos >= 0 {
      TrimFacts(line[..pos]);
      TrimFacts(line[pos + 1..]);
    }
  }

  lemma {:induction false} LoadLinesWritable(c: Settings, lines: seq<string>)
    requires AllWritable(c) && forall i :: 0 <= i < |lines| ==> '\n' !in lines[i]
    ensures AllWritable(LoadLines(c, lines))
    decreases |lines|
  {
    if lines != [] {
      LoadLineWritable(c, lines[0]);
      LoadLinesWritable(LoadLine(c, lines[0]), lines[1..]);
    }
  }

  /** A configuration survives saving and loading exactly when it is clean, whatever the visiting order. */
  lemma RoundTripExactly(c: Settings, keys: seq<string>)
    requires Enumerates(keys, c)
    ensures Loaded(map[], Saved(c, keys)) == c <==> Clean(c)
  {
    if Clean(c) {
      SaveLoadMerges(map[], c, keys);
      assert map[] + c == c;
    }
    if Loaded(map[], Saved(c, keys)) == c {
      var lines := Lines(Saved(c, keys));
      forall i | 0 <= i < |lines| ensures '\n' !in lines[i] {
        LinesHaveNoNewline(Saved(c, keys), i);
      }
      LoadLinesWritable(map[], lines);
      SavedLoads(map[], c, keys);
      EntriesLoad(map[], c, keys);
      assert c == Kept(c, keys);
    }
  }
}
