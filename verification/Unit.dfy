/** The systemd unit `fornax install` prints and the check that reads it (internal/install/install.go, internal/deploycheck/deploycheck.go). */
module Unit {
  import opened Wrappers
  import opened Text
  import opened Manifest
  import opened Engine

  datatype Options = Options(binPath: string, configDir: string, user: string, cacheRoot: string, speculator: string)
  {
    function Bin(): string { if binPath != "" then binPath else "/usr/local/bin/fornax" }

    function Config(): string { if configDir != "" then configDir else "/etc/fornax" }
  }

  const BINARY := "fornax"
  const SERVE := "serve"
  const EXEC_START := "ExecStart="
  const MANIFEST_FLAG := "--manifest"
  const MANIFEST_EQ := "--manifest="
  const CACHE_ROOT_FLAG := "--cache-root"
  const SPECULATOR_FLAG := "--speculator"

  // ----- paths (path/filepath on Unix) -----

  /** Lexical cleaning, one component at a time. */
  function Components(parts: seq<string>, rooted: bool): seq<string> {
    if parts == [] then []
    else
      var out := Components(parts[..|parts| - 1], rooted);
      var p := parts[|parts| - 1];
      if p == "" || p == "." then out
      else if p == ".." then
        if out != [] && out[|out| - 1] != ".." then out[..|out| - 1]
        else if rooted then out
        else out + [p]
      else out + [p]
  }

  function Slashed(parts: seq<string>): string {
    if parts == [] then "" else if |parts| == 1 then parts[0] else parts[0] + ['/'] + Slashed(parts[1..])
  }

  /** filepath.Clean of a non-empty path. */
  function Clean(path: string): string
    requires path != ""
  {
    var rooted := path[0] == '/';
    var body := Slashed(Components(Split(path, '/'), rooted));
    if rooted then ['/'] + body else if body == "" then "." else body
  }

  function Wanted(m: Manifest): string { m.name + ".yaml" }

  function ManifestPath(m: Manifest, o: Options): string { Clean(o.Config() + ['/'] + Wanted(m)) }

  // ----- the printer -----

  /** The words of the command line the unit starts. */
  function ExecWords(m: Manifest, o: Options): seq<string> {
    [o.Bin(), SERVE, MANIFEST_FLAG, ManifestPath(m, o)] + CacheWords(o) + SpeculatorWords(o)
  }

  function CacheWords(o: Options): seq<string> { if o.cacheRoot != "" then [CACHE_ROOT_FLAG, o.cacheRoot] else [] }

  function SpeculatorWords(o: Options): seq<string> {
    if o.speculator != "" then [SPECULATOR_FLAG, o.speculator] else []
  }

  function Spaced(words: seq<string>): string {
    if words == [] then "" else if |words| == 1 then words[0] else words[0] + [' '] + Spaced(words[1..])
  }

  const DESCRIPTION := "Description=fornax "

  function Description(m: Manifest): string {
    DESCRIPTION + m.name + " (" + m.runtime + " on " + Itoa(m.gpu.count) + "x" + m.gpu.gpuType + ")"
  }

  /** What is printed between the description and the command line. */
  function Preamble(o: Options): seq<string> {
    ["After=network-online.target", "Wants=network-online.target", "", "[Service]", "Type=simple"]
    + if o.user != "" then ["User=" + o.user] else []
  }

  const GENERATED := "# Generated by `fornax install` from models/"
  const DO_NOT_EDIT := ".yaml — do not edit."
  const UNIT_SECTION := "[Unit]"
  const REGENERATE := "# Regenerate after changing "
  const THE_MANIFEST := "the manifest; specs/020."

  function Header(m: Manifest): seq<string> {
    [GENERATED + m.name + DO_NOT_EDIT, REGENERATE + THE_MANIFEST, UNIT_SECTION]
  }

  const TRAILER: seq<string> := ["Restart=on-failure", "RestartSec=10", "TimeoutStartSec=30min", "KillSignal=SIGTERM",
                                 "TimeoutStopSec=2min", "", "[Install]", "WantedBy=multi-user.target"]

  /** Every line ends in a newline. */
  function Lines(lines: seq<string>): string {
    if lines == [] then "" else lines[0] + ['\n'] + Lines(lines[1..])
  }

  function UnitText(m: Manifest, o: Options): string {
    Lines(Header(m) + [Description(m)] + Preamble(o) + [EXEC_START + Spaced(ExecWords(m, o))] + TRAILER)
  }

  // ----- the reader -----

  datatype UnitError = NoExecStart | EmptyExecStart | WrongBinary | NoServe | NoManifest | WrongManifest

  /** strings.Fields. */
  function Fields(s: string): seq<string>
    decreases |s|
  {
    if s == "" then []
    else if IsSpace(s[0]) then Fields(s[1..])
    else
      var n := WordEnd(s);
      [s[..n]] + Fields(s[n..])
  }

  /** The length of the word at the front of s. */
  function WordEnd(s: string): (n: nat)
    requires s != "" && !IsSpace(s[0])
    ensures 0 < n <= |s| && SpaceFree(s[..n]) && (n < |s| ==> IsSpace(s[n]))
  {
    if |s| == 1 || IsSpace(s[1]) then 1
    else
      var rest := WordEnd(s[1..]);
      assert s[..1 + rest] == [s[0]] + s[1..][..rest];
      1 + rest
  }

  function ExecOf(line: string): Option<string> {
    var t := TrimSpace(line);
    if HasPrefix(t, EXEC_START) then Some(t[|EXEC_START|..]) else None
  }

  /** The command line of the first ExecStart= line. */
  function FirstExec(lines: seq<string>): Option<string> {
    if lines == [] then None
    else if ExecOf(lines[0]).Some? then ExecOf(lines[0])
    else FirstExec(lines[1..])
  }

  /** The last --manifest, in either spelling. */
  function ManifestWord(words: seq<string>): Option<string> {
    if words == [] then None
    else
      var later := ManifestWord(words[1..]);
      if later.Some? then later
      else if HasPrefix(words[0], MANIFEST_EQ) then Some(words[0][|MANIFEST_EQ|..])
      else if words[0] == MANIFEST_FLAG && |words| > 1 then Some(words[1])
      else None
  }

  /** The command line starts this model, with this binary. */
  predicate Starts(m: Manifest, exec: string) {
    var words := Fields(exec);
    && words != [] && PathBase(words[0]) == BINARY && SERVE in words[1..]
    && var got := ManifestWord(words);
       got.Some? && got.value != "" && PathBase(got.value) == Wanted(m)
  }

  method FindExec(data: string) returns (exec: string)
    ensures exec == if FirstExec(Split(data, '\n')).Some? then FirstExec(Split(data, '\n')).value else ""
  {
    exec := "";
    var lines := Split(data, '\n');
    for i := 0 to |lines|
      invariant FirstExec(lines) == FirstExec(lines[i..])
    {
      assert lines[i..][1..] == lines[i + 1..];
      var rest := ExecOf(lines[i]);
      if rest.Some? {
        return rest.value;
      }
    }
  }

  method FindManifest(words: seq<string>) returns (got: string)
    ensures got == if ManifestWord(words).Some? then ManifestWord(words).value else ""
  {
    got := "";
    ghost var found := false;
    for i := 0 to |words|
      invariant !found ==> got == ""
      invariant ManifestWord(words) ==
                var later := ManifestWord(words[i..]);
                if later.Some? then later else if found then Some(got) else None
    {
      assert words[i..][1..] == words[i + 1..];
      if words[i] == MANIFEST_FLAG && i + 1 < |words| {
        got, found := words[i + 1], true;
      }
      if HasPrefix(words[i], MANIFEST_EQ) {
        got, found := words[i][|MANIFEST_EQ|..], true;
      }
    }
  }

  method ValidateUnit(m: Manifest, data: string) returns (r: Result<(), UnitError>)
    ensures r.Ok? <==> var exec := FirstExec(Split(data, '\n')); exec.Some? && Starts(m, exec.value)
    ensures r == Err(NoExecStart) <==> var exec := FirstExec(Split(data, '\n')); exec.None? || exec.value == ""
  {
    var exec := FindExec(data);
    if exec == "" {
      return Err(NoExecStart);
    }
    var words := Fields(exec);
    if |words| == 0 {
      return Err(EmptyExecStart);
    }
    if PathBase(words[0]) != BINARY {
      return Err(WrongBinary);
    }
    if SERVE !in words[1..] {
      return Err(NoServe);
    }
    var got := FindManifest(words);
    if got == "" {
      return Err(NoManifest);
    }
    if PathBase(got) != Wanted(m) {
      return Err(WrongManifest);
    }
    r := Ok(());
  }

  // ----- reading lines -----

  lemma {:induction false} FirstExecConcat(a: seq<string>, b: seq<string>)
    ensures FirstExec(a + b) == if FirstExec(a).Some? then FirstExec(a) else FirstExec(b)
  {
    if a == [] {
      assert a + b == b;
    } else {
      assert (a + b)[1..] == a[1..] + b;
      FirstExecConcat(a[1..], b);
    }
  }

  /** What the reader finds in the printed line, which may itself contain newlines. */
  function ExecIn(line: string): Option<string> { FirstExec(Split(line, '\n')) }

  function FirstExecIn(lines: seq<string>): Option<string> {
    if lines == [] then None
    else if ExecIn(lines[0]).Some? then ExecIn(lines[0])
    else FirstExecIn(lines[1..])
  }

  lemma {:induction false} LinesAreRead(lines: seq<string>)
    ensures FirstExec(Split(Lines(lines), '\n')) == FirstExecIn(lines)
  {
    if lines == [] {
      assert Split("", '\n') == [""];
      assert FirstExec([""]) == FirstExec([""][1..]);
    } else {
      SplitConcat(lines[0], '\n', Lines(lines[1..]));
      FirstExecConcat(Split(lines[0], '\n'), Split(Lines(lines[1..]), '\n'));
      LinesAreRead(lines[1..]);
    }
  }

  lemma {:induction false} FirstExecInConcat(a: seq<string>, b: seq<string>)
    ensures FirstExecIn(a + b) == if FirstExecIn(a).Some? then FirstExecIn(a) else FirstExecIn(b)
  {
    if a == [] {
      assert a + b == b;
    } else {
      assert (a + b)[1..] == a[1..] + b;
      FirstExecInConcat(a[1..], b);
    }
  }

  lemma {:induction false} TrimKeepsFirst(s: string)
    requires s != "" && !IsSpace(s[0])
    ensures TrimSpace(s) != "" && TrimSpace(s)[0] == s[0]
  {
    if IsSpace(s[|s| - 1]) {
      TrimKeepsFirst(s[..|s| - 1]);
    }
  }

  lemma OneLine(line: string)
    requires '\n' !in line
    ensures Split(line, '\n') == [line] && ExecIn(line) == ExecOf(line)
  {
    CutParts(line, '\n');
    FirstExecOne(line);
  }

  lemma FirstExecOne(line: string)
    ensures FirstExec([line]) == ExecOf(line)
  {
    assert [line][1..] == [];
  }

  /** The lines printed before the command line are not taken for it. */
  lemma PlainLine(line: string)
    requires '\n' !in line && (line == "" || (!IsSpace(line[0]) && line[0] != 'E'))
    ensures ExecIn(line) == None
  {
    OneLine(line);
    assert EXEC_START[0] == 'E';
    if line != "" {
      TrimKeepsFirst(line);
    }
  }

  lemma ExecLine(exec: string)
    requires '\n' !in exec && exec != "" && !IsSpace(exec[|exec| - 1])
    ensures ExecIn(EXEC_START + exec) == Some(exec)
  {
    var line := EXEC_START + exec;
    OneLine(line);
    assert line[0] == 'E';
    assert TrimSpace(line) == line;
    assert line[|EXEC_START|..] == exec;
  }

  // ----- reading words -----

  predicate Word(s: string) { s != "" && SpaceFree(s) }

  lemma {:induction false} WordEndAt(word: string, rest: string)
    requires Word(word) && (rest == "" || IsSpace(rest[0]))
    ensures WordEnd(word + rest) == |word|
  {
    var s := word + rest;
    assert s[0] == word[0] && word[0] in word;
    if |word| > 1 {
      assert s[1] == word[1] && word[1] in word;
      assert s[1..] == word[1..] + rest;
      WordEndAt(word[1..], rest);
    } else if |s| > 1 {
      assert s[1] == rest[0];
    }
  }

  lemma FieldsCons(word: string, rest: string)
    requires Word(word) && (rest == "" || IsSpace(rest[0]))
    ensures Fields(word + rest) == [word] + Fields(rest)
  {
    var s := word + rest;
    WordEndAt(word, rest);
    assert s[0] == word[0] && word[0] in word;
    assert s[..|word|] == word && s[|word|..] == rest;
  }

  lemma {:induction false} WordsAreRead(words: seq<string>)
    requires forall w | w in words :: Word(w)
    ensures Fields(Spaced(words)) == words
  {
    if words == [] {
    } else if |words| == 1 {
      FieldsCons(words[0], "");
      assert words[0] + "" == words[0];
    } else {
      var rest := [' '] + Spaced(words[1..]);
      assert Spaced(words) == words[0] + rest;
      FieldsCons(words[0], rest);
      assert rest[1..] == Spaced(words[1..]);
      WordsAreRead(words[1..]);
    }
  }

  lemma {:induction false} SpacedEnds(words: seq<string>)
    requires words != [] && forall w | w in words :: Word(w)
    ensures Spaced(words) != "" && !IsSpace(Spaced(words)[|Spaced(words)| - 1])
    ensures '\n' !in Spaced(words)
  {
    assert IsSpace('\n') && words[0] in words;
    if |words| == 1 {
      var w := words[0];
      assert w[|w| - 1] in w;
    } else {
      SpacedEnds(words[1..]);
    }
  }

  // ----- the manifest path -----

  lemma ComponentsSnoc(parts: seq<string>, p: string, rooted: bool)
    requires p != "" && p != "." && p != ".."
    ensures Components(parts + [p], rooted) == Components(parts, rooted) + [p]
  {
    assert (parts + [p])[..|parts|] == parts;
  }

  lemma Regrouped(a: string, b: string, c: string)
    ensures a + ['/'] + (b + ['/'] + c) == a + ['/'] + b + ['/'] + c
    ensures ['/'] + (b + ['/'] + c) == ['/'] + b + ['/'] + c
  {
  }

  lemma {:induction false} SlashedSnoc(parts: seq<string>, p: string)
    ensures Slashed(parts + [p]) == if parts == [] then p else Slashed(parts) + ['/'] + p
  {
    if |parts| > 1 {
      assert (parts + [p])[0] == parts[0] && (parts + [p])[1..] == parts[1..] + [p];
      SlashedSnoc(parts[1..], p);
      Regrouped(parts[0], Slashed(parts[1..]), p);
    } else if |parts| == 1 {
      assert (parts + [p])[1..] == [p];
    }
  }

  lemma JoinedComponents(dir: string, name: string, rooted: bool)
    requires '/' !in name && name != "" && name != "." && name != ".."
    ensures Components(Split(dir + ['/'] + name, '/'), rooted) == Components(Split(dir, '/'), rooted) + [name]
  {
    SplitConcat(dir, '/', name);
    CutParts(name, '/');
    assert Split(name, '/') == [name];
    ComponentsSnoc(Split(dir, '/'), name, rooted);
  }

  lemma SlashedParent(above: seq<string>, name: string) returns (parent: string)
    requires name != ""
    ensures Slashed(above + [name]) != ""
    ensures Slashed(above + [name]) == name || Slashed(above + [name]) == parent + ['/'] + name
  {
    SlashedSnoc(above, name);
    parent := Slashed(above);
  }

  lemma RootedParent(above: seq<string>, name: string) returns (parent: string)
    requires name != ""
    ensures ['/'] + Slashed(above + [name]) == parent + ['/'] + name
  {
    SlashedSnoc(above, name);
    parent := if above == [] then "" else ['/'] + Slashed(above);
    Regrouped("", Slashed(above), name);
  }

  /** A file name joined to a directory stays the last component of the cleaned path. */
  lemma CleanKeepsName(dir: string, name: string) returns (parent: string)
    requires dir != "" && '/' !in name && name != "" && name != "." && name != ".."
    ensures Clean(dir + ['/'] + name) == name || Clean(dir + ['/'] + name) == parent + ['/'] + name
  {
    var rooted := (dir + ['/'] + name)[0] == '/';
    var above := Components(Split(dir, '/'), rooted);
    JoinedComponents(dir, name, rooted);
    if rooted {
      parent := RootedParent(above, name);
    } else {
      parent := SlashedParent(above, name);
    }
  }

  lemma {:induction false} SplitSpaceFree(s: string, c: char)
    requires SpaceFree(s)
    ensures forall p | p in Split(s, c) :: SpaceFree(p)
  {
    CutParts(s, c);
    var cut := Cut(s, c);
    assert forall x | x in cut.before :: x in s;
    if cut.found {
      assert forall x | x in cut.after :: x in s;
      SplitSpaceFree(cut.after, c);
    }
  }

  lemma {:induction false} CleanedSpaceFree(parts: seq<string>, rooted: bool)
    requires forall p | p in parts :: SpaceFree(p)
    ensures forall p | p in Components(parts, rooted) :: SpaceFree(p)
  {
    if parts != [] {
      var n := |parts| - 1;
      CleanedSpaceFree(parts[..n], rooted);
      var out := Components(parts[..n], rooted);
      assert forall p | p in out[..|out|] :: p in out;
      assert parts[n] in parts;
    }
  }

  lemma {:induction false} SlashedSpaceFree(parts: seq<string>)
    requires forall p | p in parts :: SpaceFree(p)
    ensures SpaceFree(Slashed(parts))
  {
    if parts != [] {
      SlashedSpaceFree(parts[1..]);
      assert parts[0] in parts;
    }
  }

  lemma CleanSpaceFree(path: string)
    requires path != "" && SpaceFree(path)
    ensures SpaceFree(Clean(path))
  {
    SplitSpaceFree(path, '/');
    CleanedSpaceFree(Split(path, '/'), path[0] == '/');
    SlashedSpaceFree(Components(Split(path, '/'), path[0] == '/'));
  }

  lemma WantedIsAName(m: Manifest)
    requires NameOk(m.name)
    ensures var w := Wanted(m);
            && '/' !in w && SpaceFree(w) && |w| > 5 && w[|w| - 1] == 'l' && (Lower(w[0]) || Digit(w[0]))
  {
    var w := Wanted(m);
    forall c | c in w ensures c != '/' && !IsSpace(c) {
      if c in m.name {
        assert NameChar(c);
      } else {
        assert c in ".yaml";
      }
    }
  }

  /** The printed path is one word that ends in the manifest's name, also behind `--manifest=`. */
  lemma ManifestPathReads(m: Manifest, o: Options)
    requires NameOk(m.name) && SpaceFree(o.Config())
    ensures var path := ManifestPath(m, o);
            && Word(path) && path != MANIFEST_FLAG && PathBase(path) == Wanted(m)
            && (HasPrefix(path, MANIFEST_EQ) ==>
                  path[|MANIFEST_EQ|..] != "" && PathBase(path[|MANIFEST_EQ|..]) == Wanted(m))
  {
    var path, w := ManifestPath(m, o), Wanted(m);
    WantedIsAName(m);
    assert |o.Config()| > 0;
    CleanSpaceFree(o.Config() + ['/'] + w);
    var parent := CleanKeepsName(o.Config(), w);
    BaseIsName(parent, w);
    assert path[|path| - 1] == 'l' && MANIFEST_FLAG[|MANIFEST_FLAG| - 1] == 't';
    if HasPrefix(path, MANIFEST_EQ) {
      PathBehindFlag(path, parent, w);
    }
  }

  lemma PathBehindFlag(path: string, parent: string, w: string)
    requires '/' !in w && w != "" && (Lower(w[0]) || Digit(w[0]))
    requires path == w || path == parent + ['/'] + w
    requires HasPrefix(path, MANIFEST_EQ)
    ensures path[|MANIFEST_EQ|..] != "" && PathBase(path[|MANIFEST_EQ|..]) == w
  {
    assert path[0] == MANIFEST_EQ[0] == '-';
    var n := |MANIFEST_EQ|;
    assert path[|parent|] == '/' && '/' !in MANIFEST_EQ;
    assert |parent| >= n;
    assert path[n..] == parent[n..] + ['/'] + w;
    BaseIsName(parent[n..], w);
  }

  // ----- the printed unit is accepted -----

  /** What systemd can take as one command line: no option contains whitespace. */
  predicate Spaceless(o: Options) {
    && SpaceFree(o.Bin()) && SpaceFree(o.Config()) && SpaceFree(o.user)
    && SpaceFree(o.cacheRoot) && SpaceFree(o.speculator)
  }

  /** An option value the reader mistakes for a --manifest that names another file. */
  predicate SpellsAnotherManifest(m: Manifest, o: Options) {
    if HasPrefix(o.speculator, MANIFEST_EQ) then PathBase(o.speculator[|MANIFEST_EQ|..]) != Wanted(m)
    else if HasPrefix(o.cacheRoot, MANIFEST_EQ) then PathBase(o.cacheRoot[|MANIFEST_EQ|..]) != Wanted(m)
    else o.cacheRoot == MANIFEST_FLAG && o.speculator != ""
  }

  lemma {:induction false} ManifestWordConcat(a: seq<string>, b: seq<string>)
    requires ManifestWord(b).Some? || b == []
    ensures ManifestWord(a + b) == if b == [] then ManifestWord(a) else ManifestWord(b)
  {
    if b == [] {
      assert a + b == a;
    } else if a == [] {
      assert a + b == b;
    } else {
      assert (a + b)[1..] == a[1..] + b;
      ManifestWordConcat(a[1..], b);
    }
  }

  lemma TwoWords(flag: string, value: string, rest: seq<string>)
    requires !HasPrefix(flag, MANIFEST_EQ) && ManifestWord(rest).None?
    ensures ManifestWord([flag, value] + rest) ==
            if HasPrefix(value, MANIFEST_EQ) then Some(value[|MANIFEST_EQ|..])
            else if value == MANIFEST_FLAG && rest != [] then Some(rest[0])
            else if flag == MANIFEST_FLAG then Some(value)
            else None
  {
    var words := [flag, value] + rest;
    assert words[1..] == [value] + rest && words[1..][1..] == rest;
  }

  lemma FlagsAreNoManifest()
    ensures forall f | f in {CACHE_ROOT_FLAG, SPECULATOR_FLAG} :: f != MANIFEST_FLAG && !HasPrefix(f, MANIFEST_EQ)
    ensures !HasPrefix(MANIFEST_FLAG, MANIFEST_EQ)
  {
    assert CACHE_ROOT_FLAG[2] == 'c' && SPECULATOR_FLAG[2] == 's' && MANIFEST_FLAG[2] == 'm' && MANIFEST_EQ[2] == 'm';
    assert |MANIFEST_FLAG| < |MANIFEST_EQ|;
  }

  lemma SpeculatorReads(o: Options)
    ensures ManifestWord(SpeculatorWords(o)) ==
            if HasPrefix(o.speculator, MANIFEST_EQ) then Some(o.speculator[|MANIFEST_EQ|..]) else None
  {
    FlagsAreNoManifest();
    if o.speculator != "" {
      TwoWords(SPECULATOR_FLAG, o.speculator, []);
      assert [SPECULATOR_FLAG, o.speculator] + [] == SpeculatorWords(o);
    }
  }

  /** What the options after the manifest path can do to the reader. */
  lemma OptionsRead(o: Options)
    ensures ManifestWord(CacheWords(o) + SpeculatorWords(o)) ==
            if HasPrefix(o.speculator, MANIFEST_EQ) then Some(o.speculator[|MANIFEST_EQ|..])
            else if HasPrefix(o.cacheRoot, MANIFEST_EQ) then Some(o.cacheRoot[|MANIFEST_EQ|..])
            else if o.cacheRoot == MANIFEST_FLAG && o.speculator != "" then Some(SPECULATOR_FLAG)
            else None
  {
    SpeculatorReads(o);
    FlagsAreNoManifest();
    if HasPrefix(o.speculator, MANIFEST_EQ) {
      ManifestWordConcat(CacheWords(o), SpeculatorWords(o));
    } else if o.cacheRoot != "" {
      TwoWords(CACHE_ROOT_FLAG, o.cacheRoot, SpeculatorWords(o));
    } else {
      assert CacheWords(o) + SpeculatorWords(o) == SpeculatorWords(o);
    }
  }

  lemma ManifestNamed(path: string, rest: seq<string>)
    requires path != MANIFEST_FLAG
    ensures ManifestWord([MANIFEST_FLAG, path] + rest) ==
            if ManifestWord(rest).Some? then ManifestWord(rest)
            else if HasPrefix(path, MANIFEST_EQ) then Some(path[|MANIFEST_EQ|..])
            else Some(path)
  {
    FlagsAreNoManifest();
    if ManifestWord(rest).Some? {
      ManifestWordConcat([MANIFEST_FLAG, path], rest);
    } else {
      TwoWords(MANIFEST_FLAG, path, rest);
    }
  }

  /** What precedes the flag on the command line does not matter. */
  lemma WordsBefore(m: Manifest, o: Options)
    requires ManifestPath(m, o) != MANIFEST_FLAG
    ensures ManifestWord(ExecWords(m, o)) ==
            ManifestWord([MANIFEST_FLAG, ManifestPath(m, o)] + (CacheWords(o) + SpeculatorWords(o)))
  {
    var named := [MANIFEST_FLAG, ManifestPath(m, o)] + (CacheWords(o) + SpeculatorWords(o));
    assert ExecWords(m, o) == [o.Bin(), SERVE] + named;
    ManifestNamed(ManifestPath(m, o), CacheWords(o) + SpeculatorWords(o));
    ManifestWordConcat([o.Bin(), SERVE], named);
  }

  /** The last --manifest on the printed command line. */
  lemma ExecManifest(m: Manifest, o: Options)
    requires NameOk(m.name) && SpaceFree(o.Config())
    ensures var got := ManifestWord(ExecWords(m, o));
            got.Some? && ((got.value != "" && PathBase(got.value) == Wanted(m)) <==> !SpellsAnotherManifest(m, o))
  {
    ManifestPathReads(m, o);
    WordsBefore(m, o);
    ManifestNamed(ManifestPath(m, o), CacheWords(o) + SpeculatorWords(o));
    OptionsRead(o);
    OtherNames(m);
  }

  /** Neither nothing nor a flag is the name of a manifest. */
  lemma OtherNames(m: Manifest)
    requires NameOk(m.name)
    ensures PathBase("") != Wanted(m) && PathBase(SPECULATOR_FLAG) != Wanted(m)
  {
    WantedIsAName(m);
    BaseIsName("", SPECULATOR_FLAG);
    assert SPECULATOR_FLAG[0] == '-';
  }

  lemma ExecWordsAreWords(m: Manifest, o: Options)
    requires NameOk(m.name) && Spaceless(o)
    ensures forall w | w in ExecWords(m, o) :: Word(w)
  {
    ManifestPathReads(m, o);
    assert o.Bin() != "";
    FlagsAreWords();
    forall w | w in ExecWords(m, o) ensures Word(w) {
      assert w in [o.Bin(), SERVE, MANIFEST_FLAG, ManifestPath(m, o)] || w in CacheWords(o) || w in SpeculatorWords(o);
    }
  }

  lemma FlagsAreWords()
    ensures Word(SERVE) && Word(MANIFEST_FLAG) && Word(CACHE_ROOT_FLAG) && Word(SPECULATOR_FLAG)
  {
  }

  /** The command line of the unit, read back. */
  lemma ExecStarts(m: Manifest, o: Options)
    requires NameOk(m.name) && Spaceless(o)
    ensures Starts(m, Spaced(ExecWords(m, o))) <==> PathBase(o.Bin()) == BINARY && !SpellsAnotherManifest(m, o)
  {
    ExecWordsAreWords(m, o);
    WordsAreRead(ExecWords(m, o));
    ExecManifest(m, o);
    assert ExecWords(m, o)[1..][0] == SERVE;
  }

  // ----- the lines before it -----

  lemma NameOneLine(m: Manifest)
    requires NameOk(m.name)
    ensures '\n' !in m.name
  {
    assert !NameChar('\n');
  }

  lemma HeaderIsPlain(m: Manifest)
    requires NameOk(m.name)
    ensures FirstExecIn(Header(m)) == None
  {
    GeneratedIsPlain(m);
    RegenerateIsPlain();
    UnitSectionIsPlain();
    ThreePlain(GENERATED + m.name + DO_NOT_EDIT, REGENERATE + THE_MANIFEST, UNIT_SECTION);
  }

  lemma ThreePlain(a: string, b: string, c: string)
    requires ExecIn(a) == None && ExecIn(b) == None && ExecIn(c) == None
    ensures FirstExecIn([a, b, c]) == None
  {
    NoneIsExec([a, b, c]);
  }

  lemma UnitSectionIsPlain()
    ensures ExecIn(UNIT_SECTION) == None
  {
    assert UNIT_SECTION[0] == '[';
    PlainLine(UNIT_SECTION);
  }

  lemma {:induction false} NoneIsExec(lines: seq<string>)
    requires forall i | 0 <= i < |lines| :: ExecIn(lines[i]) == None
    ensures FirstExecIn(lines) == None
  {
    if lines != [] {
      NoneIsExec(lines[1..]);
    }
  }

  lemma GeneratedIsPlain(m: Manifest)
    requires NameOk(m.name)
    ensures ExecIn(GENERATED + m.name + DO_NOT_EDIT) == None
  {
    NameOneLine(m);
    assert '\n' !in GENERATED;
    assert '\n' !in DO_NOT_EDIT;
    var line := GENERATED + m.name + DO_NOT_EDIT;
    assert line[0] == GENERATED[0] == '#';
    PlainLine(line);
  }

  lemma RegenerateIsPlain()
    ensures ExecIn(REGENERATE + THE_MANIFEST) == None
  {
    assert '\n' !in REGENERATE;
    assert '\n' !in THE_MANIFEST;
    var line := REGENERATE + THE_MANIFEST;
    assert line[0] == REGENERATE[0] == '#';
    PlainLine(line);
  }

  lemma PreambleIsPlain(o: Options)
    requires SpaceFree(o.user)
    ensures FirstExecIn(Preamble(o)) == None
  {
    assert IsSpace('\n') && '\n' !in "User=" + o.user;
    forall i | 0 <= i < |Preamble(o)| ensures ExecIn(Preamble(o)[i]) == None {
      PlainLine(Preamble(o)[i]);
    }
    NoneIsExec(Preamble(o));
  }

  /** A command line smuggled in by the one free-text field the unit prints. */
  function Injected(m: Manifest): Option<string> { ExecIn(Description(m)) }

  lemma {:induction false} FirstExecInOne(line: string)
    ensures FirstExecIn([line]) == ExecIn(line)
  {
    assert [line][1..] == [];
  }

  lemma BeforeTheCommand(m: Manifest, o: Options)
    requires NameOk(m.name) && Spaceless(o)
    ensures FirstExecIn(Header(m) + [Description(m)] + Preamble(o)) == Injected(m)
  {
    HeaderIsPlain(m);
    PreambleIsPlain(o);
    FirstExecInConcat(Header(m), [Description(m)]);
    FirstExecInConcat(Header(m) + [Description(m)], Preamble(o));
    FirstExecInOne(Description(m));
  }

  lemma PrintedCommand(m: Manifest, o: Options)
    requires NameOk(m.name) && Spaceless(o)
    ensures FirstExecIn([EXEC_START + Spaced(ExecWords(m, o))]) == Some(Spaced(ExecWords(m, o)))
  {
    ExecWordsAreWords(m, o);
    SpacedEnds(ExecWords(m, o));
    ExecLine(Spaced(ExecWords(m, o)));
    FirstExecInOne(EXEC_START + Spaced(ExecWords(m, o)));
  }

  lemma UnitExec(m: Manifest, o: Options)
    requires NameOk(m.name) && Spaceless(o)
    ensures FirstExec(Split(UnitText(m, o), '\n')) ==
            if Injected(m).Some? then Injected(m) else Some(Spaced(ExecWords(m, o)))
  {
    var before := Header(m) + [Description(m)] + Preamble(o);
    var exec := [EXEC_START + Spaced(ExecWords(m, o))];
    LinesAreRead(before + exec + TRAILER);
    BeforeTheCommand(m, o);
    PrintedCommand(m, o);
    FirstExecInConcat(before, exec);
    FirstExecInConcat(before + exec, TRAILER);
  }

  /** The lines of the GPU type from the second on, as they end up in the unit. */
  function LaterLines(gpuType: string): seq<string> { Split(gpuType + ")", '\n')[1..] }

  lemma SplitAfter(a: string, s: string, c: char)
    requires c !in a
    ensures Split(a + s, c) == [a + Split(s, c)[0]] + Split(s, c)[1..]
    ensures c !in Split(s, c)[0]
  {
    var cut := Cut(s, c);
    CutParts(s, c);
    if cut.found {
      assert a + s == (a + cut.before) + [c] + cut.after;
      CutAt(a + cut.before, c, cut.after);
    } else {
      CutParts(a + s, c);
    }
  }

  /** What is injected is the first command line among the later lines of the GPU type. */
  lemma InjectedByTheType(m: Manifest)
    requires NameOk(m.name) && EngineOk(m)
    ensures Injected(m) == FirstExec(LaterLines(m.gpu.gpuType))
  {
    var intro, typed := m.(gpu := m.gpu.(gpuType := "")), m.gpu.gpuType + ")";
    DescriptionOneLine(intro);
    var before := Description(intro)[..|Description(intro)| - 1];
    assert Description(intro) == before + ")";
    TypeIsLast(m, before);
    SplitAfter(before, typed, '\n');
    var first := before + Split(typed, '\n')[0];
    NotEmptied(m, before);
    PlainLine(first);
    OneLine(first);
    FirstExecOne(first);
    FirstExecConcat([first], LaterLines(m.gpu.gpuType));
  }

  lemma NotEmptied(m: Manifest, before: string)
    requires before + ")" == Description(m.(gpu := m.gpu.(gpuType := "")))
    ensures before != "" && before[0] == 'D'
  {
    assert DESCRIPTION[0] == 'D' && |DESCRIPTION| == 19;
    var whole := before + ")";
    assert whole[0] == DESCRIPTION[0] && |whole| >= 19;
  }

  lemma TypeIsLast(m: Manifest, before: string)
    requires before + ")" == Description(m.(gpu := m.gpu.(gpuType := "")))
    ensures Description(m) == before + (m.gpu.gpuType + ")")
  {
    var stem := DESCRIPTION + m.name + " (" + m.runtime + " on " + Itoa(m.gpu.count) + "x";
    assert Description(m.(gpu := m.gpu.(gpuType := ""))) == stem + "" + ")" == stem + ")";
    assert (before + ")")[..|before|] == before && (stem + ")")[..|stem|] == stem;
    assert before == stem;
    assert Description(m) == stem + m.gpu.gpuType + ")";
  }

  lemma {:induction false} FirstExecNoneExactly(lines: seq<string>)
    ensures FirstExec(lines) == None <==> forall i | 0 <= i < |lines| :: ExecOf(lines[i]) == None
  {
    if lines != [] {
      FirstExecNoneExactly(lines[1..]);
      assert forall i | 1 <= i < |lines| :: lines[i] == lines[1..][i - 1];
    }
  }

  /** Some later line of the GPU type reads `ExecStart=`, give or take blanks before it. */
  predicate Smuggles(gpuType: string) {
    exists i | 0 <= i < |LaterLines(gpuType)| :: ExecOf(LaterLines(gpuType)[i]).Some?
  }

  /**
   * Exactly when the check accepts the unit install prints, for whitespace-free options. Unless a later
   * line of gpu.type is an ExecStart= line, it does when the binary is called fornax and no option spells
   * another manifest; otherwise the first such line is the command that is judged.
   */
  lemma PrintedUnitIsAccepted(m: Manifest, o: Options, parse: string -> Option<Float>)
    requires Valid(m, parse) && Spaceless(o)
    ensures var exec := FirstExec(Split(UnitText(m, o), '\n'));
            && exec.Some?
            && (!Smuggles(m.gpu.gpuType) ==>
                  && exec.value == Spaced(ExecWords(m, o))
                  && (Starts(m, exec.value) <==> PathBase(o.Bin()) == BINARY && !SpellsAnotherManifest(m, o)))
            && (Smuggles(m.gpu.gpuType) ==> exec == FirstExec(LaterLines(m.gpu.gpuType)))
  {
    UnitExec(m, o);
    ExecStarts(m, o);
    InjectedByTheType(m);
    FirstExecNoneExactly(LaterLines(m.gpu.gpuType));
  }

  /** A GPU type on one line injects nothing. */
  lemma OneLineTypeInjectsNothing(m: Manifest)
    requires '\n' !in m.gpu.gpuType
    ensures !Smuggles(m.gpu.gpuType)
  {
    CutParts(m.gpu.gpuType + ")", '\n');
  }

  lemma DescriptionOneLine(m: Manifest)
    requires NameOk(m.name) && EngineOk(m) && '\n' !in m.gpu.gpuType
    ensures '\n' !in Description(m) && |Description(m)| > 0 && Description(m)[0] == 'D'
  {
    NameOneLine(m);
    RuntimeOneLine(m);
    CountOneLine(m.gpu.count);
    var intro := DESCRIPTION + m.name + " (" + m.runtime;
    assert '\n' !in intro by {
      assert '\n' !in DESCRIPTION && '\n' !in " (";
    }
    var shape := " on " + Itoa(m.gpu.count) + "x" + m.gpu.gpuType + ")";
    assert '\n' !in shape;
    assert Description(m) == intro + shape;
    assert Description(m)[0] == DESCRIPTION[0];
  }

  lemma RuntimeOneLine(m: Manifest)
    requires EngineOk(m)
    ensures '\n' !in m.runtime
  {
  }

  lemma CountOneLine(n: int)
    ensures '\n' !in Itoa(n)
  {
  }

  /** A valid bare-metal manifest whose GPU type carries a second line. */
  function TwoLineType(): Manifest {
    GB10Manifest("").(deploy := BARE_METAL, gpu := GPU("a" + ['\n'] + EXEC_START + "b", 1, 1))
  }

  lemma TwoLineTypeIsValid(parse: string -> Option<Float>)
    ensures Valid(TwoLineType(), parse)
  {
    GB10HeaderOk("", map[], "");
    GB10Args("");
    var m := TwoLineType();
    assert |m.gpu.gpuType| != |GB10|;
  }

  lemma TwoLineTypeInjects()
    ensures Injected(TwoLineType()) == Some("b)")
  {
    var m := TwoLineType();
    var plain := m.(gpu := GPU("a", 1, 1));
    var first := DESCRIPTION + m.name + " (" + m.runtime + " on " + Itoa(1) + "x" + "a";
    assert Description(m) == first + ['\n'] + (EXEC_START + "b)");
    DescriptionOneLine(plain);
    assert Description(plain) == first + ")";
    assert first[0] == Description(plain)[0];
    PlainLine(first);
    ExecLine("b)");
    SplitConcat(first, '\n', EXEC_START + "b)");
    FirstExecConcat(Split(first, '\n'), Split(EXEC_START + "b)", '\n'));
  }

  /** The condition is not idle: this valid manifest's own unit is refused, whatever the options. */
  lemma InjectedCommandIsRefused(o: Options, parse: string -> Option<Float>)
    requires Spaceless(o)
    ensures var m := TwoLineType();
            var exec := FirstExec(Split(UnitText(m, o), '\n'));
            Valid(m, parse) && m.DeployMode() == BARE_METAL && exec == Some("b)") && !Starts(m, exec.value)
  {
    var m := TwoLineType();
    TwoLineTypeIsValid(parse);
    TwoLineTypeInjects();
    UnitExec(m, o);
    NotOurCommand(m);
  }

  lemma NotOurCommand(m: Manifest)
    ensures !Starts(m, "b)")
  {
    FieldsCons("b)", "");
    assert "b)" + "" == "b)";
    BaseIsName("", "b)");
    assert |BINARY| == 6;
  }

  // ----- reading more than was printed -----

  /** A command line may be indented and trailed by blanks. */
  lemma IndentedExecIsRead(before: string, exec: string, after: string)
    requires Blank(before) && Blank(after) && exec != "" && !IsSpace(exec[|exec| - 1])
    ensures ExecOf(before + (EXEC_START + exec) + after) == Some(exec)
  {
    var line := EXEC_START + exec;
    assert line[0] == 'E' && line[|line| - 1] == exec[|exec| - 1];
    TrimStrips(before, line, after);
    assert line[|EXEC_START|..] == exec;
  }

  /** Any run of blanks separates two words, and blanks at either end do not count. */
  lemma {:induction false} BlanksDoNotCount(blank: string, s: string)
    requires Blank(blank)
    ensures Fields(blank + s) == Fields(s)
  {
    if blank == "" {
      assert blank + s == s;
    } else {
      assert blank[0] in blank && (blank + s)[0] == blank[0];
      assert (blank + s)[1..] == blank[1..] + s;
      BlanksDoNotCount(blank[1..], s);
    }
  }

  lemma WordBeforeBlank(word: string, blank: string, s: string)
    requires Word(word) && blank != "" && Blank(blank)
    ensures Fields(word + (blank + s)) == [word] + Fields(s)
  {
    assert blank[0] in blank && (blank + s)[0] == blank[0];
    FieldsCons(word, blank + s);
    BlanksDoNotCount(blank, s);
  }

  // ----- cleaning a path -----

  predicate Plain(p: string) { p != "" && p != "." && p != ".." }

  /** What a cleaned rooted path is made of: plain names. */
  lemma {:induction false} CleanedIsPlain(parts: seq<string>)
    ensures forall p | p in Components(parts, true) :: Plain(p)
  {
    if parts != [] {
      CleanedIsPlain(parts[..|parts| - 1]);
    }
  }

  /** Plain names are left alone, so cleaning twice is cleaning once. */
  lemma {:induction false} PlainStays(parts: seq<string>, rooted: bool)
    requires forall p | p in parts :: Plain(p)
    ensures Components(parts, rooted) == parts
  {
    if parts != [] {
      var n := |parts| - 1;
      assert parts[n] in parts && forall p | p in parts[..n] :: p in parts;
      PlainStays(parts[..n], rooted);
      assert parts == parts[..n] + [parts[n]];
    }
  }

  lemma Front(parts: seq<string>, p: string)
    ensures (parts + [p])[..|parts + [p]| - 1] == parts && (parts + [p])[|parts + [p]| - 1] == p
  {
  }

  lemma ParentCancels(parts: seq<string>, name: string, rooted: bool)
    requires Plain(name)
    ensures Components(parts + [name] + [".."], rooted) == Components(parts, rooted)
  {
    ComponentsSnoc(parts, name, rooted);
    Front(parts + [name], "..");
    Front(Components(parts, rooted), name);
  }

  /** Empty and single-dot components vanish, and a name followed by two dots cancels. */
  lemma CleaningLaws(parts: seq<string>, name: string, rooted: bool)
    requires Plain(name)
    ensures Components(parts + [""], rooted) == Components(parts, rooted)
    ensures Components(parts + ["."], rooted) == Components(parts, rooted)
    ensures Components(parts + [name] + [".."], rooted) == Components(parts, rooted)
  {
    Front(parts, "");
    Front(parts, ".");
    ParentCancels(parts, name, rooted);
  }

  // ----- the unit line by line -----

  lemma SplitLine(first: string, rest: string)
    requires '\n' !in first
    ensures Split(first + ['\n'] + rest, '\n') == [first] + Split(rest, '\n')
  {
    CutAt(first, '\n', rest);
  }

  lemma {:induction false} LinesReadBack(lines: seq<string>)
    requires forall i | 0 <= i < |lines| :: '\n' !in lines[i]
    ensures Split(Lines(lines), '\n') == lines + [""]
  {
    if lines == [] {
      OneLine("");
    } else {
      LinesReadBack(lines[1..]);
      SplitLine(lines[0], Lines(lines[1..]));
      Reassembled(lines, "");
    }
  }

  lemma Reassembled(lines: seq<string>, last: string)
    requires lines != []
    ensures [lines[0]] + (lines[1..] + [last]) == lines + [last]
  {
  }

  const USER_KEY := "User="

  /** Who the unit runs as: what a reader of `User=` lines finds, last one wins as systemd has it. */
  function UserOf(lines: seq<string>): Option<string> {
    if lines == [] then None
    else
      var last := lines[|lines| - 1];
      if HasPrefix(last, USER_KEY) then Some(last[|USER_KEY|..]) else UserOf(lines[..|lines| - 1])
  }

  lemma {:induction false} UserOfConcat(a: seq<string>, b: seq<string>)
    ensures UserOf(a + b) == if UserOf(b).Some? then UserOf(b) else UserOf(a)
  {
    if b == [] {
      assert a + b == a;
    } else {
      assert (a + b)[..|a + b| - 1] == a + b[..|b| - 1];
      UserOfConcat(a, b[..|b| - 1]);
    }
  }

  lemma {:induction false} NoUser(lines: seq<string>)
    requires forall l | l in lines :: !HasPrefix(l, USER_KEY)
    ensures UserOf(lines) == None
  {
    if lines != [] {
      var n := |lines| - 1;
      assert lines[n] in lines && forall l | l in lines[..n] :: l in lines;
      NoUser(lines[..n]);
    }
  }

  /** A line of the unit that says nothing about the user. */
  predicate NoUserLine(l: string) { '\n' !in l && (l == "" || l[0] != 'U') }

  lemma NotTheUser(l: string)
    requires NoUserLine(l)
    ensures !HasPrefix(l, USER_KEY)
  {
    assert USER_KEY[0] == 'U';
  }

  lemma NoUserIn(lines: seq<string>)
    requires forall l | l in lines :: NoUserLine(l)
    ensures UserOf(lines) == None
  {
    forall l | l in lines ensures !HasPrefix(l, USER_KEY) {
      NotTheUser(l);
    }
    NoUser(lines);
  }

  lemma HeaderLines(m: Manifest)
    requires NameOk(m.name)
    ensures forall l | l in Header(m) :: NoUserLine(l)
  {
    GeneratedLine(m);
    RegenerateLine();
    assert UNIT_SECTION[0] == '[';
    assert '\n' !in UNIT_SECTION;
  }

  lemma GeneratedLine(m: Manifest)
    requires NameOk(m.name)
    ensures NoUserLine(GENERATED + m.name + DO_NOT_EDIT)
  {
    NameOneLine(m);
    assert '\n' !in GENERATED;
    assert '\n' !in DO_NOT_EDIT;
    assert (GENERATED + m.name + DO_NOT_EDIT)[0] == GENERATED[0] == '#';
  }

  lemma RegenerateLine()
    ensures NoUserLine(REGENERATE + THE_MANIFEST)
  {
    assert '\n' !in REGENERATE;
    assert '\n' !in THE_MANIFEST;
    assert (REGENERATE + THE_MANIFEST)[0] == REGENERATE[0] == '#';
  }

  lemma TrailerLines()
    ensures forall l | l in TRAILER :: NoUserLine(l)
  {
    forall i | 0 <= i < |TRAILER| ensures NoUserLine(TRAILER[i]) {
    }
  }

  lemma ServiceLines(o: Options)
    ensures forall l | l in Preamble(o.(user := "")) :: NoUserLine(l)
  {
    forall i | 0 <= i < |Preamble(o.(user := ""))| ensures NoUserLine(Preamble(o.(user := ""))[i]) {
    }
  }

  lemma CommandLine(m: Manifest, o: Options)
    requires NameOk(m.name) && Spaceless(o)
    ensures NoUserLine(EXEC_START + Spaced(ExecWords(m, o)))
  {
    ExecWordsAreWords(m, o);
    SpacedEnds(ExecWords(m, o));
    assert '\n' !in EXEC_START && EXEC_START[0] == 'E';
    assert (EXEC_START + Spaced(ExecWords(m, o)))[0] == EXEC_START[0];
  }

  lemma UserInService(o: Options)
    requires SpaceFree(o.user)
    ensures UserOf(Preamble(o)) == if o.user != "" then Some(o.user) else None
    ensures forall l | l in Preamble(o) :: '\n' !in l
  {
    var base := Preamble(o.(user := ""));
    ServiceLines(o);
    NoUserIn(base);
    if o.user == "" {
      assert Preamble(o) == base;
    } else {
      var line := "User=" + o.user;
      assert IsSpace('\n') && '\n' !in line;
      assert Preamble(o) == base + [line];
      assert (base + [line])[..|base|] == base;
      assert line[|USER_KEY|..] == o.user;
    }
  }

  /** The unit runs as the user that was asked for, and says nothing about a user otherwise. */
  lemma UnitRunsAs(m: Manifest, o: Options, parse: string -> Option<Float>)
    requires Valid(m, parse) && Spaceless(o) && '\n' !in m.gpu.gpuType
    ensures UserOf(Split(UnitText(m, o), '\n')) == if o.user != "" then Some(o.user) else None
  {
    var before, exec := Header(m) + [Description(m)], [EXEC_START + Spaced(ExecWords(m, o))];
    HeaderLines(m);
    DescriptionOneLine(m);
    UserInService(o);
    CommandLine(m, o);
    TrailerLines();
    AllLines(before, Preamble(o), exec, TRAILER);
    NoUserIn(before);
    NoUserIn(exec + TRAILER + [""]);
    UserOfConcat(before, Preamble(o));
    UserOfConcat(before + Preamble(o), exec + TRAILER + [""]);
  }

  lemma AllLines(a: seq<string>, b: seq<string>, c: seq<string>, d: seq<string>)
    requires forall l | l in a || l in b || l in c || l in d :: '\n' !in l
    ensures Split(Lines(a + b + c + d), '\n') == a + b + (c + d + [""])
  {
    var lines := a + b + c + d;
    forall i | 0 <= i < |lines| ensures '\n' !in lines[i] {
      assert lines[i] in a || lines[i] in b || lines[i] in c || lines[i] in d;
    }
    LinesReadBack(lines);
    Rightmost(a, b, c, d, [""]);
  }

  lemma Rightmost(a: seq<string>, b: seq<string>, c: seq<string>, d: seq<string>, e: seq<string>)
    ensures a + b + c + d + e == a + b + (c + d + e)
  {
  }

  /** Installed without any option, a valid manifest's unit is accepted. */
  lemma DefaultInstallIsAccepted(m: Manifest, parse: string -> Option<Float>)
    requires Valid(m, parse) && '\n' !in m.gpu.gpuType
    ensures var exec := FirstExec(Split(UnitText(m, Options("", "", "", "", "")), '\n'));
            exec.Some? && Starts(m, exec.value)
  {
    var o := Options("", "", "", "", "");
    DefaultPaths(o);
    OneLineTypeInjectsNothing(m);
    PrintedUnitIsAccepted(m, o, parse);
    NoOtherManifest(m, o);
  }

  lemma NoOtherManifest(m: Manifest, o: Options)
    requires o.speculator == "" && o.cacheRoot == ""
    ensures !SpellsAnotherManifest(m, o)
  {
    assert |MANIFEST_EQ| == 11;
  }

  lemma DefaultPaths(o: Options)
    requires o == Options("", "", "", "", "")
    ensures Spaceless(o) && PathBase(o.Bin()) == BINARY
  {
    DefaultBin();
    assert SpaceFree("/etc/fornax");
  }

  const DEFAULT_DIR := "/usr/local/bin"

  lemma DefaultBin()
    ensures SpaceFree("/usr/local/bin/fornax") && PathBase("/usr/local/bin/fornax") == BINARY
  {
    DefaultBinParts();
    assert SpaceFree(DEFAULT_DIR) && SpaceFree(BINARY) && !IsSpace('/');
    BaseIsName(DEFAULT_DIR, BINARY);
  }

  lemma DefaultBinParts()
    ensures "/usr/local/bin/fornax" == DEFAULT_DIR + ['/'] + BINARY
  {
  }
}
