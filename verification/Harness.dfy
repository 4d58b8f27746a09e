/** Shell exports for a coding agent, and the shell that reads them back (internal/harness/harness.go). */
module Harness {
  import opened Wrappers
  import opened Text

  datatype Endpoint = Endpoint(baseURL: string, model: string, token: string)

  /** A template is literal text and endpoint fields. */
  datatype Part = Literal(text: string) | BaseURL | Model | Token

  datatype Var = Var(key: string, template: seq<Part>)

  datatype Harness = Harness(name: string, baseSuffix: string, env: seq<Var>)

  /** One rendered variable. */
  datatype Pair = Pair(key: string, value: string)

  const CLAUDE := Harness("claude", "", [Var("ANTHROPIC_BASE_URL", [BaseURL]), Var("ANTHROPIC_AUTH_TOKEN", [Token]),
                                         Var("ANTHROPIC_MODEL", [Model])])

  const CODEX := Harness("codex", "/v1", [Var("OPENAI_BASE_URL", [BaseURL]), Var("OPENAI_API_KEY", [Token])])

  const OPENCODE := Harness("opencode", "/v1", [Var("FORNAX_API_KEY", [Token])])

  const REGISTRY: seq<Harness> := [CLAUDE, CODEX, OPENCODE]

  // ----- rendering -----

  function Resolve(h: Harness, e: Endpoint): Endpoint {
    var n := |e.baseURL|;
    e.(baseURL := (if n > 0 && e.baseURL[n - 1] == '/' then e.baseURL[..n - 1] else e.baseURL) + h.baseSuffix)
  }

  function Render(template: seq<Part>, e: Endpoint): string {
    if template == [] then ""
    else
      (match template[0]
       case Literal(text) => text
       case BaseURL => e.baseURL
       case Model => e.model
       case Token => e.token) + Render(template[1..], e)
  }

  function RenderAll(env: seq<Var>, e: Endpoint): seq<Pair> {
    if env == [] then [] else [Pair(env[0].key, Render(env[0].template, e))] + RenderAll(env[1..], e)
  }

  function EnvVars(h: Harness, e: Endpoint): seq<Pair> { RenderAll(h.env, Resolve(h, e)) }

  // ----- quoting -----

  predicate Safe(c: char) {
    Lower(c) || Upper(c) || Digit(c) || c == '-' || c == '_' || c == '.' || c == '/' || c == ':'
  }

  /** strings.ReplaceAll(s, "'", `'\''`) */
  function Escape(s: string): string {
    if s == "" then ""
    else (if s[0] == '\'' then ['\'', '\\', '\'', '\''] else [s[0]]) + Escape(s[1..])
  }

  function ShellQuote(s: string): string {
    if s == "" then ['\'', '\'']
    else if forall c | c in s :: Safe(c) then s
    else ['\''] + Escape(s) + ['\'']
  }

  const EXPORT: string := ['e', 'x', 'p', 'o', 'r', 't', ' ']

  function ExportLine(v: Pair): string { EXPORT + v.key + ['='] + ShellQuote(v.value) + ['\n'] }

  function ShellText(vars: seq<Pair>): string {
    if vars == [] then "" else ExportLine(vars[0]) + ShellText(vars[1..])
  }

  method Shell(h: Harness, e: Endpoint) returns (text: string)
    ensures text == ShellText(EnvVars(h, e))
  {
    var vars := EnvVars(h, e);
    text := "";
    for i := 0 to |vars|
      invariant text == ShellText(vars[..i])
    {
      ShellTextNext(vars, i);
      text := text + ExportLine(vars[i]);
    }
    assert vars[..|vars|] == vars;
  }

  lemma ShellTextNext(vars: seq<Pair>, i: nat)
    requires i < |vars|
    ensures ShellText(vars[..i + 1]) == ShellText(vars[..i]) + ExportLine(vars[i])
  {
    var before, last, all := vars[..i], vars[i], vars[..i + 1];
    assert before + [last] == all;
    ShellTextAppend(before, last);
  }

  lemma {:induction false} ShellTextAppend(vars: seq<Pair>, v: Pair)
    ensures ShellText(vars + [v]) == ShellText(vars) + ExportLine(v)
  {
    if vars == [] {
      assert [v][1..] == [];
    } else {
      ShellTextAppend(vars[1..], v);
      assert (vars + [v])[0] == vars[0] && (vars + [v])[1..] == vars[1..] + [v];
      Assoc(ExportLine(vars[0]), ShellText(vars[1..]), ExportLine(v));
    }
  }

  // ----- the shell (sections 2.2.1 and 2.2.2 of the POSIX Shell Command Language) -----

  const NUL: char := '\0'

  /** Characters an unquoted word gives a meaning of their own. */
  predicate Special(c: char) {
    || c == '|' || c == '&' || c == ';' || c == '<' || c == '>' || c == '(' || c == ')' || c == '$' || c == '`'
    || c == '\\' || c == '"' || c == '\'' || c == ' ' || c == '\t' || c == '\n' || c == '*' || c == '?'
    || c == '[' || c == '#' || c == '~' || c == '=' || c == '%' || c == NUL
  }

  function Prepend(c: char, read: Option<(string, string)>): Option<(string, string)> {
    if read.None? then None else Some(([c] + read.value.0, read.value.1))
  }

  /** A word outside quotes, up to the newline that ends the command; None needs more of the shell. */
  function ReadWord(s: string): Option<(string, string)>
    decreases |s|
  {
    if s == "" then None
    else if s[0] == '\n' then Some(("", s[1..]))
    else if s[0] == '\'' then ReadQuoted(s[1..])
    else if s[0] == '\\' then
      if |s| == 1 || s[1] == NUL then None
      else if s[1] == '\n' then ReadWord(s[2..])
      else Prepend(s[1], ReadWord(s[2..]))
    else if Special(s[0]) then None
    else Prepend(s[0], ReadWord(s[1..]))
  }

  /** Inside single quotes every character is itself, up to the closing quote. */
  function ReadQuoted(s: string): Option<(string, string)>
    decreases |s|
  {
    if s == "" || s[0] == NUL then None
    else if s[0] == '\'' then ReadWord(s[1..])
    else Prepend(s[0], ReadQuoted(s[1..]))
  }

  predicate NameStart(c: char) { Lower(c) || Upper(c) || c == '_' }

  predicate ShellName(s: string) { s != "" && NameStart(s[0]) && forall c | c in s :: NameStart(c) || Digit(c) }

  /** A script of `export NAME=word` lines. */
  function ReadExports(s: string): Option<seq<Pair>>
    decreases |s|
  {
    if s == "" then Some([])
    else if !HasPrefix(s, EXPORT) then None
    else
      var cut := Cut(s[|EXPORT|..], '=');
      var word := if cut.found && ShellName(cut.before) then ReadWord(cut.after) else None;
      if word.None? || |word.value.1| >= |s| then None
      else
        var rest := ReadExports(word.value.1);
        if rest.None? then None else Some([Pair(cut.before, word.value.0)] + rest.value)
  }

  // ----- reading back -----

  predicate NulFree(s: string) { NUL !in s }

  lemma SafeIsPlain(c: char)
    requires Safe(c)
    ensures !Special(c)
  {
    assert !Lower(c) && !Upper(c) && !Digit(c) ==> c == '-' || c == '_' || c == '.' || c == '/' || c == ':';
  }

  lemma {:induction false} SafeWord(s: string, rest: string)
    requires forall c | c in s :: Safe(c)
    ensures ReadWord(s + ['\n'] + rest) == Some((s, rest))
  {
    var all := s + ['\n'] + rest;
    if s == "" {
      assert all[1..] == rest;
    } else {
      assert all[1..] == s[1..] + ['\n'] + rest;
      SafeWord(s[1..], rest);
      assert s[0] in s;
      SafeIsPlain(s[0]);
      assert [s[0]] + s[1..] == s;
    }
  }

  /** Inside the quotes, an escaped text reads as itself, and a NUL makes it unreadable. */
  lemma {:induction false} QuotedWord(s: string, rest: string)
    ensures ReadQuoted(Escape(s) + ['\'', '\n'] + rest) == if NulFree(s) then Some((s, rest)) else None
  {
    var all := Escape(s) + ['\'', '\n'] + rest;
    if s == "" {
      assert all[1..] == ['\n'] + rest;
      assert all[1..][1..] == rest;
    } else {
      var tail := Escape(s[1..]) + ['\'', '\n'] + rest;
      QuotedWord(s[1..], rest);
      assert NulFree(s) <==> s[0] != NUL && NulFree(s[1..]);
      assert [s[0]] + s[1..] == s;
      if s[0] == '\'' {
        assert all == ['\'', '\\', '\'', '\''] + tail;
        EscapedQuote(tail);
      } else {
        assert all == [s[0]] + tail;
        assert all[1..] == tail;
      }
    }
  }

  lemma EscapedQuote(tail: string)
    ensures ReadQuoted(['\'', '\\', '\'', '\''] + tail) == Prepend('\'', ReadQuoted(tail))
  {
    var all := ['\'', '\\', '\'', '\''] + tail;
    var inWord := ['\\', '\'', '\''] + tail;
    var reopened := ['\''] + tail;
    assert all[1..] == inWord && inWord[2..] == reopened && reopened[1..] == tail;
    assert ReadWord(reopened) == ReadQuoted(tail);
    assert ReadWord(inWord) == Prepend('\'', ReadWord(reopened));
    assert ReadQuoted(all) == ReadWord(inWord);
  }

  lemma QuotedValue(s: string, rest: string)
    ensures ReadWord(ShellQuote(s) + ['\n'] + rest) == if NulFree(s) then Some((s, rest)) else None
  {
    if s == "" {
      var all := ['\'', '\''] + ['\n'] + rest;
      assert all[1..] == ['\'', '\n'] + rest;
      QuotedWord("", rest);
      assert Escape("") + ['\'', '\n'] + rest == ['\'', '\n'] + rest;
    } else if forall c | c in s :: Safe(c) {
      SafeWord(s, rest);
    } else {
      var all := ['\''] + Escape(s) + ['\''] + ['\n'] + rest;
      assert all[1..] == Escape(s) + ['\'', '\n'] + rest;
      QuotedWord(s, rest);
    }
  }

  lemma ReadLine(v: Pair, rest: string)
    requires ShellName(v.key)
    ensures ReadExports(ExportLine(v) + rest) ==
            var more := ReadExports(rest);
            if NulFree(v.value) && more.Some? then Some([v] + more.value) else None
  {
    var all := ExportLine(v) + rest;
    var after := ShellQuote(v.value) + ['\n'] + rest;
    assert all == EXPORT + (v.key + ['='] + after);
    assert all[|EXPORT|..] == v.key + ['='] + after;
    assert '=' !in v.key;
    CutAt(v.key, '=', after);
    QuotedValue(v.value, rest);
  }

  /** The pairs a shell can be given. */
  predicate Carriable(vars: seq<Pair>) { forall v | v in vars :: NulFree(v.value) }

  lemma CarriableCons(v: Pair, rest: seq<Pair>)
    ensures Carriable([v] + rest) <==> NulFree(v.value) && Carriable(rest)
  {
    assert v in [v] + rest;
    assert forall r | r in rest :: r in [v] + rest;
  }

  /** The exports read back as exactly the rendered pairs if, and only if, no value contains a NUL. */
  lemma {:induction false} ExportsReadBack(vars: seq<Pair>)
    requires forall v | v in vars :: ShellName(v.key)
    ensures ReadExports(ShellText(vars)) == if Carriable(vars) then Some(vars) else None
  {
    if vars != [] {
      var rest := vars[1..];
      assert vars[0] in vars && forall v | v in rest :: v in vars;
      ExportsReadBack(rest);
      ReadLine(vars[0], ShellText(rest));
      CarriableCons(vars[0], rest);
      assert vars == [vars[0]] + rest;
    }
  }

  lemma {:induction false} RenderedKeys(env: seq<Var>, e: Endpoint)
    requires forall v | v in env :: ShellName(v.key)
    ensures |RenderAll(env, e)| == |env|
    ensures forall i | 0 <= i < |env| ::
              RenderAll(env, e)[i] == Pair(env[i].key, Render(env[i].template, e))
    ensures forall p | p in RenderAll(env, e) :: ShellName(p.key)
  {
    if env != [] {
      RenderedKeys(env[1..], e);
    }
  }

  /** What `eval "$(fornax harness ...)"` sets, for every harness and every endpoint. */
  lemma ShellSetsEnvVars(h: Harness, e: Endpoint)
    requires forall v | v in h.env :: ShellName(v.key)
    ensures ReadExports(ShellText(EnvVars(h, e))) ==
            if Carriable(EnvVars(h, e)) then Some(EnvVars(h, e)) else None
  {
    RenderedKeys(h.env, Resolve(h, e));
    ExportsReadBack(EnvVars(h, e));
  }

  /** A slash at the end of the base URL does not change what is exported. */
  lemma TrailingSlashIsInvisible(h: Harness, e: Endpoint)
    requires e.baseURL == "" || e.baseURL[|e.baseURL| - 1] != '/'
    ensures EnvVars(h, e.(baseURL := e.baseURL + "/")) == EnvVars(h, e)
    ensures Resolve(h, e).baseURL == e.baseURL + h.baseSuffix
  {
    var slashed := e.baseURL + "/";
    assert slashed[..|slashed| - 1] == e.baseURL;
  }

  /** The value a variable of that name has; the names of one harness are distinct. */
  function Exported(pairs: seq<Pair>, key: string): Option<string> {
    if pairs == [] then None
    else if pairs[0].key == key then Some(pairs[0].value)
    else Exported(pairs[1..], key)
  }

  lemma {:induction false} ExportedAt(env: seq<Var>, e: Endpoint, i: nat)
    requires i < |env| && forall j | 0 <= j < i :: env[j].key != env[i].key
    ensures Exported(RenderAll(env, e), env[i].key) == Some(Render(env[i].template, e))
  {
    if i > 0 {
      ExportedAt(env[1..], e, i - 1);
    }
  }

  lemma OneField(e: Endpoint)
    ensures Render([BaseURL], e) == e.baseURL && Render([Token], e) == e.token && Render([Model], e) == e.model
  {
    assert Render([], e) == "";
    assert [BaseURL][1..] == [] && [Token][1..] == [] && [Model][1..] == [];
  }

  /** What an agent finds in its environment: claude gets URL, token and model, codex URL and token, opencode the token. */
  lemma AgentsGetTheEndpoint(e: Endpoint)
    ensures Exported(EnvVars(CLAUDE, e), "ANTHROPIC_BASE_URL") == Some(Resolve(CLAUDE, e).baseURL)
    ensures Exported(EnvVars(CLAUDE, e), "ANTHROPIC_AUTH_TOKEN") == Some(e.token)
    ensures Exported(EnvVars(CLAUDE, e), "ANTHROPIC_MODEL") == Some(e.model)
    ensures Exported(EnvVars(CODEX, e), "OPENAI_BASE_URL") == Some(Resolve(CODEX, e).baseURL)
    ensures Exported(EnvVars(CODEX, e), "OPENAI_API_KEY") == Some(e.token)
    ensures Exported(EnvVars(OPENCODE, e), "FORNAX_API_KEY") == Some(e.token)
  {
    ClaudeGets(Resolve(CLAUDE, e));
    CodexGets(Resolve(CODEX, e));
    OneField(Resolve(OPENCODE, e));
    ExportedAt(OPENCODE.env, Resolve(OPENCODE, e), 0);
  }

  lemma ClaudeGets(e: Endpoint)
    ensures Exported(RenderAll(CLAUDE.env, e), "ANTHROPIC_BASE_URL") == Some(e.baseURL)
    ensures Exported(RenderAll(CLAUDE.env, e), "ANTHROPIC_AUTH_TOKEN") == Some(e.token)
    ensures Exported(RenderAll(CLAUDE.env, e), "ANTHROPIC_MODEL") == Some(e.model)
  {
    OneField(e);
    assert |CLAUDE.env[0].key| == 18 && |CLAUDE.env[1].key| == 20 && |CLAUDE.env[2].key| == 15;
    ExportedAt(CLAUDE.env, e, 0);
    ExportedAt(CLAUDE.env, e, 1);
    ExportedAt(CLAUDE.env, e, 2);
  }

  lemma CodexGets(e: Endpoint)
    ensures Exported(RenderAll(CODEX.env, e), "OPENAI_BASE_URL") == Some(e.baseURL)
    ensures Exported(RenderAll(CODEX.env, e), "OPENAI_API_KEY") == Some(e.token)
  {
    OneField(e);
    assert |CODEX.env[0].key| == 15 && |CODEX.env[1].key| == 14;
    ExportedAt(CODEX.env, e, 0);
    ExportedAt(CODEX.env, e, 1);
  }

  lemma ClaudeKeys()
    ensures forall v | v in CLAUDE.env :: ShellName(v.key)
  {
  }

  lemma CodexKeys()
    ensures forall v | v in CODEX.env :: ShellName(v.key)
  {
  }

  lemma OpencodeKeys()
    ensures forall v | v in OPENCODE.env :: ShellName(v.key)
  {
  }

  lemma RegistryKeysAreNames(h: Harness, v: Var)
    requires h in REGISTRY && v in h.env
    ensures ShellName(v.key)
  {
    ClaudeKeys();
    CodexKeys();
    OpencodeKeys();
    assert h == CLAUDE || h == CODEX || h == OPENCODE;
  }
}
