/** The parts of Go's strings package the model needs. */
module Text {
  lemma Assoc(a: string, b: string, c: string)
    ensures a + b + c == a + (b + c)
  {
  }

  predicate HasPrefix(s: string, prefix: string) { prefix <= s }

  /** The first index of c in s, or |s| when it does not occur. */
  function IndexOf(s: string, c: char): (i: nat)
    ensures i <= |s|
    ensures i < |s| ==> s[i] == c
    ensures c !in s[..i]
    ensures i == |s| <==> c !in s
  {
    if s == "" then 0
    else if s[0] == c then 0
    else
      var rest := IndexOf(s[1..], c);
      assert s[..1 + rest] == [s[0]] + s[1..][..rest];
      assert c in s <==> c in s[1..];
      1 + rest
  }

  /** strings.Cut around the first occurrence of one character. */
  datatype Cutting = Cutting(before: string, after: string, found: bool)

  function Cut(s: string, c: char): Cutting {
    var i := IndexOf(s, c);
    if i < |s| then Cutting(s[..i], s[i + 1..], true) else Cutting(s, "", false)
  }

  lemma CutParts(s: string, c: char)
    ensures var cut := Cut(s, c);
            && c !in cut.before
            && (cut.found <==> c in s)
            && s == if cut.found then cut.before + [c] + cut.after else cut.before
  {
  }

  /** The first occurrence is where nothing before it matches. */
  lemma CutAt(before: string, c: char, after: string)
    requires c !in before
    ensures Cut(before + [c] + after, c) == Cutting(before, after, true)
  {
    var s := before + [c] + after;
    var i := IndexOf(s, c);
    assert s[|before|] == c;
    assert i >= |before| by {
      assert forall j | 0 <= j < |before| :: s[j] == before[j];
    }
    assert i <= |before| by {
      assert forall j | 0 <= j < i :: s[..i][j] == s[j];
    }
    assert s[..|before|] == before && s[|before| + 1..] == after;
  }

  /** unicode.IsSpace. */
  predicate IsSpace(c: char) {
    c in {'\t', '\n', '\U{000B}', '\U{000C}', '\r', ' ', '\U{0085}', '\U{00A0}', '\U{1680}',
          '\U{2028}', '\U{2029}', '\U{202F}', '\U{205F}', '\U{3000}'}
    || '\U{2000}' <= c <= '\U{200A}'
  }

  /** strings.TrimSpace(s) == "" */
  predicate Blank(s: string) { forall c | c in s :: IsSpace(c) }

  predicate SpaceFree(s: string) { forall c | c in s :: !IsSpace(c) }

  predicate Lower(c: char) { 'a' <= c <= 'z' }

  predicate Upper(c: char) { 'A' <= c <= 'Z' }

  predicate Digit(c: char) { '0' <= c <= '9' }

  function Decimal(n: nat): (s: string)
    ensures s != "" && forall c | c in s :: Digit(c)
  {
    if n < 10 then ["0123456789"[n]] else Decimal(n / 10) + ["0123456789"[n % 10]]
  }

  /** What a run of digits stands for. */
  function ValueOf(s: string): int {
    if s == "" then 0 else 10 * ValueOf(s[..|s| - 1]) + (s[|s| - 1] as int - '0' as int)
  }

  lemma DigitValue(d: nat)
    requires d < 10
    ensures "0123456789"[d] as int - '0' as int == d
  {
  }

  /** Printed numbers are read back, and carry no leading zero. */
  lemma {:induction false} DecimalReadsBack(n: nat)
    ensures ValueOf(Decimal(n)) == n && (Decimal(n)[0] == '0' ==> n == 0)
  {
    var s := Decimal(n);
    DigitValue(n % 10);
    if n < 10 {
      assert s[..0] == "";
    } else {
      DecimalReadsBack(n / 10);
      assert s[..|s| - 1] == Decimal(n / 10);
    }
  }

  /** strconv.Itoa. */
  function Itoa(n: int): string { if n < 0 then "-" + Decimal(-n) else Decimal(n) }

  /** The last element of a slash-separated name that ends in a file name. */
  function BaseName(name: string): string {
    if '/' in name then BaseName(Cut(name, '/').after) else name
  }

  /** Everything up to a slash is dropped. */
  lemma BaseNameBehind(first: string, rest: string)
    requires '/' !in first
    ensures BaseName(first + ['/'] + rest) == BaseName(rest)
  {
    CutAt(first, '/', rest);
    assert (first + ['/'] + rest)[|first|] == '/';
  }

  lemma {:induction false} BaseNameAfterSlash(dir: string, name: string)
    requires '/' !in name
    ensures BaseName(dir + ['/'] + name) == name
    decreases |dir|
  {
    if '/' in dir {
      var cut := Cut(dir, '/');
      CutParts(dir, '/');
      assert dir + ['/'] + name == cut.before + ['/'] + (cut.after + ['/'] + name);
      BaseNameBehind(cut.before, cut.after + ['/'] + name);
      BaseNameAfterSlash(cut.after, name);
    } else {
      BaseNameBehind(dir, name);
    }
  }

  function TrimSlashes(path: string): string {
    if path != "" && path[|path| - 1] == '/' then TrimSlashes(path[..|path| - 1]) else path
  }

  /** path.Base, and filepath.Base on Unix. */
  function PathBase(path: string): string {
    var trimmed := TrimSlashes(path);
    if path == "" then "." else if trimmed == "" then "/" else BaseName(trimmed)
  }

  lemma BaseIsName(dir: string, name: string)
    requires '/' !in name && name != ""
    ensures PathBase(name) == name && PathBase(dir + ['/'] + name) == name
  {
    assert name[|name| - 1] in name;
    BaseNameAfterSlash(dir, name);
    var path := dir + ['/'] + name;
    assert path[|path| - 1] == name[|name| - 1];
  }

  /** strings.Split on one character. */
  function Split(s: string, c: char): (parts: seq<string>)
    ensures parts != []
  {
    var cut := Cut(s, c);
    if cut.found then [cut.before] + Split(cut.after, c) else [s]
  }

  lemma {:induction false} SplitConcat(a: string, c: char, b: string)
    ensures Split(a + [c] + b, c) == Split(a, c) + Split(b, c)
    decreases |a|
  {
    var cut := Cut(a, c);
    CutParts(a, c);
    if cut.found {
      assert a + [c] + b == cut.before + [c] + (cut.after + [c] + b);
      CutAt(cut.before, c, cut.after + [c] + b);
      SplitConcat(cut.after, c, b);
    } else {
      CutAt(a, c, b);
    }
  }

  predicate At(s: string, i: nat, sub: string) { i + |sub| <= |s| && s[i..i + |sub|] == sub }

  predicate Contains(s: string, sub: string) { exists i: nat | i <= |s| :: At(s, i, sub) }

  function LowerChar(c: char): char {
    if Upper(c) then (c as int + 32) as char else c
  }

  function ToLower(s: string): string { seq(|s|, i requires 0 <= i < |s| => LowerChar(s[i])) }

  /** No capital is left, and a capital becomes the letter it is a capital of. */
  lemma LowerFolds(s: string, i: nat)
    requires i < |s|
    ensures |ToLower(s)| == |s| && !Upper(ToLower(s)[i])
    ensures Upper(s[i]) ==> Lower(ToLower(s)[i]) && ToLower(s)[i] as int - 'a' as int == s[i] as int - 'A' as int
    ensures !Upper(s[i]) ==> ToLower(s)[i] == s[i]
  {
  }

  lemma LowerCaseStays(s: string)
    requires forall c | c in s :: !Upper(c)
    ensures ToLower(s) == s
  {
  }

  /** strings.TrimSpace. */
  function TrimSpace(s: string): string {
    if s != "" && IsSpace(s[0]) then TrimSpace(s[1..])
    else if s != "" && IsSpace(s[|s| - 1]) then TrimSpace(s[..|s| - 1])
    else s
  }

  /** Blanks around a text that has none at its ends are what is trimmed. */
  lemma {:induction false} TrimStrips(before: string, s: string, after: string)
    requires Blank(before) && Blank(after)
    requires s != "" && !IsSpace(s[0]) && !IsSpace(s[|s| - 1])
    ensures TrimSpace(before + s + after) == s
    decreases |before| + |after|
  {
    var all := before + s + after;
    if before != "" {
      assert all[0] == before[0] && before[0] in before;
      assert all[1..] == before[1..] + s + after;
      TrimStrips(before[1..], s, after);
    } else if after != "" {
      var n := |after| - 1;
      assert all[0] == s[0] && all[|all| - 1] == after[n] && after[n] in after;
      assert all[..|all| - 1] == before + s + after[..n];
      TrimStrips(before, s, after[..n]);
    } else {
      assert all == s;
    }
  }
}
