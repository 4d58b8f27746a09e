/** Reading one flag out of an engine's argument list (internal/manifest/manifest.go). */
module Flags {
  import opened Wrappers
  import opened Text

  predicate Dash(token: string) { HasPrefix(token, "-") }

  /** The flag a token spells: what precedes its first '=', or the whole token. */
  function Key(token: string): string { Cut(token, '=').before }

  /** The value the token at the head of `args` carries if it is an occurrence of a flag. */
  function HeadValue(args: seq<string>): string
    requires args != []
  {
    var cut := Cut(args[0], '=');
    if cut.found then cut.after
    else if |args| > 1 && !Dash(args[1]) then args[1]
    else ""
  }

  /** The last occurrence of `flag`, the one both engines obey. */
  function FlagValue(args: seq<string>, flag: string): Option<string> {
    if args == [] then None
    else
      var later := FlagValue(args[1..], flag);
      if later.Some? then later
      else if Key(args[0]) == flag then Some(HeadValue(args))
      else None
  }

  /** The one-pass scan; it looks at every token and never consumes a value. */
  method ScanFlag(args: seq<string>, flag: string) returns (value: string, found: bool)
    ensures FlagValue(args, flag) == if found then Some(value) else None
    ensures !found ==> value == ""
  {
    value, found := "", false;
    for i := 0 to |args|
      invariant !found ==> value == ""
      invariant FlagValue(args, flag) ==
                var later := FlagValue(args[i..], flag);
                if later.Some? then later else if found then Some(value) else None
    {
      var a := args[i];
      assert args[i..][1..] == args[i + 1..];
      var cut := Cut(a, '=');
      if cut.found {
        if cut.before == flag {
          value, found := cut.after, true;
        }
        continue;
      }
      if a != flag {
        continue;
      }
      if i + 1 < |args| && !Dash(args[i + 1]) {
        value, found := args[i + 1], true;
        continue;
      }
      value, found := "", true;
    }
  }

  // ----- a consuming parser as the reference -----

  datatype Arg = Named(key: string, value: string) | Positional(token: string)

  /** Left to right: `--k=v`, then `--k v` (which consumes v), then a bare `--k`. */
  function ParseArgs(args: seq<string>): seq<Arg>
    decreases |args|
  {
    if args == [] then []
    else if !Dash(args[0]) then [Positional(args[0])] + ParseArgs(args[1..])
    else
      var cut := Cut(args[0], '=');
      if cut.found then [Named(cut.before, cut.after)] + ParseArgs(args[1..])
      else if |args| > 1 && !Dash(args[1]) then [Named(args[0], args[1])] + ParseArgs(args[2..])
      else [Named(args[0], "")] + ParseArgs(args[1..])
  }

  function Lookup(parsed: seq<Arg>, flag: string): Option<string> {
    if parsed == [] then None
    else
      var last := parsed[|parsed| - 1];
      if last.Named? && last.key == flag then Some(last.value)
      else Lookup(parsed[..|parsed| - 1], flag)
  }

  lemma {:induction false} LookupCons(first: Arg, rest: seq<Arg>, flag: string)
    ensures Lookup([first] + rest, flag) ==
            var later := Lookup(rest, flag);
            if later.Some? then later
            else if first.Named? && first.key == flag then Some(first.value)
            else None
  {
    var all := [first] + rest;
    if rest == [] {
      assert all[..|all| - 1] == [];
    } else {
      assert all[..|all| - 1] == [first] + rest[..|rest| - 1];
      LookupCons(first, rest[..|rest| - 1], flag);
    }
  }

  /** A token that does not start with a dash cannot spell a flag that does. */
  lemma ValueTokenIsNoFlag(token: string, flag: string)
    requires Dash(flag) && !Dash(token)
    ensures Key(token) != flag
  {
    CutParts(token, '=');
  }

  /** Not consuming values is harmless: the scan agrees with the consuming parser. */
  lemma {:induction false} ScanIsConsumingParse(args: seq<string>, flag: string)
    requires Dash(flag)
    ensures FlagValue(args, flag) == Lookup(ParseArgs(args), flag)
    decreases |args|
  {
    if args == [] {
      return;
    }
    var cut := Cut(args[0], '=');
    if Dash(args[0]) && !cut.found && |args| > 1 && !Dash(args[1]) {
      ScanIsConsumingParse(args[2..], flag);
      ValueTokenIsNoFlag(args[1], flag);
      assert args[1..][1..] == args[2..];
      LookupCons(Named(args[0], args[1]), ParseArgs(args[2..]), flag);
    } else {
      ScanIsConsumingParse(args[1..], flag);
      LookupCons(ParseArgs(args)[0], ParseArgs(args[1..]), flag);
      assert ParseArgs(args) == [ParseArgs(args)[0]] + ParseArgs(args[1..]);
      if !Dash(args[0]) {
        ValueTokenIsNoFlag(args[0], flag);
      }
    }
  }

  /** A name that contains '=' is never found by either reader. */
  lemma {:induction false} EqualsIsNeverFound(args: seq<string>, flag: string)
    requires '=' in flag
    ensures FlagValue(args, flag) == None && Lookup(ParseArgs(args), flag) == None
    decreases |args|
  {
    if args == [] {
      return;
    }
    CutParts(args[0], '=');
    EqualsIsNeverFound(args[1..], flag);
    if |args| > 1 {
      EqualsIsNeverFound(args[2..], flag);
      LookupCons(Named(args[0], args[1]), ParseArgs(args[2..]), flag);
    }
    LookupCons(ParseArgs(args)[0], ParseArgs(args[1..]), flag);
    assert ParseArgs(args) == [ParseArgs(args)[0]] + ParseArgs(args[1..])
        || ParseArgs(args) == [ParseArgs(args)[0]] + ParseArgs(args[2..]);
  }

  /** The exact set of names on which the two readers agree for every argument list. */
  lemma ReadersAgreeExactly(flag: string)
    ensures (forall args :: FlagValue(args, flag) == Lookup(ParseArgs(args), flag))
            <==> (Dash(flag) || '=' in flag)
  {
    if Dash(flag) {
      forall args ensures FlagValue(args, flag) == Lookup(ParseArgs(args), flag) {
        ScanIsConsumingParse(args, flag);
      }
    } else if '=' in flag {
      forall args ensures FlagValue(args, flag) == Lookup(ParseArgs(args), flag) {
        EqualsIsNeverFound(args, flag);
      }
    } else {
      var args := [flag];
      CutParts(flag, '=');
      assert ParseArgs(args) == [Positional(flag)] + ParseArgs(args[1..]);
      LookupCons(Positional(flag), [], flag);
      assert FlagValue(args, flag).Some? && Lookup(ParseArgs(args), flag) == None;
    }
  }

  // ----- composition -----

  /** `a` ends in the bare flag, so the first token of what follows can become its value. */
  predicate EndsInBareFlag(a: seq<string>, flag: string) {
    a != [] && a[|a| - 1] == flag && '=' !in flag
  }

  /** What `flag` reads in a ++ b, for every two lists and every flag. */
  lemma {:induction false} FlagConcat(a: seq<string>, b: seq<string>, flag: string)
    ensures FlagValue(a + b, flag) ==
            var late := FlagValue(b, flag);
            if late.Some? then late
            else if EndsInBareFlag(a, flag) && b != [] && !Dash(b[0]) then Some(b[0])
            else FlagValue(a, flag)
  {
    if a == [] {
      assert a + b == b;
    } else {
      assert (a + b)[1..] == a[1..] + b;
      FlagConcat(a[1..], b, flag);
      CutParts(a[0], '=');
      if |a| > 1 {
        assert (a + b)[1] == a[1];
        assert a[1..] != [] && a[1..][|a[1..]| - 1] == a[|a| - 1];
        if EndsInBareFlag(a, flag) {
          BareEndIsFound(a[1..], flag);
        }
      } else {
        assert a[1..] == [];
      }
    }
  }

  lemma {:induction false} BareEndIsFound(a: seq<string>, flag: string)
    requires EndsInBareFlag(a, flag)
    ensures FlagValue(a, flag) == Some("")
  {
    CutParts(a[0], '=');
    if |a| > 1 {
      assert a[1..][|a[1..]| - 1] == a[|a| - 1];
      BareEndIsFound(a[1..], flag);
    } else {
      assert a[1..] == [];
    }
  }

  /** A later occurrence hides everything before it. */
  lemma FlagSuffixWins(a: seq<string>, b: seq<string>, flag: string)
    requires FlagValue(b, flag).Some?
    ensures FlagValue(a + b, flag) == FlagValue(b, flag)
  {
    FlagConcat(a, b, flag);
  }

  /** A tail of dash tokens that spell other flags changes nothing. */
  lemma FlagIgnoresTail(a: seq<string>, b: seq<string>, flag: string)
    requires FlagValue(b, flag) == None && (b == [] || Dash(b[0]))
    ensures FlagValue(a + b, flag) == FlagValue(a, flag)
  {
    FlagConcat(a, b, flag);
  }

  /** A flag and the token after it, in front of anything else. */
  lemma FlagThen(name: string, value: string, rest: seq<string>, flag: string)
    requires Dash(name) && '=' !in name && Key(value) != flag
    ensures FlagValue([name, value] + rest, flag) ==
            var later := FlagValue(rest, flag);
            if later.Some? then later
            else if flag == name then Some(if Dash(value) then "" else value)
            else None
  {
    var args := [name, value] + rest;
    CutParts(name, '=');
    assert args[1..] == [value] + rest && args[1..][1..] == rest;
  }

  lemma WordThen(word: string, rest: seq<string>, flag: string)
    requires Key(word) != flag
    ensures FlagValue([word] + rest, flag) == FlagValue(rest, flag)
  {
    assert ([word] + rest)[1..] == rest;
  }

  /** How often a flag is spelled. */
  function Count(args: seq<string>, flag: string): nat {
    if args == [] then 0 else (if Key(args[0]) == flag then 1 else 0) + Count(args[1..], flag)
  }

  lemma {:induction false} CountConcat(a: seq<string>, b: seq<string>, flag: string)
    ensures Count(a + b, flag) == Count(a, flag) + Count(b, flag)
  {
    if a == [] {
      assert a + b == b;
    } else {
      assert (a + b)[1..] == a[1..] + b;
      CountConcat(a[1..], b, flag);
    }
  }

  lemma {:induction false} CountZeroIffAbsent(args: seq<string>, flag: string)
    ensures Count(args, flag) == 0 <==> FlagValue(args, flag) == None
  {
    if args != [] {
      CountZeroIffAbsent(args[1..], flag);
    }
  }
}
